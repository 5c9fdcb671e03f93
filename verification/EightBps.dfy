/** QuickTime 8BPS pictures: planes of packed rows, interleaved into pixels. */
module EightBps {
  import opened Bytes
  import opened PrefixCodes
  import opened EightBpsRow

  /** Where each plane's bytes go in a pixel, how far apart pixels and rows are, and the height. */
  datatype Layout = Layout(planemap: seq<nat>, inc: nat, linesize: nat, height: nat)

  /** Planes have places of their own within a pixel. */
  predicate GoodLayout(g: Layout) {
    g.inc > 0 &&
    (forall p :: 0 <= p < |g.planemap| ==> g.planemap[p] < g.inc) &&
    (forall p, q :: 0 <= p < q < |g.planemap| ==> g.planemap[p] != g.planemap[q])
  }

  /**
   The layouts of the decoder on a little-endian machine: palette indexes, RGB in three or four bytes, RGB with
   alpha.
   */
  function Paletted(linesize: nat, height: nat): (g: Layout)
    ensures GoodLayout(g)
  {
    Layout([0], 1, linesize, height)
  }

  function Rgb24(padded: bool, linesize: nat, height: nat): (g: Layout)
    ensures GoodLayout(g)
  {
    Layout([2, 1, 0], if padded then 4 else 3, linesize, height)
  }

  function Rgb32(linesize: nat, height: nat): (g: Layout)
    ensures GoodLayout(g)
  {
    Layout([2, 1, 0, 3], 4, linesize, height)
  }

  function Start(g: Layout, p: nat, row: nat): nat
    requires p < |g.planemap|
  {
    row * g.linesize + g.planemap[p]
  }

  /** Where the length of a row is stored, and where the rows themselves begin. */
  function LengthAt(g: Layout, p: nat, row: nat): nat {
    2 * (p * g.height + row)
  }

  function HeaderSize(g: Layout): nat {
    2 * (|g.planemap| * g.height)
  }

  function Be16(e: seq<Byte>, i: nat): (r: nat)
    requires i + 1 < |e|
    ensures r < 0x10000
  {
    var high: nat := e[i];
    high * 0x100 + e[i + 1]
  }

  /** The first byte is the high one. */
  lemma Be16Bytes(e: seq<Byte>, i: nat)
    requires i + 1 < |e|
    ensures Be16(e, i) / 0x100 == e[i] && Be16(e, i) % 0x100 == e[i + 1]
  {
  }

  /** The picture after the rows from the given one on, and how far the data has been read. */
  function DecodeFrom(g: Layout, e: seq<Byte>, p: nat, row: nat, dp: nat, f: seq<Byte>): Option<(nat, seq<Byte>)>
    requires p <= |g.planemap| && row <= g.height
    decreases |g.planemap| - p, g.height - row
  {
    if p == |g.planemap| then Some((dp, f))
    else if row == g.height then DecodeFrom(g, e, p + 1, 0, dp, f)
    else if |e| < LengthAt(g, p, row) + 2 then None
    else
      var pix := Start(g, p, row);
      match DecodeRow(e, g.inc, pix + g.linesize, Be16(e, LengthAt(g, p, row)), Cursor(dp, pix, f))
      case Invalid => None
      case Filled(c) => DecodeFrom(g, e, p, row + 1, c.dp, c.frame)
      case Full(c) => DecodeFrom(g, e, p, row + 1, c.dp, c.frame)
  }

  // ---------- encoding

  /** Rows plane after plane: row r of plane p is number p * height + r. */
  type Rows = seq<seq<Packet>>

  /** Each row is packets, holds no more bytes than a picture row has pixels, and has a 16-bit length. */
  predicate GoodRows(g: Layout, rows: Rows) {
    |rows| == |g.planemap| * g.height &&
    forall i :: 0 <= i < |rows| ==> GoodRow(g, rows[i])
  }

  predicate GoodRow(g: Layout, ps: seq<Packet>) {
    ArePackets(ps) && |Contents(ps)| * g.inc <= g.linesize && |CodeAll(ps)| < 0x10000
  }

  predicate AllGood(g: Layout, rows: Rows) {
    forall i :: 0 <= i < |rows| ==> GoodRow(g, rows[i])
  }

  function Lengths(g: Layout, rows: Rows): (r: seq<Byte>)
    requires AllGood(g, rows)
    ensures |r| == 2 * |rows|
  {
    if rows == [] then []
    else [|CodeAll(rows[0])| / 0x100, |CodeAll(rows[0])| % 0x100] + Lengths(g, rows[1..])
  }

  function Data(g: Layout, rows: Rows): seq<Byte>
    requires AllGood(g, rows)
  {
    if rows == [] then [] else CodeAll(rows[0]) + Data(g, rows[1..])
  }

  function Encode(g: Layout, rows: Rows): seq<Byte>
    requires AllGood(g, rows)
  {
    Lengths(g, rows) + Data(g, rows)
  }

  lemma {:induction false} LengthIsStored(g: Layout, rows: Rows, i: nat)
    requires AllGood(g, rows) && i < |rows|
    ensures Be16(Lengths(g, rows), 2 * i) == |CodeAll(rows[i])|
  {
    hide CodeAll, Contents, GoodRow;
    if i > 0 {
      LengthIsStored(g, rows[1..], i - 1);
      var t := Lengths(g, rows);
      assert t[2..] == Lengths(g, rows[1..]);
      assert t[2 * i] == t[2..][2 * (i - 1)] && t[2 * i + 1] == t[2..][2 * (i - 1) + 1];
    }
  }

  lemma {:induction false} DataSplit(g: Layout, rows: Rows, i: nat)
    requires AllGood(g, rows) && i <= |rows|
    ensures Data(g, rows) == Data(g, rows[..i]) + Data(g, rows[i..])
  {
    hide CodeAll, GoodRow;
    if i == 0 {
      assert rows[0..] == rows;
    } else {
      DataSplit(g, rows[1..], i - 1);
      assert rows[..i][1..] == rows[1..][..i - 1] && rows[i..] == rows[1..][i - 1..];
    }
  }

  lemma FirstRow(g: Layout, rows: Rows)
    requires AllGood(g, rows) && rows != []
    ensures CodeAll(rows[0]) <= Data(g, rows)
    ensures |rows| == 1 ==> Data(g, rows) == CodeAll(rows[0])
  {
    hide CodeAll, GoodRow;
  }

  lemma RowCutOut(rows: Rows, i: nat)
    requires i < |rows|
    ensures rows[..i + 1][..i] == rows[..i] && rows[..i + 1][i..] == [rows[i]] && rows[i..][0] == rows[i]
  {
  }

  lemma PrefixBehind(a: seq<Byte>, b: seq<Byte>, c: seq<Byte>)
    requires c <= b
    ensures |a| + |c| <= |a + b| && (a + b)[|a|..|a| + |c|] == c
  {
  }

  /** Row i lies behind the rows before it. */
  lemma DataOfRow(g: Layout, rows: Rows, i: nat)
    requires AllGood(g, rows) && i < |rows|
    ensures var d, k := Data(g, rows), |Data(g, rows[..i])|;
            k + |CodeAll(rows[i])| <= |d| && d[k..k + |CodeAll(rows[i])|] == CodeAll(rows[i]) &&
            |Data(g, rows[..i + 1])| == k + |CodeAll(rows[i])|
  {
    RowCutOut(rows, i);
    DataSplit(g, rows, i);
    DataSplit(g, rows[..i + 1], i);
    FirstRow(g, [rows[i]]);
    FirstRow(g, rows[i..]);
    hide Data, CodeAll, GoodRow;
    PrefixBehind(Data(g, rows[..i]), Data(g, rows[i..]), CodeAll(rows[i]));
  }

  // ---------- round trip

  /** The picture the rows from the given one on should give. */
  function Painted(g: Layout, rows: Rows, p: nat, row: nat, f: seq<Byte>): (r: seq<Byte>)
    requires |rows| == |g.planemap| * g.height && p <= |g.planemap| && row <= g.height
    ensures |r| == |f|
    decreases |g.planemap| - p, g.height - row
  {
    if p == |g.planemap| then f
    else if row == g.height then Painted(g, rows, p + 1, 0, f)
    else
      RowNumber(g, p, row);
      Painted(g, rows, p, row + 1, Scatter(f, Start(g, p, row), g.inc, Contents(rows[p * g.height + row])))
  }

  lemma RowNumber(g: Layout, p: nat, row: nat)
    requires p < |g.planemap| && row < g.height
    ensures p * g.height + row < |g.planemap| * g.height
  {
    assert (p + 1) * g.height <= |g.planemap| * g.height;
    assert (p + 1) * g.height == p * g.height + g.height;
  }

  /** Where row i begins in an encoded picture. */
  function RowAt(g: Layout, rows: Rows, i: nat): nat
    requires AllGood(g, rows) && i <= |rows|
  {
    HeaderSize(g) + |Data(g, rows[..i])|
  }

  /** Decoding the encoded rows reads all of them, each exactly to its declared end. */
  lemma {:induction false} DecodesFrom(g: Layout, rows: Rows, p: nat, row: nat, f: seq<Byte>)
    requires GoodRows(g, rows) && p <= |g.planemap| && row <= g.height
    requires p * g.height + row <= |rows|
    ensures var e, dp := Encode(g, rows), RowAt(g, rows, p * g.height + row);
            DecodeFrom(g, e, p, row, dp, f) == Some((if p == |g.planemap| then dp else |e|, Painted(g, rows, p, row, f)))
    decreases |g.planemap| - p, g.height - row
  {
    hide Scatter, CodeAll, Contents, Lengths, Data, DecodeRow, RowAt, GoodRow, Start, LengthAt, HeaderSize;
    if p < |g.planemap| {
      var i := p * g.height + row;
      if row == g.height {
        assert (p + 1) * g.height + 0 == i;
        DecodesFrom(g, rows, p + 1, 0, f);
        if p + 1 == |g.planemap| {
          AllRows(g, rows);
        }
      } else {
        RowNumber(g, p, row);
        DecodesRow(g, rows, p, row, i, f);
        DecodesFrom(g, rows, p, row + 1, Scatter(f, Start(g, p, row), g.inc, Contents(rows[i])));
      }
    }
  }

  lemma AllRows(g: Layout, rows: Rows)
    requires GoodRows(g, rows)
    ensures RowAt(g, rows, |rows|) == |Encode(g, rows)|
  {
    assert rows[..|rows|] == rows;
  }

  lemma DecodesRow(g: Layout, rows: Rows, p: nat, row: nat, i: nat, f: seq<Byte>)
    requires GoodRows(g, rows) && p < |g.planemap| && row < g.height && i == p * g.height + row < |rows|
    ensures LengthAt(g, p, row) + 2 <= |Encode(g, rows)|
    ensures DecodeRow(Encode(g, rows), g.inc, Start(g, p, row) + g.linesize, Be16(Encode(g, rows), LengthAt(g, p, row)),
                      Cursor(RowAt(g, rows, i), Start(g, p, row), f)) ==
            Filled(Wrote(Cursor(RowAt(g, rows, i), Start(g, p, row), f), g.inc, |CodeAll(rows[i])|, Contents(rows[i])))
    ensures RowAt(g, rows, i + 1) == RowAt(g, rows, i) + |CodeAll(rows[i])|
  {
    hide Scatter, CodeAll, Contents, Lengths, Data, DecodeRow, Start;
    var e := Encode(g, rows);
    var h, k, n := |Lengths(g, rows)|, |Data(g, rows[..i])|, |CodeAll(rows[i])|;
    LengthIsStored(g, rows, i);
    assert e[2 * i] == Lengths(g, rows)[2 * i] && e[2 * i + 1] == Lengths(g, rows)[2 * i + 1];
    DataOfRow(g, rows, i);
    assert e[h..] == Data(g, rows);
    SliceOfSlice(e, h, |e|, k, k + n);
    assert e[h..|e|] == e[h..];
    assert GoodRow(g, rows[i]);
    PacketsFill(e, g.inc, Start(g, p, row) + g.linesize, Cursor(h + k, Start(g, p, row), f), rows[i]);
  }

  // ---------- what the picture shows

  /** Place of byte k of a row. */
  function Place(g: Layout, p: nat, row: nat, k: nat): nat
    requires p < |g.planemap|
  {
    Start(g, p, row) + k * g.inc
  }

  /** Bytes of a row lie within their picture row. */
  lemma PlaceInRow(g: Layout, p: nat, row: nat, k: nat, n: nat)
    requires GoodLayout(g) && p < |g.planemap| && k < n && n * g.inc <= g.linesize
    ensures row * g.linesize <= Place(g, p, row, k) < row * g.linesize + g.linesize
  {
    assert k * g.inc >= 0;
    assert (k + 1) * g.inc <= n * g.inc;
    assert (k + 1) * g.inc == k * g.inc + g.inc;
  }

  lemma RowsApart(r1: nat, r2: nat, w: nat)
    requires r1 < r2
    ensures r1 * w + w <= r2 * w
  {
    assert (r1 + 1) * w <= r2 * w;
  }

  /** Different planes or different rows never share a place. */
  lemma PlacesDiffer(g: Layout, p: nat, r: nat, k: nat, n: nat, p2: nat, r2: nat, k2: nat, n2: nat)
    requires GoodLayout(g) && p < |g.planemap| && p2 < |g.planemap| && (p != p2 || r != r2)
    requires k < n && n * g.inc <= g.linesize && k2 < n2 && n2 * g.inc <= g.linesize
    ensures Place(g, p, r, k) != Place(g, p2, r2, k2)
  {
    PlaceInRow(g, p, r, k, n);
    PlaceInRow(g, p2, r2, k2, n2);
    if r < r2 {
      RowsApart(r, r2, g.linesize);
    } else if r2 < r {
      RowsApart(r2, r, g.linesize);
    } else {
      assert g.planemap[p] != g.planemap[p2];
      if k < k2 {
        Multiples(g.inc, k, k2);
      } else if k2 < k {
        Multiples(g.inc, k2, k);
      }
    }
  }

  lemma Multiples(inc: nat, k: nat, k2: nat)
    requires k < k2
    ensures k * inc + inc <= k2 * inc
  {
    RowsApart(k, k2, inc);
  }

  /** Row (p, row) does not come before (p2, row2) in decoding order. */
  predicate NotBefore(p: nat, row: nat, p2: nat, row2: nat) {
    p > p2 || (p == p2 && row >= row2)
  }

  /** Painting one row leaves the places of another alone. */
  lemma RowMisses(g: Layout, p: nat, row: nat, s: seq<Byte>, f: seq<Byte>, q: nat, r: nat, k: nat, n: nat)
    requires GoodLayout(g) && p < |g.planemap| && q < |g.planemap| && (p != q || row != r)
    requires |s| * g.inc <= g.linesize && k < n && n * g.inc <= g.linesize && Place(g, q, r, k) < |f|
    ensures Scatter(f, Start(g, p, row), g.inc, s)[Place(g, q, r, k)] == f[Place(g, q, r, k)]
  {
    hide Scatter;
    forall i | 0 <= i < |s| ensures Place(g, q, r, k) != Start(g, p, row) + i * g.inc {
      PlacesDiffer(g, q, r, k, n, p, row, i, |s|);
    }
    ScatterMisses(f, Start(g, p, row), g.inc, s, Place(g, q, r, k));
  }

  /** Painting one row shows its own bytes, and no other's. */
  lemma RowPainted(g: Layout, p: nat, row: nat, s: seq<Byte>, f: seq<Byte>, q: nat, r: nat, t: seq<Byte>, k: nat)
    requires GoodLayout(g) && p < |g.planemap| && q < |g.planemap| && (p == q && row == r ==> s == t)
    requires |s| * g.inc <= g.linesize && k < |t| && |t| * g.inc <= g.linesize && Place(g, q, r, k) < |f|
    ensures Scatter(f, Start(g, p, row), g.inc, s)[Place(g, q, r, k)] ==
            if p == q && row == r then t[k] else f[Place(g, q, r, k)]
  {
    hide Scatter;
    if p == q && row == r {
      ScatterHits(f, Start(g, p, row), g.inc, s, k);
    } else {
      RowMisses(g, p, row, s, f, q, r, k, |t|);
    }
  }

  /** Painting the rows from (p, row) on leaves the places of earlier rows alone and shows those of later ones. */
  lemma {:induction false} PaintShows(g: Layout, rows: Rows, p: nat, row: nat, f: seq<Byte>, q: nat, r: nat, k: nat)
    requires GoodLayout(g) && GoodRows(g, rows) && p <= |g.planemap| && row <= g.height
    requires q < |g.planemap| && r < g.height && k < |RowBytes(g, rows, q, r)|
    requires Place(g, q, r, k) < |f|
    ensures Painted(g, rows, p, row, f)[Place(g, q, r, k)] ==
            if NotBefore(q, r, p, row) then RowBytes(g, rows, q, r)[k] else f[Place(g, q, r, k)]
    decreases |g.planemap| - p, g.height - row
  {
    assert |rows| == |g.planemap| * g.height;
    hide Scatter, Contents, Place, Start, GoodLayout, GoodRows, RowBytes;
    if p == |g.planemap| {
    } else if row == g.height {
      PaintShows(g, rows, p + 1, 0, f, q, r, k);
    } else {
      var s, t := RowBytes(g, rows, p, row), RowBytes(g, rows, q, r);
      PaintedStep(g, rows, p, row, f);
      hide Painted;
      PaintShows(g, rows, p, row + 1, Scatter(f, Start(g, p, row), g.inc, s), q, r, k);
      RowFits(g, rows, p, row);
      RowFits(g, rows, q, r);
      RowPainted(g, p, row, s, f, q, r, t, k);
    }
  }

  lemma PaintedStep(g: Layout, rows: Rows, p: nat, row: nat, f: seq<Byte>)
    requires |rows| == |g.planemap| * g.height && p < |g.planemap| && row < g.height
    ensures Painted(g, rows, p, row, f) ==
            Painted(g, rows, p, row + 1, Scatter(f, Start(g, p, row), g.inc, RowBytes(g, rows, p, row)))
  {
  }

  lemma RowFits(g: Layout, rows: Rows, p: nat, row: nat)
    requires GoodRows(g, rows) && p < |g.planemap| && row < g.height
    ensures |RowBytes(g, rows, p, row)| * g.inc <= g.linesize
  {
    RowNumber(g, p, row);
    assert GoodRow(g, rows[p * g.height + row]);
  }

  function RowBytes(g: Layout, rows: Rows, p: nat, r: nat): seq<Byte>
    requires |rows| == |g.planemap| * g.height && p < |g.planemap| && r < g.height
  {
    RowNumber(g, p, r);
    Contents(rows[p * g.height + r])
  }

  /**
   Whatever packets its rows are cut into, an encoded picture is decoded to its end, and every byte of every row of
   every plane is where its plane map says.
   */
  lemma PictureRoundTrip(g: Layout, rows: Rows, f: seq<Byte>)
    requires GoodLayout(g) && GoodRows(g, rows) && g.height * g.linesize <= |f|
    ensures var e := Encode(g, rows);
            var d := DecodeFrom(g, e, 0, 0, HeaderSize(g), f);
            d.Some? && |d.value.1| == |f| && (|g.planemap| > 0 ==> d.value.0 == |e|) &&
            forall p, r, k :: 0 <= p < |g.planemap| && 0 <= r < g.height && 0 <= k < |RowBytes(g, rows, p, r)| ==>
              Place(g, p, r, k) < |f| && d.value.1[Place(g, p, r, k)] == RowBytes(g, rows, p, r)[k]
  {
    assert rows[..0] == [] && Data(g, []) == [];
    hide Scatter, CodeAll, Contents, Place, Encode, Painted, DecodeFrom, Data, Lengths;
    assert RowAt(g, rows, 0) == HeaderSize(g) + |Data(g, rows[..0])|;
    assert 0 * g.height == 0;
    DecodesFrom(g, rows, 0, 0, f);
    var d := DecodeFrom(g, Encode(g, rows), 0, 0, HeaderSize(g), f);
    forall p, r, k | 0 <= p < |g.planemap| && 0 <= r < g.height && 0 <= k < |RowBytes(g, rows, p, r)|
      ensures Place(g, p, r, k) < |f| && d.value.1[Place(g, p, r, k)] == RowBytes(g, rows, p, r)[k]
    {
      RowFits(g, rows, p, r);
      PlaceInRow(g, p, r, k, |RowBytes(g, rows, p, r)|);
      RowsApart(r, g.height, g.linesize);
      PaintShows(g, rows, 0, 0, f, p, r, k);
    }
  }

  // ---------- the decoder's loops

  /** Copies `count` bytes of the packet into the picture, `inc` apart. */
  method CopyLiteral(e: seq<Byte>, dp: nat, count: nat, frame: array<Byte>, pix: nat, inc: nat)
    requires inc > 0 && dp + count <= |e| && pix + count * inc < frame.Length + inc
    modifies frame
    ensures frame[..] == Scatter(old(frame[..]), pix, inc, e[dp..dp + count])
  {
    var left: nat, at: nat, pixptr: nat := count, dp, pix;
    while left > 0
      invariant left <= count && at == dp + (count - left) && pixptr + left * inc < frame.Length + inc
      invariant Scatter(frame[..], pixptr, inc, e[at..dp + count]) == Scatter(old(frame[..]), pix, inc, e[dp..dp + count])
    {
      Multiples(inc, left - 1, left);
      assert (left - 1) * inc >= 0;
      ghost var before := frame[..];
      frame[pixptr] := e[at];
      assert frame[..] == before[pixptr := e[at]];
      assert e[at..dp + count][1..] == e[at + 1..dp + count];
      at, pixptr, left := at + 1, pixptr + inc, left - 1;
    }
    assert e[at..dp + count] == [];
  }

  /** Writes one byte `count` times. */
  method CopyRun(b: Byte, count: nat, frame: array<Byte>, pix: nat, inc: nat)
    requires inc > 0 && pix + count * inc < frame.Length + inc
    modifies frame
    ensures frame[..] == Scatter(old(frame[..]), pix, inc, Repeat(count, b))
  {
    var left: nat, pixptr: nat := count, pix;
    while left > 0
      invariant left <= count && pixptr + left * inc < frame.Length + inc
      invariant Scatter(frame[..], pixptr, inc, Repeat(left, b)) == Scatter(old(frame[..]), pix, inc, Repeat(count, b))
    {
      Multiples(inc, left - 1, left);
      assert (left - 1) * inc >= 0;
      ghost var before := frame[..];
      frame[pixptr] := b;
      assert frame[..] == before[pixptr := b];
      assert Repeat(left, b)[1..] == Repeat(left - 1, b);
      pixptr, left := pixptr + inc, left - 1;
    }
  }

  lemma LiteralAt(e: seq<Byte>, dp: nat)
    requires dp < |e| && e[dp] <= 127 && dp + Size(e[dp]) <= |e|
    ensures Content(FirstOf(e[dp..])) == e[dp + 1..dp + Size(e[dp])]
  {
    SliceOfSlice(e, dp, |e|, 1, e[dp] + 2);
    assert e[dp..|e|] == e[dp..];
  }

  lemma RunAt(e: seq<Byte>, dp: nat)
    requires dp + 1 < |e| && e[dp] > 127
    ensures Content(FirstOf(e[dp..])) == Repeat(257 - e[dp], e[dp + 1])
  {
  }

  /** One turn of the loop, seen from the function: bytes as they are. */
  lemma LiteralTurn(e: seq<Byte>, inc: nat, end: nat, dlen: nat, c: Cursor, n: nat)
    requires 0 < dlen < UINT32 && |e| - c.dp > 1 && e[c.dp] <= 127 && n == e[c.dp] + 1
    ensures end - c.pix < n * inc ==> DecodeRow(e, inc, end, dlen, c) == Full(c.(dp := c.dp + 1))
    ensures end - c.pix >= n * inc && |e| - (c.dp + 1) < n ==> DecodeRow(e, inc, end, dlen, c) == Invalid
    ensures end - c.pix >= n * inc && |e| - (c.dp + 1) >= n ==>
              DecodeRow(e, inc, end, dlen, c) ==
              DecodeRow(e, inc, end, Minus32(dlen, n + 1), Wrote(c, inc, n + 1, e[c.dp + 1..c.dp + 1 + n]))
  {
    hide Scatter, Repeat, Minus32, FirstOf, Content, Wrote, CodeAll, Code, IsPacket, PacketsOf, Contents, ArePackets;
    if |e| - (c.dp + 1) >= n {
      LiteralAt(e, c.dp);
    }
  }

  /** One turn: a byte repeated. */
  lemma RunTurn(e: seq<Byte>, inc: nat, end: nat, dlen: nat, c: Cursor, n: nat)
    requires 0 < dlen < UINT32 && |e| - c.dp > 1 && e[c.dp] > 127 && n == 257 - e[c.dp]
    ensures end - c.pix < n * inc ==> DecodeRow(e, inc, end, dlen, c) == Full(c.(dp := c.dp + 1))
    ensures end - c.pix >= n * inc ==>
              DecodeRow(e, inc, end, dlen, c) ==
              DecodeRow(e, inc, end, Minus32(dlen, 2), Wrote(c, inc, 2, Repeat(n, e[c.dp + 1])))
  {
    hide Scatter, Repeat, Minus32, FirstOf, Content, Wrote, CodeAll, Code, IsPacket, PacketsOf, Contents, ArePackets;
    RunAt(e, c.dp);
  }

  /** What becomes of a row at a packet. */
  datatype Turn = Next | NoRoom | Broken

  /** The row as it was before a packet, told from how it is after it. */
  predicate Turned(turn: Turn, before: Outcome, e: seq<Byte>, inc: nat, end: nat, dlen: nat, c: Cursor)
    requires dlen < UINT32
  {
    match turn
    case Broken => before == Invalid
    case NoRoom => before == Full(c)
    case Next => before == DecodeRow(e, inc, end, dlen, c)
  }

  /** The branch for bytes as they are; `dp` is past the count. */
  method DecodeLiteral(e: seq<Byte>, inc: nat, end: nat, dlen0: nat, dp0: nat, pix0: nat, frame: array<Byte>)
    returns (turn: Turn, dlen: nat, dp: nat, pix: nat)
    requires inc > 0 && 0 < dlen0 < UINT32 && end < frame.Length + inc && pix0 <= end
    requires 0 < dp0 < |e| && e[dp0 - 1] <= 127
    modifies frame
    ensures dlen < UINT32 && dp0 <= dp && pix <= end && (turn == Next ==> dp <= |e|)
    ensures Turned(turn, DecodeRow(e, inc, end, dlen0, Cursor(dp0 - 1, pix0, old(frame[..]))), e, inc, end, dlen,
                   Cursor(dp, pix, frame[..]))
  {
    hide DecodeRow, Scatter, Repeat, Minus32;
    var count: nat := e[dp0 - 1];
    count := count + 1;
    ghost var c := Cursor(dp0 - 1, pix0, frame[..]);
    LiteralTurn(e, inc, end, dlen0, c, count);
    dlen, dp, pix := Minus32(dlen0, count + 1), dp0, pix0;
    if end - pix < count * inc {
      return NoRoom, dlen, dp, pix;
    }
    if |e| - dp < count {
      return Broken, dlen, dp, pix;
    }
    CopyLiteral(e, dp, count, frame, pix, inc);
    dp, pix := dp + count, pix + count * inc;
    turn := Next;
  }

  /** The branch for a repeated byte; `dp` is past the count. */
  method DecodeRepeat(e: seq<Byte>, inc: nat, end: nat, dlen0: nat, dp0: nat, pix0: nat, frame: array<Byte>)
    returns (turn: Turn, dlen: nat, dp: nat, pix: nat)
    requires inc > 0 && 0 < dlen0 < UINT32 && end < frame.Length + inc && pix0 <= end
    requires 0 < dp0 < |e| && e[dp0 - 1] > 127
    modifies frame
    ensures dlen < UINT32 && dp0 <= dp <= |e| && pix <= end
    ensures Turned(turn, DecodeRow(e, inc, end, dlen0, Cursor(dp0 - 1, pix0, old(frame[..]))), e, inc, end, dlen,
                   Cursor(dp, pix, frame[..]))
  {
    hide DecodeRow, Scatter, Repeat, Minus32;
    var count: nat := e[dp0 - 1];
    count := 257 - count;
    RunTurn(e, inc, end, dlen0, Cursor(dp0 - 1, pix0, frame[..]), count);
    dlen, dp, pix := dlen0, dp0, pix0;
    if end - pix < count * inc {
      return NoRoom, dlen, dp, pix;
    }
    CopyRun(e[dp], count, frame, pix, inc);
    pix := pix + count * inc;
    dp := dp + 1;
    dlen := Minus32(dlen, 2);
    turn := Next;
  }

  lemma RowEnds(e: seq<Byte>, inc: nat, end: nat, dlen: nat, c: Cursor)
    requires dlen < UINT32
    ensures dlen == 0 ==> DecodeRow(e, inc, end, dlen, c) == Filled(c)
    ensures dlen > 0 && |e| - c.dp <= 1 ==> DecodeRow(e, inc, end, dlen, c) == Invalid
  {
  }

  /** The loop over a row's packets. */
  method DecodeRowInPlace(e: seq<Byte>, inc: nat, end: nat, length: nat, dp0: nat, pix0: nat, frame: array<Byte>)
    returns (ok: bool, dp: nat)
    requires inc > 0 && length < 0x10000 && end < frame.Length + inc && pix0 <= end
    modifies frame
    ensures var r := DecodeRow(e, inc, end, length, Cursor(dp0, pix0, old(frame[..])));
            ok == !r.Invalid? && (ok ==> dp == r.cursor.dp && frame[..] == r.cursor.frame)
  {
    hide DecodeRow;
    var dlen: nat, pix: nat, turn := length, pix0, Next;
    dp := dp0;
    while dlen > 0
      invariant dlen < UINT32 && pix <= end
      invariant DecodeRow(e, inc, end, dlen, Cursor(dp, pix, frame[..])) ==
                DecodeRow(e, inc, end, length, Cursor(dp0, pix0, old(frame[..])))
      decreases |e| - dp
    {
      if |e| - dp <= 1 {
        RowEnds(e, inc, end, dlen, Cursor(dp, pix, frame[..]));
        return false, dp;
      }
      dp := dp + 1;
      if e[dp - 1] <= 127 {
        turn, dlen, dp, pix := DecodeLiteral(e, inc, end, dlen, dp, pix, frame);
      } else {
        turn, dlen, dp, pix := DecodeRepeat(e, inc, end, dlen, dp, pix, frame);
      }
      if turn != Next {
        return turn == NoRoom, dp;
      }
    }
    RowEnds(e, inc, end, 0, Cursor(dp, pix, frame[..]));
    ok := true;
  }

  /** The loops over planes and rows. */
  method DecodeFrame(g: Layout, e: seq<Byte>, frame: array<Byte>) returns (ok: bool)
    requires GoodLayout(g) && g.height * g.linesize <= frame.Length
    modifies frame
    ensures var d := DecodeFrom(g, e, 0, 0, HeaderSize(g), old(frame[..]));
            ok == d.Some? && (ok ==> frame[..] == d.value.1)
  {
    hide DecodeRow, LengthAt, Be16, GoodLayout;
    var dp: nat := 2 * (|g.planemap| * g.height);
    for p := 0 to |g.planemap|
      invariant DecodeFrom(g, e, p, 0, dp, frame[..]) == DecodeFrom(g, e, 0, 0, HeaderSize(g), old(frame[..]))
    {
      var lp := p * (2 * g.height);
      for row := 0 to g.height
        invariant DecodeFrom(g, e, p, row, dp, frame[..]) == DecodeFrom(g, e, 0, 0, HeaderSize(g), old(frame[..]))
      {
        LengthsAgree(g, p, row);
        if |e| - lp < row * 2 + 2 {
          return false;
        }
        var pix := row * g.linesize + g.planemap[p];
        InPixel(g, p);
        RowsApart(row, g.height, g.linesize);
        var fine: bool;
        fine, dp := DecodeRowInPlace(e, g.inc, pix + g.linesize, Be16(e, lp + row * 2), dp, pix, frame);
        if !fine {
          return false;
        }
      }
    }
    ok := true;
  }

  lemma InPixel(g: Layout, p: nat)
    requires GoodLayout(g) && p < |g.planemap|
    ensures g.planemap[p] < g.inc
  {
  }

  lemma LengthsAgree(g: Layout, p: nat, row: nat)
    ensures p * (2 * g.height) + row * 2 == LengthAt(g, p, row)
  {
  }
}
