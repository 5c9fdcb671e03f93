/** One row of one plane of QuickTime 8BPS: PackBits packets scattered over every px_inc-th byte of a picture row. */
module EightBpsRow {
  import opened Bytes
  import opened PrefixCodes

  /** Unsigned subtraction on 32 bits. */
  function Minus32(d: nat, k: nat): (r: nat)
    requires d < UINT32 && k < UINT32
    ensures r < UINT32 && (d >= k ==> r == d - k)
  {
    if d >= k then d - k else UINT32 + d - k
  }

  /** A packet: up to 128 bytes as they are, or one byte two to 129 times. */
  datatype Packet = Lit(bytes: seq<Byte>) | Run(count: nat, byte: Byte)

  predicate IsPacket(p: Packet) {
    match p
    case Lit(b) => 1 <= |b| <= 128
    case Run(n, _) => 2 <= n <= 129
  }

  predicate ArePackets(ps: seq<Packet>) {
    forall i :: 0 <= i < |ps| ==> IsPacket(ps[i])
  }

  function Content(p: Packet): seq<Byte> {
    match p
    case Lit(b) => b
    case Run(n, b) => Repeat(n, b)
  }

  function Code(p: Packet): (r: seq<Byte>)
    requires IsPacket(p)
    ensures |r| >= 2
  {
    match p
    case Lit(b) => [|b| - 1] + b
    case Run(n, b) => [257 - n, b]
  }

  function Contents(ps: seq<Packet>): seq<Byte> {
    if ps == [] then [] else Content(ps[0]) + Contents(ps[1..])
  }

  function CodeAll(ps: seq<Packet>): seq<Byte>
    requires ArePackets(ps)
  {
    if ps == [] then [] else Code(ps[0]) + CodeAll(ps[1..])
  }

  /** The bytes a packet takes, and those it holds, told by its first byte. */
  function Size(b: Byte): nat {
    if b > 127 then 2 else b + 2
  }

  function Count(b: Byte): nat {
    if b > 127 then 257 - b else b + 1
  }

  /** The first byte as a signed number n: n + 1 bytes follow as they are, or one byte 1 - n times. */
  lemma SignedCount(b: Byte)
    ensures var n := if b < 0x80 then b else b - 0x100;
            if n >= 0 then Count(b) == n + 1 && Size(b) == 1 + Count(b) else Count(b) == 1 - n && Size(b) == 2
  {
  }

  /** The packet at the start of some bytes. */
  function FirstOf(s: seq<Byte>): (p: Packet)
    requires s != [] && Size(s[0]) <= |s|
    ensures IsPacket(p) && |Content(p)| == Count(s[0]) && Code(p) == s[..Size(s[0])]
  {
    if s[0] > 127 then Run(257 - s[0], s[1]) else Lit(s[1..s[0] + 2])
  }

  lemma FirstOfCode(p: Packet, rest: seq<Byte>)
    requires IsPacket(p)
    ensures var s := Code(p) + rest; |Code(p)| == Size(s[0]) && FirstOf(s) == p
  {
    var s := Code(p) + rest;
    if p.Lit? {
      assert s[1..s[0] + 2] == p.bytes;
    }
  }

  /** The packets that some bytes consist of, if they are whole packets. */
  function PacketsOf(s: seq<Byte>): Option<seq<Packet>>
    decreases |s|
  {
    if s == [] then Some([])
    else if |s| == 1 || |s| < Size(s[0]) then None
    else Prepend(FirstOf(s), PacketsOf(s[Size(s[0])..]))
  }

  function Prepend(p: Packet, ps: Option<seq<Packet>>): Option<seq<Packet>> {
    if ps.Some? then Some([p] + ps.value) else None
  }

  lemma PacketsBehind(p: Packet, s: seq<Byte>)
    requires IsPacket(p) && PacketsOf(s).Some?
    ensures PacketsOf(Code(p) + s) == Some([p] + PacketsOf(s).value)
  {
    FirstOfCode(p, s);
    hide FirstOf, Code, Size;
    assert (Code(p) + s)[|Code(p)|..] == s;
  }

  /** Encoded packets are cut apart again. */
  lemma {:induction false} PacketsOfCode(ps: seq<Packet>)
    requires ArePackets(ps)
    ensures PacketsOf(CodeAll(ps)) == Some(ps)
  {
    hide Code;
    if ps != [] {
      PacketsOfCode(ps[1..]);
      PacketsBehind(ps[0], CodeAll(ps[1..]));
      hide PacketsOf;
      assert ps == [ps[0]] + ps[1..];
    }
  }

  /** Only encoded packets can be cut apart. */
  lemma {:induction false} CodeOfPackets(s: seq<Byte>)
    requires PacketsOf(s).Some?
    ensures ArePackets(PacketsOf(s).value) && CodeAll(PacketsOf(s).value) == s
    decreases |s|
  {
    hide FirstOf, Code;
    if s != [] {
      CodeOfPackets(s[Size(s[0])..]);
      var ps := PacketsOf(s).value;
      assert ps[1..] == PacketsOf(s[Size(s[0])..]).value;
      assert s == s[..Size(s[0])] + s[Size(s[0])..];
    }
  }

  // ---------- scattering bytes over a picture

  /** The picture with bytes written from `pix` on, `inc` apart. */
  function Scatter(f: seq<Byte>, pix: nat, inc: nat, s: seq<Byte>): (r: seq<Byte>)
    ensures |r| == |f|
    decreases |s|
  {
    if s == [] || pix >= |f| then f else Scatter(f[pix := s[0]], pix + inc, inc, s[1..])
  }

  lemma {:induction false} ScatterJoined(f: seq<Byte>, pix: nat, inc: nat, a: seq<Byte>, b: seq<Byte>)
    ensures Scatter(Scatter(f, pix, inc, a), pix + |a| * inc, inc, b) == Scatter(f, pix, inc, a + b)
    decreases |a|
  {
    if a == [] {
      assert a + b == b;
    } else if pix < |f| {
      assert (a + b)[1..] == a[1..] + b;
      ScatterJoined(f[pix := a[0]], pix + inc, inc, a[1..], b);
      assert pix + inc + |a[1..]| * inc == pix + |a| * inc;
    } else {
      assert |a| * inc >= 0;
    }
  }

  /** A place that no byte is written to keeps its value. */
  lemma {:induction false} ScatterMisses(f: seq<Byte>, pix: nat, inc: nat, s: seq<Byte>, j: nat)
    requires j < |f| && forall k :: 0 <= k < |s| ==> j != pix + k * inc
    ensures Scatter(f, pix, inc, s)[j] == f[j]
    decreases |s|
  {
    if s != [] && pix < |f| {
      assert j != pix + 0 * inc;
      forall k | 0 <= k < |s[1..]| ensures j != (pix + inc) + k * inc {
        assert j != pix + (k + 1) * inc;
        assert (k + 1) * inc == inc + k * inc;
      }
      ScatterMisses(f[pix := s[0]], pix + inc, inc, s[1..], j);
    }
  }

  /** The bytes are where they belong. */
  lemma {:induction false} ScatterHits(f: seq<Byte>, pix: nat, inc: nat, s: seq<Byte>, k: nat)
    requires inc > 0 && k < |s| && pix + k * inc < |f|
    ensures Scatter(f, pix, inc, s)[pix + k * inc] == s[k]
    decreases |s|
  {
    assert k * inc >= 0;
    if k > 0 {
      assert pix + k * inc == (pix + inc) + (k - 1) * inc;
      ScatterHits(f[pix := s[0]], pix + inc, inc, s[1..], k - 1);
    } else {
      forall i | 0 <= i < |s[1..]| ensures pix != (pix + inc) + i * inc {
        assert i * inc >= 0;
      }
      assert k * inc == 0;
      ScatterMisses(f[pix := s[0]], pix + inc, inc, s[1..], pix);
    }
  }

  // ---------- decoding a row

  datatype Cursor = Cursor(dp: nat, pix: nat, frame: seq<Byte>)

  /** A row ends because its declared bytes are used up, or because a packet has no room left in it. */
  datatype Outcome = Filled(cursor: Cursor) | Full(cursor: Cursor) | Invalid

  function DecodeRow(e: seq<Byte>, inc: nat, end: nat, dlen: nat, c: Cursor): (r: Outcome)
    requires dlen < UINT32
    ensures !r.Invalid? ==> c.dp <= r.cursor.dp && |r.cursor.frame| == |c.frame|
    ensures !r.Invalid? && c.dp <= |e| ==> r.cursor.dp <= |e|
    decreases |e| - c.dp
  {
    if dlen == 0 then Filled(c)
    else if |e| - c.dp <= 1 then Invalid
    else if end - c.pix < Count(e[c.dp]) * inc then Full(c.(dp := c.dp + 1))
    else if |e| - c.dp < Size(e[c.dp]) then Invalid
    else DecodeRow(e, inc, end, Minus32(dlen, Size(e[c.dp])), Wrote(c, inc, Size(e[c.dp]), Content(FirstOf(e[c.dp..]))))
  }

  /** The cursor after a packet of `k` bytes. */
  function Wrote(c: Cursor, inc: nat, k: nat, s: seq<Byte>): Cursor {
    Cursor(c.dp + k, c.pix + |s| * inc, Scatter(c.frame, c.pix, inc, s))
  }

  /** The same packet starts a longer and a shorter stretch of bytes that holds all of it. */
  lemma SamePacket(e: seq<Byte>, dp: nat, dlen: nat)
    requires dp + dlen <= |e| && dlen >= 2 && Size(e[dp]) <= dlen
    ensures FirstOf(e[dp..]) == FirstOf(e[dp..dp + dlen]) && e[dp..dp + dlen][Size(e[dp])..] == e[dp + Size(e[dp])..dp + dlen]
  {
    hide Content, Code, IsPacket;
    SliceOfSlice(e, dp, dp + dlen, Size(e[dp]), dlen);
    if e[dp] <= 127 {
      SliceOfSlice(e, dp, |e|, 1, e[dp] + 2);
      SliceOfSlice(e, dp, dp + dlen, 1, e[dp] + 2);
    }
    assert e[dp..] == e[dp..|e|] && e[dp..][0] == e[dp..dp + dlen][0] && e[dp..][1] == e[dp..dp + dlen][1];
  }

  lemma SliceOfSlice<T>(e: seq<T>, a: nat, b: nat, i: nat, j: nat)
    requires a <= b <= |e| && i <= j <= b - a
    ensures e[a..b][i..j] == e[a + i..a + j] && e[a..b][i..] == e[a + i..b]
  {
    var t, u := e[a..b], e[a + i..a + j];
    assert |t[i..j]| == |u|;
    assert forall k :: 0 <= k < j - i ==> t[i..j][k] == t[i + k] == e[a + (i + k)] == u[k];
  }

  /** Bytes of a packet list, one packet at a time. */
  lemma ContentsStep(s: seq<Byte>, inc: nat)
    requires s != [] && PacketsOf(s).Some?
    ensures 2 <= Size(s[0]) <= |s| && PacketsOf(s[Size(s[0])..]).Some?
    ensures var a, b := Content(FirstOf(s)), Contents(PacketsOf(s[Size(s[0])..]).value);
            Contents(PacketsOf(s).value) == a + b && |a + b| * inc == |a| * inc + |b| * inc &&
            |a| == Count(s[0]) && |b| * inc >= 0
  {
    hide FirstOf, Content, Code;
    var ps := PacketsOf(s).value;
    assert ps[0] == FirstOf(s) && ps[1..] == PacketsOf(s[Size(s[0])..]).value;
    assert Contents(ps) == Content(ps[0]) + Contents(ps[1..]);
    Distribute(|Content(ps[0])|, |Contents(ps[1..])|, inc);
  }

  lemma Distribute(x: nat, y: nat, inc: nat)
    ensures (x + y) * inc == x * inc + y * inc && y * inc >= 0
  {
  }

  lemma WroteJoined(c: Cursor, inc: nat, k: nat, a: seq<Byte>, m: nat, b: seq<Byte>)
    ensures Wrote(Wrote(c, inc, k, a), inc, m, b) == Wrote(c, inc, k + m, a + b)
  {
    hide Scatter;
    ScatterJoined(c.frame, c.pix, inc, a, b);
    Distribute(|a|, |b|, inc);
  }

  /** One packet of a row. */
  lemma RowStep(e: seq<Byte>, inc: nat, end: nat, dlen: nat, c: Cursor)
    requires 2 <= dlen < UINT32 && c.dp + 1 < |e| && c.dp + Size(e[c.dp]) <= |e| && Size(e[c.dp]) <= dlen
    requires c.pix + Count(e[c.dp]) * inc <= end
    ensures DecodeRow(e, inc, end, dlen, c) ==
            DecodeRow(e, inc, end, dlen - Size(e[c.dp]), Wrote(c, inc, Size(e[c.dp]), Content(FirstOf(e[c.dp..]))))
  {
    hide Scatter, FirstOf, Content, Size, Count;
  }

  /** The packet that starts at `dp`, and what follows it. */
  lemma HeadPacket(e: seq<Byte>, dp: nat, p: Packet, tail: seq<Byte>)
    requires IsPacket(p) && dp + |Code(p)| + |tail| <= |e| && e[dp..dp + |Code(p)| + |tail|] == Code(p) + tail
    ensures Size(e[dp]) == |Code(p)| && FirstOf(e[dp..]) == p && Count(e[dp]) == |Content(p)|
    ensures e[dp + |Code(p)|..dp + |Code(p)| + |tail|] == tail
  {
    hide FirstOf, Code, Size, Count, Content;
    var k, n := |Code(p)|, |Code(p)| + |tail|;
    SliceOfSlice(e, dp, dp + n, k, n);
    SliceOfSlice(e, dp, dp + n, 0, k);
    assert (Code(p) + tail)[k..] == tail && (Code(p) + tail)[..k] == Code(p);
    assert e[dp..] == Code(p) + e[dp + k..] by {
      assert e[dp..] == e[dp..dp + k] + e[dp + k..];
    }
    FirstOfCode(p, e[dp + k..]);
    assert e[dp..][0] == e[dp];
  }

  function PlaceOf(pix: nat, inc: nat, k: nat): nat {
    pix + k * inc
  }

  /** A place of the row's own plane, with its whole pixel in the row. */
  ghost predicate Own(pix: nat, inc: nat, end: nat, j: nat) {
    exists k: nat :: j == PlaceOf(pix, inc, k) && j + inc <= end
  }

  /** Whatever its bytes are, a row changes nothing but its own places. */
  lemma {:induction false} RowKeepsOthers(e: seq<Byte>, inc: nat, end: nat, dlen: nat, c: Cursor, j: nat)
    requires dlen < UINT32 && c.pix <= end && j < |c.frame| && !Own(c.pix, inc, end, j)
    requires !DecodeRow(e, inc, end, dlen, c).Invalid?
    ensures DecodeRow(e, inc, end, dlen, c).cursor.frame[j] == c.frame[j]
    decreases |e| - c.dp
  {
    hide Scatter, FirstOf, Content, Count, Minus32, Own;
    if dlen != 0 && end - c.pix >= Count(e[c.dp]) * inc {
      var s := Content(FirstOf(e[c.dp..]));
      PacketKeepsOthers(c, inc, end, s, j);
      RowKeepsOthers(e, inc, end, Minus32(dlen, Size(e[c.dp])), Wrote(c, inc, Size(e[c.dp]), s), j);
    }
  }

  lemma PacketKeepsOthers(c: Cursor, inc: nat, end: nat, s: seq<Byte>, j: nat)
    requires j < |c.frame| && !Own(c.pix, inc, end, j) && c.pix + |s| * inc <= end
    ensures Scatter(c.frame, c.pix, inc, s)[j] == c.frame[j]
    ensures !Own(c.pix + |s| * inc, inc, end, j)
  {
    hide Own, Scatter;
    forall k | 0 <= k < |s| ensures j != c.pix + k * inc {
      if j == c.pix + k * inc {
        IsOwn(c.pix, inc, end, |s|, k);
      }
    }
    ScatterMisses(c.frame, c.pix, inc, s, j);
    if Own(c.pix + |s| * inc, inc, end, j) {
      OwnFromBefore(c.pix, inc, end, |s|, j);
    }
  }

  lemma IsOwn(pix: nat, inc: nat, end: nat, n: nat, k: nat)
    requires k < n && pix + n * inc <= end
    ensures Own(pix, inc, end, pix + k * inc)
  {
    assert (k + 1) * inc == k * inc + inc && (k + 1) * inc <= n * inc;
    assert pix + k * inc == PlaceOf(pix, inc, k);
  }

  lemma OwnFromBefore(pix: nat, inc: nat, end: nat, n: nat, j: nat)
    requires Own(pix + n * inc, inc, end, j)
    ensures Own(pix, inc, end, j)
  {
    var k: nat :| j == PlaceOf(pix + n * inc, inc, k) && j + inc <= end;
    Distribute(n, k, inc);
    assert j == PlaceOf(pix, inc, n + k);
  }

  /** Bytes from a cursor on are these packets, and all they hold has room in the row. */
  predicate Leads(e: seq<Byte>, inc: nat, end: nat, c: Cursor, ps: seq<Packet>) {
    ArePackets(ps) && c.dp + |CodeAll(ps)| <= |e| && e[c.dp..c.dp + |CodeAll(ps)|] == CodeAll(ps) &&
    c.pix + |Contents(ps)| * inc <= end
  }

  /** Whole packets with room for all they hold are drawn, and the row goes on behind them. */
  lemma {:induction false} PacketsLead(e: seq<Byte>, inc: nat, end: nat, dlen: nat, c: Cursor, ps: seq<Packet>)
    requires Leads(e, inc, end, c, ps) && |CodeAll(ps)| <= dlen < UINT32
    ensures DecodeRow(e, inc, end, dlen, c) ==
            DecodeRow(e, inc, end, dlen - |CodeAll(ps)|, Wrote(c, inc, |CodeAll(ps)|, Contents(ps)))
    decreases |ps|
  {
    hide Scatter, FirstOf, Code, Size, Count, Content, DecodeRow;
    if ps == [] {
      NothingWritten(c, inc);
    } else {
      var p, rest := ps[0], ps[1..];
      var k := |Code(p)|;
      HeadPacket(e, c.dp, p, CodeAll(rest));
      Distribute(|Content(p)|, |Contents(rest)|, inc);
      RowStep(e, inc, end, dlen, c);
      PacketsLead(e, inc, end, dlen - k, Wrote(c, inc, k, Content(p)), rest);
      WroteJoined(c, inc, k, Content(p), |CodeAll(rest)|, Contents(rest));
    }
  }

  lemma NothingWritten(c: Cursor, inc: nat)
    ensures Wrote(c, inc, 0, []) == c
  {
    assert 0 * inc == 0;
  }

  /** Whole packets with room for all they hold are decoded exactly to their end. */
  lemma PacketsFill(e: seq<Byte>, inc: nat, end: nat, c: Cursor, ps: seq<Packet>)
    requires ArePackets(ps) && |CodeAll(ps)| < UINT32 && c.dp + |CodeAll(ps)| <= |e|
    requires e[c.dp..c.dp + |CodeAll(ps)|] == CodeAll(ps) && c.pix + |Contents(ps)| * inc <= end
    ensures DecodeRow(e, inc, end, |CodeAll(ps)|, c) == Filled(Wrote(c, inc, |CodeAll(ps)|, Contents(ps)))
  {
    hide Scatter, DecodeRow, CodeAll, Contents, Wrote;
    PacketsLead(e, inc, end, |CodeAll(ps)|, c, ps);
    EndOfRow(e, inc, end, Wrote(c, inc, |CodeAll(ps)|, Contents(ps)));
  }

  lemma EndOfRow(e: seq<Byte>, inc: nat, end: nat, c: Cursor)
    ensures DecodeRow(e, inc, end, 0, c) == Filled(c)
  {
  }

  /** The bytes a count stands for have no room left in the row. */
  predicate NoRoom(b: Byte, inc: nat, pix: nat, end: nat) {
    pix + (if b <= 127 then b + 1 else 257 - b) * inc > end
  }

  lemma StopsAt(e: seq<Byte>, inc: nat, end: nat, dlen: nat, c: Cursor)
    requires 0 < dlen < UINT32 && c.dp + 1 < |e| && NoRoom(e[c.dp], inc, c.pix, end)
    ensures DecodeRow(e, inc, end, dlen, c) == Full(c.(dp := c.dp + 1))
  {
    hide Scatter, FirstOf, Content, Size, Minus32;
  }

  lemma BreaksAt(e: seq<Byte>, inc: nat, end: nat, dlen: nat, c: Cursor)
    requires 0 < dlen < UINT32
    requires c.dp + 1 >= |e| || (e[c.dp] <= 127 && c.dp + e[c.dp] + 2 > |e| && !NoRoom(e[c.dp], inc, c.pix, end))
    ensures DecodeRow(e, inc, end, dlen, c) == Invalid
  {
    hide Scatter, FirstOf, Content, Minus32;
  }

  /**
   A packet that follows and has no room left ends the row: all before it is drawn, of itself only its count is read, and
   the next row starts right behind that.
   */
  lemma OverlongRow(e: seq<Byte>, inc: nat, end: nat, dlen: nat, c: Cursor, ps: seq<Packet>)
    requires Leads(e, inc, end, c, ps) && |CodeAll(ps)| < dlen < UINT32
    requires var d := Wrote(c, inc, |CodeAll(ps)|, Contents(ps)); d.dp + 1 < |e| && NoRoom(e[d.dp], inc, d.pix, end)
    ensures var d := Wrote(c, inc, |CodeAll(ps)|, Contents(ps));
            DecodeRow(e, inc, end, dlen, c) == Full(d.(dp := d.dp + 1))
  {
    hide Scatter, DecodeRow, CodeAll, Contents, Wrote, NoRoom;
    PacketsLead(e, inc, end, dlen, c, ps);
    StopsAt(e, inc, end, dlen - |CodeAll(ps)|, Wrote(c, inc, |CodeAll(ps)|, Contents(ps)));
  }

  /** Packets that end with the data before the row does, in a count alone or within a stretch of bytes, make it invalid. */
  lemma TruncatedRow(e: seq<Byte>, inc: nat, end: nat, dlen: nat, c: Cursor, ps: seq<Packet>)
    requires Leads(e, inc, end, c, ps) && |CodeAll(ps)| < dlen < UINT32
    requires var d := Wrote(c, inc, |CodeAll(ps)|, Contents(ps));
             d.dp + 1 >= |e| || (e[d.dp] <= 127 && d.dp + e[d.dp] + 2 > |e| && !NoRoom(e[d.dp], inc, d.pix, end))
    ensures DecodeRow(e, inc, end, dlen, c) == Invalid
  {
    hide Scatter, DecodeRow, CodeAll, Contents, Wrote, NoRoom;
    PacketsLead(e, inc, end, dlen, c, ps);
    BreaksAt(e, inc, end, dlen - |CodeAll(ps)|, Wrote(c, inc, |CodeAll(ps)|, Contents(ps)));
  }

  lemma NoPackets()
    ensures PacketsOf([]) == Some([]) && Contents([]) == []
  {
  }

  lemma PacketsStep(s: seq<Byte>)
    requires |s| > 1 && Size(s[0]) <= |s| && PacketsOf(s[Size(s[0])..]).Some?
    ensures PacketsOf(s).Some?
  {
    hide FirstOf;
  }

  /** A row that is filled used exactly its declared bytes, and these were whole packets that fit. */
  lemma {:induction false} FilledByPackets(e: seq<Byte>, inc: nat, end: nat, dlen: nat, c: Cursor)
    requires dlen < UINT32 && |e| < 0x8000_0000 && c.dp <= |e| && c.pix <= end
    requires DecodeRow(e, inc, end, dlen, c).Filled?
    ensures c.dp + dlen <= |e| && PacketsOf(e[c.dp..c.dp + dlen]).Some?
    ensures var s := Contents(PacketsOf(e[c.dp..c.dp + dlen]).value); c.pix + |s| * inc <= end
    decreases |e| - c.dp
  {
    hide Scatter, FirstOf, Content, Code, Count, PacketsOf, Contents, Repeat, IsPacket, CodeAll;
    if dlen == 0 {
      NoPackets();
      assert e[c.dp..c.dp] == [];
    } else {
      var k, a := Size(e[c.dp]), Content(FirstOf(e[c.dp..]));
      FilledByPackets(e, inc, end, Minus32(dlen, k), Wrote(c, inc, k, a));
      SamePacket(e, c.dp, dlen);
      var s := e[c.dp..c.dp + dlen];
      PacketsStep(s);
      ContentsStep(s, inc);
    }
  }

  /** The declared bytes of a row are these packets, and all they hold has room in it. */
  predicate Holds(e: seq<Byte>, inc: nat, end: nat, dlen: nat, c: Cursor, ps: seq<Packet>) {
    ArePackets(ps) && c.dp + dlen <= |e| && e[c.dp..c.dp + dlen] == CodeAll(ps) && c.pix + |Contents(ps)| * inc <= end
  }

  lemma FilledHolds(e: seq<Byte>, inc: nat, end: nat, dlen: nat, c: Cursor) returns (ps: seq<Packet>)
    requires dlen < UINT32 && |e| < 0x8000_0000 && c.dp <= |e| && c.pix <= end
    requires DecodeRow(e, inc, end, dlen, c).Filled?
    ensures Holds(e, inc, end, dlen, c, ps)
  {
    hide DecodeRow, Contents, CodeAll, PacketsOf;
    FilledByPackets(e, inc, end, dlen, c);
    CodeOfPackets(e[c.dp..c.dp + dlen]);
    ps := PacketsOf(e[c.dp..c.dp + dlen]).value;
  }

  lemma HoldsFills(e: seq<Byte>, inc: nat, end: nat, dlen: nat, c: Cursor, ps: seq<Packet>)
    requires dlen < UINT32 && Holds(e, inc, end, dlen, c, ps)
    ensures DecodeRow(e, inc, end, dlen, c).Filled?
  {
    hide DecodeRow, Contents, CodeAll;
    assert |e[c.dp..c.dp + dlen]| == dlen;
    PacketsFill(e, inc, end, c, ps);
  }

  /** A row is filled exactly if its declared bytes are whole packets that fit into it. */
  lemma RowFillsIff(e: seq<Byte>, inc: nat, end: nat, dlen: nat, c: Cursor)
    requires dlen < UINT32 && |e| < 0x8000_0000 && c.dp <= |e| && c.pix <= end
    ensures DecodeRow(e, inc, end, dlen, c).Filled? <==> exists ps :: Holds(e, inc, end, dlen, c, ps)
  {
    hide DecodeRow, Holds;
    if DecodeRow(e, inc, end, dlen, c).Filled? {
      var ps := FilledHolds(e, inc, end, dlen, c);
    }
    forall ps | Holds(e, inc, end, dlen, c, ps) ensures DecodeRow(e, inc, end, dlen, c).Filled? {
      HoldsFills(e, inc, end, dlen, c, ps);
    }
  }

  /**
   A length that ends inside a packet wraps around: the row runs on into what follows and never ends by its length.
   */
  lemma SplitPacketNeverFills(e: seq<Byte>, inc: nat, end: nat, dlen: nat, c: Cursor)
    requires |e| < 0x8000_0000 && c.dp < |e| && c.pix <= end && 0 < dlen < Size(e[c.dp])
    ensures !DecodeRow(e, inc, end, dlen, c).Filled?
  {
    hide DecodeRow;
    if c.dp + dlen <= |e| {
      ShortPacket(e[c.dp..c.dp + dlen]);
    }
    if DecodeRow(e, inc, end, dlen, c).Filled? {
      FilledByPackets(e, inc, end, dlen, c);
    }
  }

  lemma ShortPacket(s: seq<Byte>)
    requires s != [] && |s| < Size(s[0])
    ensures PacketsOf(s) == None
  {
  }
}
