/** What a split tree draws: the meaning of every pixel, the tiling by leaves, and the source-rectangle bound. */
module FourXmPaint {
  import opened Sums
  import opened PrefixCodes
  import opened Bytes
  import opened FourXmSplitTree

  /** A picture buffer, row after row. */
  type Buffer = seq<Word16>

  /** The pixel at a linear offset; offsets outside the buffer are never used by legal trees (SourceInside). */
  function PixelAt(b: Buffer, k: int): Word16 {
    if 0 <= k < |b| then b[k] else 0
  }

  function At(v: Video, b: Buffer, y: int, x: int): Word16 {
    PixelAt(b, Offset(v, y, x))
  }

  // ---------- geometry

  lemma MulMonotone(a: nat, b: int, c: int)
    requires b <= c
    ensures a * b <= a * c
  {
  }

  lemma MulDistribute(a: nat, b: int, c: int)
    ensures a * b + a * c == a * (b + c)
  {
  }

  lemma OffsetInside(v: Video, y: nat, x: nat)
    requires y < v.height && x < v.width
    ensures 0 <= Offset(v, y, x) < v.width * v.height
  {
    MulMonotone(v.width, y + 1, v.height);
  }

  /** Different pixels have different offsets. */
  lemma OffsetsDiffer(v: Video, y: nat, x: nat, y': nat, x': nat)
    requires x < v.width && x' < v.width && (y != y' || x != x')
    ensures Offset(v, y, x) != Offset(v, y', x')
  {
    if y < y' {
      MulMonotone(v.width, y + 1, y');
    } else if y' < y {
      MulMonotone(v.width, y' + 1, y);
    }
  }

  lemma OffsetMoves(v: Video, y: int, x: int, dy: int, dx: int)
    ensures Offset(v, y + dy, x + dx) == Offset(v, y, x) + dy * v.width + dx
  {
  }

  /** Block of size 2^lw x 2^lh at row y, column x. */
  ghost predicate BlockInside(v: Video, y: nat, x: nat, lw: nat, lh: nat) {
    y + Pow2(lh) <= v.height && x + Pow2(lw) <= v.width
  }

  ghost predicate InBlock(y0: nat, x0: nat, lw: nat, lh: nat, y: nat, x: nat) {
    y0 <= y < y0 + Pow2(lh) && x0 <= x < x0 + Pow2(lw)
  }

  /** The linear test implies that the whole source rectangle lies in the previous frame. */
  lemma SourceInside(v: Video, at: int, lw: nat, lh: nat, i: nat, j: nat)
    requires SourceAllowed(v, at, lw, lh) && i < Pow2(lh) && j < Pow2(lw) && Pow2(lh) <= v.height
    ensures 0 <= at + i * v.width + j < v.width * v.height
  {
    hide Pow2;
    MulMonotone(v.width, i, Pow2(lh) - 1);
    MulDistribute(v.width, v.height - Pow2(lh) + 1, Pow2(lh) - 1);
  }

  predicate PixelInside(v: Video, at: int, i: nat, j: nat) {
    0 <= at + i * v.width + j < v.width * v.height
  }

  /** The test on two linear offsets accepts exactly the sources of which every pixel lies in the picture. */
  lemma SourceAllowedIff(v: Video, at: int, lw: nat, lh: nat)
    requires Pow2(lw) <= v.width && Pow2(lh) <= v.height
    ensures SourceAllowed(v, at, lw, lh) <==>
              forall i: nat, j: nat :: i < Pow2(lh) && j < Pow2(lw) ==> PixelInside(v, at, i, j)
  {
    if SourceAllowed(v, at, lw, lh) {
      forall i: nat, j: nat | i < Pow2(lh) && j < Pow2(lw) ensures PixelInside(v, at, i, j) {
        SourceInside(v, at, lw, lh, i, j);
      }
    } else {
      hide SourceAllowed, PixelInside, Pow2;
      CornerOutside(v, at, lw, lh);
    }
  }

  /** Of a source that fails the test the first pixel or the last lies outside. */
  lemma CornerOutside(v: Video, at: int, lw: nat, lh: nat)
    requires Pow2(lw) <= v.width && Pow2(lh) <= v.height && !SourceAllowed(v, at, lw, lh)
    ensures !PixelInside(v, at, 0, 0) || !PixelInside(v, at, Pow2(lh) - 1, Pow2(lw) - 1)
  {
    hide Pow2;
    MulDistribute(v.width, v.height - Pow2(lh) + 1, Pow2(lh) - 1);
  }

  /** Where the source of row `n` begins: `scale` 0 stays at the first row. */
  function RowStart(src: int, scale: nat, n: int, width: nat): int {
    if scale == 0 then src else src + n * width
  }

  lemma FirstRowStart(src: int, scale: nat, width: nat)
    ensures RowStart(src, scale, 0, width) == src
  {
  }

  lemma NextRowStart(src: int, scale: nat, n: int, width: nat)
    ensures RowStart(src, scale, n + 1, width) == RowStart(src, scale, n, width) + if scale == 0 then 0 else width
  {
  }

  lemma SourceRowInside(v: Video, at: int, lw: nat, lh: nat, scale: nat, i: nat)
    requires SourceAllowed(v, at, lw, lh) && i < Pow2(lh) <= v.height
    ensures 0 <= RowStart(at, scale, i, v.width) && RowStart(at, scale, i, v.width) + Pow2(lw) <= v.width * v.height
  {
    hide SourceAllowed;
    SourceInside(v, at, lw, lh, if scale == 0 then 0 else i, 0);
    SourceInside(v, at, lw, lh, if scale == 0 then 0 else i, Pow2(lw) - 1);
  }

  /** An undisplaced source passes the test: the assertion at code 5 always holds. */
  lemma OwnPlaceAllowed(v: Video, y: nat, x: nat, lw: nat, lh: nat)
    requires BlockInside(v, y, x, lw, lh)
    ensures SourceAllowed(v, Offset(v, y, x), lw, lh)
  {
    MulMonotone(v.width, y, v.height - Pow2(lh));
    MulDistribute(v.width, v.height - Pow2(lh), 1);
  }

  // ---------- pixel arithmetic

  /** Two neighbouring pixels scaled and raised as one 32-bit word, low pixel first. */
  function CentricMul(s0: Word16, s1: Word16, scale: nat, dc: Word16): (r: (Word16, Word16))
    requires scale <= 1
  {
    var t := ((s0 + 0x10000 * s1) * scale + dc * 0x10001) % 0x1_0000_0000;
    (t % 0x10000, t / 0x10000)
  }

  function Carry(s: Word16, dc: Word16): nat {
    if s + dc >= 0x10000 then 1 else 0
  }

  /** The carry out of the low pixel leaks into the high one; without source both pixels are the constant. */
  lemma CentricMulLeaks(s0: Word16, s1: Word16, dc: Word16)
    ensures CentricMul(s0, s1, 1, dc) == ((s0 + dc) % 0x10000, (s1 + dc + Carry(s0, dc)) % 0x10000)
    ensures CentricMul(s0, s1, 0, dc) == (dc, dc)
  {
    var c := Carry(s0, dc);
    SumOfHalves(s0 + dc - 0x10000 * c, s1 + dc + c);
    assert s0 + 0x10000 * s1 + dc * 0x10001 == (s0 + dc - 0x10000 * c) + 0x10000 * (s1 + dc + c);
    SumOfHalves(dc, dc);
  }

  lemma SumOfHalves(low: nat, high: nat)
    requires low < 0x10000 && high < 0x20000
    ensures (low + 0x10000 * high) % 0x1_0000_0000 == low + 0x10000 * (high % 0x10000)
    ensures (low + 0x10000 * (high % 0x10000)) % 0x10000 == low && (low + 0x10000 * (high % 0x10000)) / 0x10000 == high % 0x10000
  {
    if high >= 0x10000 {
      assert low + 0x10000 * high == (low + 0x10000 * (high - 0x10000)) + 0x1_0000_0000;
    }
  }

  /** Adding in pairs equals adding per pixel exactly when the low half does not carry. */
  lemma PairAddIsPixelAddIff(s0: Word16, s1: Word16, dc: Word16)
    ensures CentricMul(s0, s1, 1, dc) == ((s0 + dc) % 0x10000, (s1 + dc) % 0x10000) <==> s0 + dc < 0x10000
  {
    CentricMulLeaks(s0, s1, dc);
  }

  /** Pixel `j` of a row that mcdc writes from the source row at `src`: paired in 32-bit words unless one pixel wide. */
  function RowPixel(last: Buffer, src: int, j: nat, lw: nat, scale: nat, dc: Word16): Word16
    requires scale <= 1
  {
    if lw == 0 then (scale * PixelAt(last, src) + dc * 0x10001) % 0x10000
    else if j % 2 == 0 then CentricMul(PixelAt(last, src + j), PixelAt(last, src + j + 1), scale, dc).0
    else CentricMul(PixelAt(last, src + j - 1), PixelAt(last, src + j), scale, dc).1
  }

  // ---------- meaning

  /**
   A displaced and raised pixel; in blocks wider than one pixel, odd columns also receive their left neighbour's
   carry.
   */
  function Raised(v: Video, last: Buffer, disp: int, dc: Word16, lw: nat, x0: nat, y: nat, x: nat): Word16 {
    var k := Offset(v, y, x) + disp;
    if lw > 0 && (x - x0) % 2 == 1 then (PixelAt(last, k) + dc + Carry(PixelAt(last, k - 1), dc)) % 0x10000
    else (PixelAt(last, k) + dc) % 0x10000
  }

  /** Pixels that mcdc copies are the displaced and raised ones. */
  lemma RowPixelIsRaised(v: Video, last: Buffer, y0: nat, x0: nat, disp: int, dc: Word16, lw: nat, i: nat, j: nat)
    requires lw == 0 ==> j == 0
    ensures RowPixel(last, Offset(v, y0, x0) + disp + i * v.width, j, lw, 1, dc) == Raised(v, last, disp, dc, lw, x0, y0 + i, x0 + j)
  {
    hide CentricMul, PixelAt, Carry;
    OffsetMoves(v, y0, x0, i, j);
    var k := Offset(v, y0 + i, x0 + j) + disp;
    assert Offset(v, y0, x0) + disp + i * v.width + j == k;
    hide Offset;
    if lw == 0 {
      assert PixelAt(last, k) + dc * 0x10001 == PixelAt(last, k) + dc + 0x10000 * dc;
    } else if j % 2 == 0 {
      CentricMulLeaks(PixelAt(last, k), PixelAt(last, k + 1), dc);
    } else {
      CentricMulLeaks(PixelAt(last, k - 1), PixelAt(last, k), dc);
    }
  }

  lemma RowPixelIsConstant(last: Buffer, src: int, j: nat, lw: nat, dc: Word16)
    ensures RowPixel(last, src, j, lw, 0, dc) == dc
  {
    hide CentricMul, PixelAt, Carry;
    if lw == 0 {
      assert dc * 0x10001 == dc + 0x10000 * dc;
    } else if j % 2 == 0 {
      CentricMulLeaks(PixelAt(last, src + j), PixelAt(last, src + j + 1), dc);
    } else {
      CentricMulLeaks(PixelAt(last, src + j - 1), PixelAt(last, src + j), dc);
    }
  }

  /** The pixel at (y, x) of the picture that a tree over the block at (y0, x0) draws, given what was there. */
  function Meaning(v: Video, last: Buffer, t: Tree, y0: nat, x0: nat, lw: nat, lh: nat, y: nat, x: nat,
                   old_: Word16): Word16
    requires |v.mv| == 256
    decreases t
  {
    match t
    case SplitRows(a, b) =>
      if lh == 0 then old_
      else if y < y0 + Pow2(lh - 1) then Meaning(v, last, a, y0, x0, lw, lh - 1, y, x, old_)
      else Meaning(v, last, b, y0 + Pow2(lh - 1), x0, lw, lh - 1, y, x, old_)
    case SplitCols(a, b) =>
      if lw == 0 then old_
      else if x < x0 + Pow2(lw - 1) then Meaning(v, last, a, y0, x0, lw - 1, lh, y, x, old_)
      else Meaning(v, last, b, y0, x0 + Pow2(lw - 1), lw - 1, lh, y, x, old_)
    case Move(m) => Raised(v, last, v.mv[m], 0, lw, x0, y, x)
    case Keep => if v.newer then old_ else Raised(v, last, 0, 0, lw, x0, y, x)
    case MoveAdd(m, dc) => Raised(v, last, v.mv[m], dc, lw, x0, y, x)
    case Fill(dc) => dc
    case Pair(p, q) => if (if lw > 0 then x == x0 else y == y0) then p else q
  }

  /** A tree was drawn: its block shows its meaning, and nothing else changed. */
  ghost predicate Painted(v: Video, last: Buffer, t: Tree, y0: nat, x0: nat, lw: nat, lh: nat, before: Buffer,
                          after: Buffer)
    requires |v.mv| == 256
  {
    |after| == |before| &&
    forall y: nat, x: nat :: y < v.height && x < v.width ==>
      At(v, after, y, x) == if InBlock(y0, x0, lw, lh, y, x) then Meaning(v, last, t, y0, x0, lw, lh, y, x, At(v, before, y, x))
                            else At(v, before, y, x)
  }

  /** Nothing outside the block changed. */
  ghost predicate ChangedOnlyInBlock(v: Video, y0: nat, x0: nat, lw: nat, lh: nat, before: Buffer, after: Buffer) {
    |after| == |before| &&
    forall y: nat, x: nat :: y < v.height && x < v.width && !InBlock(y0, x0, lw, lh, y, x) ==>
      At(v, after, y, x) == At(v, before, y, x)
  }

  lemma PaintRows(v: Video, last: Buffer, t: Tree, y0: nat, x0: nat, lw: nat, lh: nat, before: Buffer, mid: Buffer,
                  after: Buffer)
    requires |v.mv| == 256 && t.SplitRows? && lh >= 1
    requires Painted(v, last, t.top, y0, x0, lw, lh - 1, before, mid)
    requires Painted(v, last, t.bottom, y0 + Pow2(lh - 1), x0, lw, lh - 1, mid, after)
    ensures Painted(v, last, t, y0, x0, lw, lh, before, after)
  {
    hide At, Raised;
    assert Pow2(lh) == 2 * Pow2(lh - 1);
  }

  lemma PaintCols(v: Video, last: Buffer, t: Tree, y0: nat, x0: nat, lw: nat, lh: nat, before: Buffer, mid: Buffer,
                  after: Buffer)
    requires |v.mv| == 256 && t.SplitCols? && lw >= 1
    requires Painted(v, last, t.left, y0, x0, lw - 1, lh, before, mid)
    requires Painted(v, last, t.right, y0, x0 + Pow2(lw - 1), lw - 1, lh, mid, after)
    ensures Painted(v, last, t, y0, x0, lw, lh, before, after)
  {
    hide At, Raised;
    assert Pow2(lw) == 2 * Pow2(lw - 1);
  }

  // ---------- tiling

  /** A leaf and the rectangle it covers. */
  datatype Leaf = Leaf(tree: Tree, y: nat, x: nat, lw: nat, lh: nat)

  function Leaves(t: Tree, y: nat, x: nat, lw: nat, lh: nat): seq<Leaf>
    decreases t
  {
    match t
    case SplitRows(a, b) => if lh == 0 then [] else Leaves(a, y, x, lw, lh - 1) + Leaves(b, y + Pow2(lh - 1), x, lw, lh - 1)
    case SplitCols(a, b) => if lw == 0 then [] else Leaves(a, y, x, lw - 1, lh) + Leaves(b, y, x + Pow2(lw - 1), lw - 1, lh)
    case _ => [Leaf(t, y, x, lw, lh)]
  }

  /** How many leaves cover a pixel. */
  ghost function Covering(ls: seq<Leaf>, y: nat, x: nat): nat {
    if ls == [] then 0
    else (if InBlock(ls[0].y, ls[0].x, ls[0].lw, ls[0].lh, y, x) then 1 else 0) + Covering(ls[1..], y, x)
  }

  lemma {:induction false} CoveringConcat(a: seq<Leaf>, b: seq<Leaf>, y: nat, x: nat)
    ensures Covering(a + b, y, x) == Covering(a, y, x) + Covering(b, y, x)
  {
    if a == [] {
      assert a + b == b;
    } else {
      assert (a + b)[1..] == a[1..] + b;
      CoveringConcat(a[1..], b, y, x);
    }
  }

  /** The leaves of a legal tree tile its block exactly once. */
  lemma {:induction false} LeavesTile(v: Video, t: Tree, y0: nat, x0: nat, lw: nat, lh: nat, y: nat, x: nat)
    requires ValidVideo(v) && Splittable(lw, lh) && Legal(v, t, y0, x0, lw, lh)
    ensures Covering(Leaves(t, y0, x0, lw, lh), y, x) == if InBlock(y0, x0, lw, lh, y, x) then 1 else 0
    decreases t
  {
    hide LeafAllowed, Complete, Decodable, Covering, InBlock, Pow2;
    SplitsNeverReachOnePixel(v.types, lw, lh);
    match t {
      case SplitRows(a, b) =>
        CoveringConcat(Leaves(a, y0, x0, lw, lh - 1), Leaves(b, y0 + Pow2(lh - 1), x0, lw, lh - 1), y, x);
        LeavesTile(v, a, y0, x0, lw, lh - 1, y, x);
        LeavesTile(v, b, y0 + Pow2(lh - 1), x0, lw, lh - 1, y, x);
        RowHalves(y0, x0, lw, lh, y, x);
      case SplitCols(a, b) =>
        CoveringConcat(Leaves(a, y0, x0, lw - 1, lh), Leaves(b, y0, x0 + Pow2(lw - 1), lw - 1, lh), y, x);
        LeavesTile(v, a, y0, x0, lw - 1, lh, y, x);
        LeavesTile(v, b, y0, x0 + Pow2(lw - 1), lw - 1, lh, y, x);
        ColumnHalves(y0, x0, lw, lh, y, x);
      case _ =>
        OneLeafCovers(t, y0, x0, lw, lh, y, x);
    }
  }

  lemma OneLeafCovers(t: Tree, y0: nat, x0: nat, lw: nat, lh: nat, y: nat, x: nat)
    requires !t.SplitRows? && !t.SplitCols?
    ensures Covering(Leaves(t, y0, x0, lw, lh), y, x) == if InBlock(y0, x0, lw, lh, y, x) then 1 else 0
  {
    assert Leaves(t, y0, x0, lw, lh)[1..] == [];
  }

  lemma RowHalves(y0: nat, x0: nat, lw: nat, lh: nat, y: nat, x: nat)
    requires lh > 0
    ensures InBlock(y0, x0, lw, lh, y, x) == (InBlock(y0, x0, lw, lh - 1, y, x) || InBlock(y0 + Pow2(lh - 1), x0, lw, lh - 1, y, x))
    ensures !(InBlock(y0, x0, lw, lh - 1, y, x) && InBlock(y0 + Pow2(lh - 1), x0, lw, lh - 1, y, x))
  {
  }

  lemma ColumnHalves(y0: nat, x0: nat, lw: nat, lh: nat, y: nat, x: nat)
    requires lw > 0
    ensures InBlock(y0, x0, lw, lh, y, x) == (InBlock(y0, x0, lw - 1, lh, y, x) || InBlock(y0, x0 + Pow2(lw - 1), lw - 1, lh, y, x))
    ensures !(InBlock(y0, x0, lw - 1, lh, y, x) && InBlock(y0, x0 + Pow2(lw - 1), lw - 1, lh, y, x))
  {
  }
}
