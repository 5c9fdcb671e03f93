/** Where every pixel of a delta frame comes from, leaf by leaf: from the picture shown before, with its motion. */
module FourXmPixels {
  import opened Sums
  import opened Bytes
  import opened FourXmSplitTree
  import opened FourXmPaint
  import opened FourXmFrame
  import opened FourXmMotion

  /** The leaf that covers a pixel, with its place and size. */
  function LeafAt(t: Tree, y0: nat, x0: nat, lw: nat, lh: nat, y: nat, x: nat): Leaf
    decreases t
  {
    match t
    case SplitRows(a, b) =>
      if lh == 0 then Leaf(t, y0, x0, lw, lh)
      else if y < y0 + Pow2(lh - 1) then LeafAt(a, y0, x0, lw, lh - 1, y, x)
      else LeafAt(b, y0 + Pow2(lh - 1), x0, lw, lh - 1, y, x)
    case SplitCols(a, b) =>
      if lw == 0 then Leaf(t, y0, x0, lw, lh)
      else if x < x0 + Pow2(lw - 1) then LeafAt(a, y0, x0, lw - 1, lh, y, x)
      else LeafAt(b, y0, x0 + Pow2(lw - 1), lw - 1, lh, y, x)
    case _ => Leaf(t, y0, x0, lw, lh)
  }

  /** A legal tree over a block that covers a pixel and begins in an even column unless it is one pixel wide. */
  ghost predicate Over(v: Video, l: Leaf, y: nat, x: nat)
    requires ValidVideo(v)
  {
    Splittable(l.lw, l.lh) && Legal(v, l.tree, l.y, l.x, l.lw, l.lh) && InBlock(l.y, l.x, l.lw, l.lh, y, x) &&
    (l.lw > 0 ==> l.x % 2 == 0)
  }

  lemma RowsOver(v: Video, l: Leaf, y: nat, x: nat)
    requires ValidVideo(v) && Over(v, l, y, x) && l.tree.SplitRows?
    ensures l.lh > 0
    ensures var h := Pow2(l.lh - 1);
            Over(v, if y < l.y + h then Leaf(l.tree.top, l.y, l.x, l.lw, l.lh - 1)
                    else Leaf(l.tree.bottom, l.y + h, l.x, l.lw, l.lh - 1), y, x)
  {
    hide Complete, LeafAllowed;
    SplitsNeverReachOnePixel(v.types, l.lw, l.lh);
    hide GoodTables, SizeIndex;
  }

  lemma ColsOver(v: Video, l: Leaf, y: nat, x: nat)
    requires ValidVideo(v) && Over(v, l, y, x) && l.tree.SplitCols?
    ensures l.lw > 0
    ensures var w := Pow2(l.lw - 1);
            Over(v, if x < l.x + w then Leaf(l.tree.left, l.y, l.x, l.lw - 1, l.lh)
                    else Leaf(l.tree.right, l.y, l.x + w, l.lw - 1, l.lh), y, x)
  {
    hide Complete, LeafAllowed;
    SplitsNeverReachOnePixel(v.types, l.lw, l.lh);
    hide GoodTables, SizeIndex;
    assert l.lw > 1 ==> Pow2(l.lw - 1) == 2 * Pow2(l.lw - 2);
  }

  /** Going down a legal tree leads to a leaf over the pixel. */
  lemma {:induction false} LeafCovers(v: Video, t: Tree, y0: nat, x0: nat, lw: nat, lh: nat, y: nat, x: nat)
    requires ValidVideo(v) && Over(v, Leaf(t, y0, x0, lw, lh), y, x)
    ensures var l := LeafAt(t, y0, x0, lw, lh, y, x);
            Over(v, l, y, x) && !l.tree.SplitRows? && !l.tree.SplitCols?
    decreases t
  {
    hide Over, ValidVideo, Pow2;
    match t {
      case SplitRows(a, b) =>
        RowsOver(v, Leaf(t, y0, x0, lw, lh), y, x);
        if y < y0 + Pow2(lh - 1) {
          LeafCovers(v, a, y0, x0, lw, lh - 1, y, x);
        } else {
          LeafCovers(v, b, y0 + Pow2(lh - 1), x0, lw, lh - 1, y, x);
        }
      case SplitCols(a, b) =>
        ColsOver(v, Leaf(t, y0, x0, lw, lh), y, x);
        if x < x0 + Pow2(lw - 1) {
          LeafCovers(v, a, y0, x0, lw - 1, lh, y, x);
        } else {
          LeafCovers(v, b, y0, x0 + Pow2(lw - 1), lw - 1, lh, y, x);
        }
      case _ =>
    }
  }

  /** A tree means at a pixel what its leaf there means. */
  lemma {:induction false} MeaningIsLeafs(v: Video, last: Buffer, t: Tree, y0: nat, x0: nat, lw: nat, lh: nat, y: nat,
                                          x: nat, w: Word16)
    requires |v.mv| == 256
    ensures var l := LeafAt(t, y0, x0, lw, lh, y, x);
            Meaning(v, last, t, y0, x0, lw, lh, y, x, w) == Meaning(v, last, l.tree, l.y, l.x, l.lw, l.lh, y, x, w)
    decreases t
  {
    hide Raised;
    match t {
      case SplitRows(a, b) =>
        if lh > 0 {
          if y < y0 + Pow2(lh - 1) {
            MeaningIsLeafs(v, last, a, y0, x0, lw, lh - 1, y, x, w);
          } else {
            MeaningIsLeafs(v, last, b, y0 + Pow2(lh - 1), x0, lw, lh - 1, y, x, w);
          }
        }
      case SplitCols(a, b) =>
        if lw > 0 {
          if x < x0 + Pow2(lw - 1) {
            MeaningIsLeafs(v, last, a, y0, x0, lw - 1, lh, y, x, w);
          } else {
            MeaningIsLeafs(v, last, b, y0, x0 + Pow2(lw - 1), lw - 1, lh, y, x, w);
          }
        }
      case _ =>
    }
  }

  /** The linear offset `d` moves down by `dy` rows and right by `dx` columns. */
  predicate Displaces(v: Video, d: int, dy: int, dx: int) {
    d == dy * v.width + dx
  }

  lemma DisplacedAt(v: Video, last: Buffer, d: int, dy: int, dx: int, y: nat, x: nat)
    requires Displaces(v, d, dy, dx)
    ensures PixelAt(last, Offset(v, y, x) + d) == At(v, last, y + dy, x + dx)
    ensures PixelAt(last, Offset(v, y, x) + d - 1) == At(v, last, y + dy, x + dx - 1)
  {
    assert y * v.width + dy * v.width == (y + dy) * v.width;
  }

  // ---------- what a leaf shows

  /** A moved leaf shows the previous picture's pixels at the displaced place. */
  lemma MovedPixel(v: Video, last: Buffer, t: Tree, y0: nat, x0: nat, lw: nat, lh: nat, y: nat, x: nat, w: Word16, dy: int,
                   dx: int)
    requires |v.mv| == 256 && LeafAt(t, y0, x0, lw, lh, y, x).tree.Move?
    requires Displaces(v, v.mv[LeafAt(t, y0, x0, lw, lh, y, x).tree.v], dy, dx)
    ensures Meaning(v, last, t, y0, x0, lw, lh, y, x, w) == At(v, last, y + dy, x + dx)
  {
    var l := LeafAt(t, y0, x0, lw, lh, y, x);
    MeaningIsLeafs(v, last, t, y0, x0, lw, lh, y, x, w);
    DisplacedAt(v, last, v.mv[l.tree.v], dy, dx, y, x);
    hide PixelAt, At, LeafAt, Displaces;
    NothingAdded(v, last, v.mv[l.tree.v], l.lw, l.x, y, x);
  }

  lemma NothingAdded(v: Video, last: Buffer, d: int, lw: nat, x0: nat, y: nat, x: nat)
    ensures Raised(v, last, d, 0, lw, x0, y, x) == PixelAt(last, Offset(v, y, x) + d)
  {
    hide PixelAt, Offset;
  }

  /** A raised pixel: the constant is added, and odd columns get the carry of the pixel left of the source. */
  function Sum16(p: Word16, dc: Word16, left: Word16, odd: bool): Word16 {
    (p + dc + if odd && left + dc >= 0x10000 then 1 else 0) % 0x10000
  }

  /** A moved leaf with a constant shows the displaced pixels, raised by it. */
  lemma RaisedPixel(v: Video, last: Buffer, t: Tree, y0: nat, x0: nat, lw: nat, lh: nat, y: nat, x: nat, w: Word16, dy: int,
                    dx: int)
    requires |v.mv| == 256 && LeafAt(t, y0, x0, lw, lh, y, x).tree.MoveAdd?
    requires Displaces(v, v.mv[LeafAt(t, y0, x0, lw, lh, y, x).tree.v], dy, dx)
    ensures var l := LeafAt(t, y0, x0, lw, lh, y, x);
            Meaning(v, last, t, y0, x0, lw, lh, y, x, w) ==
            Sum16(At(v, last, y + dy, x + dx), l.tree.dc, At(v, last, y + dy, x + dx - 1), l.lw > 0 && (x - l.x) % 2 == 1)
  {
    var l := LeafAt(t, y0, x0, lw, lh, y, x);
    MeaningIsLeafs(v, last, t, y0, x0, lw, lh, y, x, w);
    DisplacedAt(v, last, v.mv[l.tree.v], dy, dx, y, x);
    hide PixelAt, At, LeafAt, Displaces, Offset;
  }

  /** The other leaves: a constant, two pixels in order, and a copy of what was shown or is in the buffer. */
  lemma PlainPixel(v: Video, last: Buffer, t: Tree, y0: nat, x0: nat, lw: nat, lh: nat, y: nat, x: nat, w: Word16)
    requires |v.mv| == 256
    ensures var l, p := LeafAt(t, y0, x0, lw, lh, y, x), Meaning(v, last, t, y0, x0, lw, lh, y, x, w);
            && (l.tree.Fill? ==> p == l.tree.dc)
            && (l.tree.Pair? && l.lw + l.lh == 1 && InBlock(l.y, l.x, l.lw, l.lh, y, x) ==>
                  p == if (y, x) == (l.y, l.x) then l.tree.p else l.tree.q)
            && (l.tree.Keep? ==> p == if v.newer then w else At(v, last, y, x))
  {
    var l := LeafAt(t, y0, x0, lw, lh, y, x);
    MeaningIsLeafs(v, last, t, y0, x0, lw, lh, y, x, w);
    NothingAdded(v, last, 0, l.lw, l.x, y, x);
    assert Pow2(0) == 1 && Pow2(1) == 2;
    hide LeafAt, Raised;
  }

  // ---------- what a frame shows

  function FrameLeaf(blocks: Blocks, y: nat, x: nat): Leaf
    requires Origin(y, x) in blocks
  {
    LeafAt(blocks[Origin(y, x)], Origin(y, x).0, Origin(y, x).1, 3, 3, y, x)
  }

  /** A good frame, drawn and swapped, and one of its pixels. */
  ghost predicate Shown(v: Video, s: Screen, blocks: Blocks, t: Screen, y: nat, x: nat) {
    WholeBlocks(v) && LegalFrame(v, blocks) && FrameStep(v, s, blocks, t) && y < v.height && x < v.width
  }

  lemma FrameLeafCovers(v: Video, s: Screen, blocks: Blocks, t: Screen, y: nat, x: nat)
    requires Shown(v, s, blocks, t, y, x)
    ensures Origin(y, x) in blocks
    ensures var l := FrameLeaf(blocks, y, x);
            Over(v, l, y, x) && !l.tree.SplitRows? && !l.tree.SplitCols? && (l.lw > 0 ==> (x - l.x) % 2 == x % 2)
  {
    LegalOrigin(v, blocks, y, x);
    var o := Origin(y, x);
    var l := FrameLeaf(blocks, y, x);
    LeafCovers(v, blocks[o], o.0, o.1, 3, 3, y, x);
    hide Legal, InBlock, LeafAt, FrameStep, LegalFrame, ValidVideo;
    SameParity(l.x, x);
  }

  lemma LegalOrigin(v: Video, blocks: Blocks, y: nat, x: nat)
    requires WholeBlocks(v) && LegalFrame(v, blocks) && y < v.height && x < v.width
    ensures var o := Origin(y, x); o in blocks && Over(v, Leaf(blocks[o], o.0, o.1, 3, 3), y, x)
  {
    OriginInFrame(v, y, x);
    hide Legal, InBlock, GoodTables, Origin, FromHere;
    var o := Origin(y, x);
    assert FromHere(v, 0, 0, o);
  }

  lemma OriginInFrame(v: Video, y: nat, x: nat)
    requires y < v.height && x < v.width
    ensures var o := Origin(y, x); FromHere(v, 0, 0, o) && InBlock(o.0, o.1, 3, 3, y, x) && o.1 % 2 == 0
  {
    hide InBlock;
    EightBelow(y);
    EightBelow(x);
    OriginIff(Origin(y, x).0, Origin(y, x).1, y, x);
    EvenEight(Origin(y, x).1);
  }

  lemma EightBelow(b: nat)
    ensures (b - b % 8) % 8 == 0 && b - b % 8 <= b
  {
  }

  lemma EvenEight(a: nat)
    requires a % 8 == 0
    ensures a % 2 == 0
  {
    var k := a / 8;
    assert a == 8 * k;
    EvenTwice(4 * k);
  }

  lemma EvenTwice(k: nat)
    ensures (2 * k) % 2 == 0
  {
  }

  lemma SameParity(a: int, b: int)
    ensures a % 2 == 0 ==> (b - a) % 2 == b % 2
  {
  }

  lemma FrameMeaning(v: Video, s: Screen, blocks: Blocks, t: Screen, y: nat, x: nat)
    requires |v.mv| == 256 && FrameStep(v, s, blocks, t) && y < v.height && x < v.width && Origin(y, x) in blocks
    ensures var o := Origin(y, x);
            At(v, t.last, y, x) == Meaning(v, s.last, blocks[o], o.0, o.1, 3, 3, y, x, At(v, s.frame, y, x))
  {
    hide Meaning, At;
  }

  /** The source of a moved pixel lies in the picture. */
  lemma SourceOfLeaf(v: Video, l: Leaf, m: Byte, y: nat, x: nat)
    requires ValidVideo(v) && InBlock(l.y, l.x, l.lw, l.lh, y, x) && Pow2(l.lh) <= v.height
    requires SourceAllowed(v, Offset(v, l.y, l.x) + v.mv[m], l.lw, l.lh)
    ensures 0 <= Offset(v, y, x) + v.mv[m] < v.width * v.height
  {
    SourceInside(v, Offset(v, l.y, l.x) + v.mv[m], l.lw, l.lh, y - l.y, x - l.x);
    OffsetMoves(v, l.y, l.x, y - l.y, x - l.x);
  }

  /** Motion compensation: a pixel of a moved leaf shows the previous picture's pixel at its vector. */
  lemma MovedPixelIsShown(v: Video, s: Screen, blocks: Blocks, t: Screen, y: nat, x: nat, dy: int, dx: int)
    requires Shown(v, s, blocks, t, y, x) && Origin(y, x) in blocks && FrameLeaf(blocks, y, x).tree.Move?
    requires Displaces(v, v.mv[FrameLeaf(blocks, y, x).tree.v], dy, dx)
    ensures At(v, t.last, y, x) == At(v, s.last, y + dy, x + dx)
  {
    var o := Origin(y, x);
    FrameMeaning(v, s, blocks, t, y, x);
    hide FrameStep, Meaning, At;
    MovedPixel(v, s.last, blocks[o], o.0, o.1, 3, 3, y, x, At(v, s.frame, y, x), dy, dx);
  }

  /** With the vectors of the file's version, that is so many rows down and columns to the right. */
  lemma VectorPixelIsShown(version: nat, v: Video, s: Screen, blocks: Blocks, t: Screen, y: nat, x: nat)
    requires v == Settings(version, v.width, v.height)
    requires Shown(v, s, blocks, t, y, x) && Origin(y, x) in blocks && FrameLeaf(blocks, y, x).tree.Move?
    ensures var d := Vector(version > 1, FrameLeaf(blocks, y, x).tree.v);
            At(v, t.last, y, x) == At(v, s.last, y + d.1, x + d.0)
  {
    var m := FrameLeaf(blocks, y, x).tree.v;
    hide At, FrameStep, LegalFrame, GoodTables, LeafAt, Vector;
    ReachIsVector(version > 1, m, v.width);
    MovedPixelIsShown(v, s, blocks, t, y, x, Vector(version > 1, m).1, Vector(version > 1, m).0);
  }

  /** A constant is added on top, with the carry of the left neighbour in odd columns of leaves wider than a pixel. */
  lemma RaisedPixelIsShown(v: Video, s: Screen, blocks: Blocks, t: Screen, y: nat, x: nat, dy: int, dx: int)
    requires Shown(v, s, blocks, t, y, x) && Origin(y, x) in blocks && FrameLeaf(blocks, y, x).tree.MoveAdd?
    requires Displaces(v, v.mv[FrameLeaf(blocks, y, x).tree.v], dy, dx)
    ensures var l := FrameLeaf(blocks, y, x);
            At(v, t.last, y, x) ==
            Sum16(At(v, s.last, y + dy, x + dx), l.tree.dc, At(v, s.last, y + dy, x + dx - 1), l.lw > 0 && x % 2 == 1)
  {
    hide FrameStep, Meaning, At, Sum16, Over, LeafAt, LegalFrame, Displaces, Splittable, Legal;
    var o := Origin(y, x);
    FrameMeaning(v, s, blocks, t, y, x);
    FrameLeafCovers(v, s, blocks, t, y, x);
    RaisedPixel(v, s.last, blocks[o], o.0, o.1, 3, 3, y, x, At(v, s.frame, y, x), dy, dx);
  }

  /** Filled, paired and skipped pixels. */
  lemma PlainPixelIsShown(v: Video, s: Screen, blocks: Blocks, t: Screen, y: nat, x: nat)
    requires Shown(v, s, blocks, t, y, x) && Origin(y, x) in blocks
    ensures var l, p := FrameLeaf(blocks, y, x), At(v, t.last, y, x);
            && (l.tree.Fill? ==> p == l.tree.dc)
            && (l.tree.Pair? ==> p == if (y, x) == (l.y, l.x) then l.tree.p else l.tree.q)
            && (l.tree.Keep? ==> p == if v.newer then At(v, s.frame, y, x) else At(v, s.last, y, x))
  {
    var o := Origin(y, x);
    FrameMeaning(v, s, blocks, t, y, x);
    FrameLeafCovers(v, s, blocks, t, y, x);
    var l := FrameLeaf(blocks, y, x);
    SplitsNeverReachOnePixel(v.types, l.lw, l.lh);
    hide FrameStep, Meaning, At, GoodTables;
    PlainPixel(v, s.last, blocks[o], o.0, o.1, 3, 3, y, x, At(v, s.frame, y, x));
  }

  /** What a moved pixel is taken from is a pixel of the previous picture, never something around it. */
  lemma SourceIsInPicture(v: Video, s: Screen, blocks: Blocks, t: Screen, y: nat, x: nat)
    requires Shown(v, s, blocks, t, y, x) && Origin(y, x) in blocks
    ensures var l := FrameLeaf(blocks, y, x).tree;
            l.Move? || l.MoveAdd? ==> 0 <= Offset(v, y, x) + v.mv[l.v] < v.width * v.height
  {
    FrameLeafCovers(v, s, blocks, t, y, x);
    var l := FrameLeaf(blocks, y, x);
    LeafFits(v, l);
    hide SourceAllowed, FrameStep, LegalFrame;
    if l.tree.Move? || l.tree.MoveAdd? {
      SourceOfLeaf(v, l, l.tree.v, y, x);
    }
  }

  lemma LeafFits(v: Video, l: Leaf)
    requires WholeBlocks(v) && v.height > 0 && l.lh <= 3
    ensures Pow2(l.lh) <= v.height
  {
    assert Pow2(0) == 1 && Pow2(1) == 2 && Pow2(2) == 4 && Pow2(3) == 8;
  }

  /** A frame that parses is made of legal trees, one for each block of the picture. */
  lemma ParsedFrameIsLegal(v: Video, s: Streams)
    requires WholeBlocks(v)
    ensures ParseFrom(v, s, 0, 0).FrameParsed? ==> LegalFrame(v, ParseFrom(v, s, 0, 0).blocks)
  {
    hide ParseFrom, GoodTables, Legal;
    ParsedBlocksAreAhead(v, s, 0, 0);
    ParsedBlocksAreLegal(v, s, 0, 0);
  }

  lemma {:induction false} ParsedBlocksAreLegal(v: Video, s: Streams, y: nat, x: nat)
    requires WholeBlocks(v) && y % 8 == 0 && x % 8 == 0
    ensures var f := ParseFrom(v, s, y, x);
            f.FrameParsed? ==> forall b :: b in f.blocks ==> Legal(v, f.blocks[b], b.0, b.1, 3, 3)
    decreases v.height - y, v.width - x
  {
    hide Parse, GoodTables, Legal;
    if y < v.height {
      if x >= v.width {
        ParsedBlocksAreLegal(v, s, y + 8, 0);
      } else {
        var p := Parse(v, s, y, x, 3, 3);
        if p.Parsed? {
          ParsedBlocksAreLegal(v, p.rest, y, x + 8);
          ParsedIsLegal(v, s, y, x);
        }
      }
    }
  }

  lemma ParsedIsLegal(v: Video, s: Streams, y: nat, x: nat)
    requires ValidVideo(v) && Parse(v, s, y, x, 3, 3).Parsed?
    ensures Legal(v, Parse(v, s, y, x, 3, 3).tree, y, x, 3, 3)
  {
    hide Parse, GoodTables, Legal;
    var k := PrintParsed(v, s, y, x, 3, 3);
  }

  // ---------- over two frames

  /** A skipped pixel shows what it showed two frames earlier, not one. */
  lemma SkippedPixelIsTwoFramesOld(v: Video, s0: Screen, b1: Blocks, s1: Screen, b2: Blocks, s2: Screen, y: nat, x: nat)
    requires |v.mv| == 256 && v.newer && y < v.height && x < v.width
    requires FrameStep(v, s0, b1, s1) && FrameStep(v, s1, b2, s2)
    requires Origin(y, x) in b2 && FrameLeaf(b2, y, x).tree.Keep?
    ensures At(v, s2.last, y, x) == At(v, s0.last, y, x)
  {
    var o := Origin(y, x);
    FrameMeaning(v, s1, b2, s2, y, x);
    hide Meaning, At;
    PlainPixel(v, s1.last, b2[o], o.0, o.1, 3, 3, y, x, At(v, s1.frame, y, x));
  }
}
