/** A whole delta frame: its blocks in raster order, what they draw together, and the buffer swap behind each frame. */
module FourXmFrame {
  import opened Sums
  import opened FourXmSplitTree
  import opened FourXmPaint

  /** The trees of a frame by the row and column of their block. */
  type Blocks = map<(nat, nat), Tree>

  datatype FrameParsed = Broken | FrameParsed(blocks: Blocks, rest: Streams)

  ghost predicate WholeBlocks(v: Video) {
    ValidVideo(v) && v.width % 8 == 0 && v.height % 8 == 0
  }

  /** The blocks from row `y`, column `x` on. */
  function ParseFrom(v: Video, s: Streams, y: nat, x: nat): FrameParsed
    requires WholeBlocks(v)
    decreases v.height - y, v.width - x
  {
    if y >= v.height then FrameParsed(map[], s)
    else if x >= v.width then ParseFrom(v, s, y + 8, 0)
    else
      var p := Parse(v, s, y, x, 3, 3);
      if p.Fail? then Broken
      else
        var f := ParseFrom(v, p.rest, y, x + 8);
        if f.Broken? then Broken else FrameParsed(f.blocks[(y, x) := p.tree], f.rest)
  }

  /** A block origin at or after (y, x) in raster order. */
  predicate FromHere(v: Video, y: nat, x: nat, b: (nat, nat)) {
    b.0 % 8 == 0 && b.1 % 8 == 0 && b.0 < v.height && b.1 < v.width && (b.0 > y || (b.0 == y && b.1 >= x))
  }

  ghost predicate LegalFrame(v: Video, blocks: Blocks)
    requires WholeBlocks(v)
  {
    forall b :: FromHere(v, 0, 0, b) ==> b in blocks && Legal(v, blocks[b], b.0, b.1, 3, 3)
  }

  /** The streams of the blocks from (y, x) on, followed by `rest`. */
  ghost function PrintFrom(v: Video, blocks: Blocks, y: nat, x: nat, rest: Streams): Streams
    decreases v.height - y, v.width - x
  {
    if y >= v.height then rest
    else if x >= v.width then PrintFrom(v, blocks, y + 8, 0, rest)
    else
      var t := if (y, x) in blocks then blocks[(y, x)] else Keep;
      Printed(v.types, t, 3, 3, PrintFrom(v, blocks, y, x + 8, rest))
  }

  /** The blocks at or after (y, x). */
  ghost function Ahead(v: Video, blocks: Blocks, y: nat, x: nat): Blocks {
    map b | b in blocks && FromHere(v, y, x, b) :: blocks[b]
  }

  lemma AheadStep(v: Video, blocks: Blocks, y: nat, x: nat)
    requires y % 8 == 0 && x % 8 == 0
    ensures y >= v.height ==> Ahead(v, blocks, y, x) == map[]
    ensures y < v.height && x >= v.width ==> Ahead(v, blocks, y, x) == Ahead(v, blocks, y + 8, 0)
    ensures y < v.height && x < v.width && (y, x) in blocks ==>
              Ahead(v, blocks, y, x) == Ahead(v, blocks, y, x + 8)[(y, x) := blocks[(y, x)]]
  {
  }

  /** Parsing a printed frame gives all its trees back and consumes exactly what was printed. */
  lemma {:induction false} ParsePrintedFrame(v: Video, blocks: Blocks, y: nat, x: nat, rest: Streams)
    requires WholeBlocks(v) && y % 8 == 0 && x % 8 == 0 && LegalFrame(v, blocks)
    ensures ParseFrom(v, PrintFrom(v, blocks, y, x, rest), y, x) == FrameParsed(Ahead(v, blocks, y, x), rest)
    decreases v.height - y, v.width - x
  {
    hide Parse, Printed, Legal, GoodTables, Ahead;
    AheadStep(v, blocks, y, x);
    if y < v.height {
      if x >= v.width {
        ParsePrintedFrame(v, blocks, y + 8, 0, rest);
      } else {
        assert FromHere(v, 0, 0, (y, x));
        ParsePrintedFrame(v, blocks, y, x + 8, rest);
        ParsePrinted(v, blocks[(y, x)], y, x, 3, 3, PrintFrom(v, blocks, y, x + 8, rest));
      }
    }
  }

  /** The origin of the block a pixel belongs to. */
  function Origin(y: nat, x: nat): (nat, nat) {
    (y - y % 8, x - x % 8)
  }

  /** Every pixel of the blocks in the map shows what its tree means; all others are as before. */
  ghost predicate Shows(v: Video, last: Buffer, blocks: Blocks, before: Buffer, after: Buffer)
    requires |v.mv| == 256
  {
    |after| == |before| &&
    forall y: nat, x: nat :: y < v.height && x < v.width ==>
      At(v, after, y, x) ==
        if Origin(y, x) in blocks then
          Meaning(v, last, blocks[Origin(y, x)], Origin(y, x).0, Origin(y, x).1, 3, 3, y, x, At(v, before, y, x))
        else At(v, before, y, x)
  }

  lemma OriginIff(y0: nat, x0: nat, y: nat, x: nat)
    requires y0 % 8 == 0 && x0 % 8 == 0
    ensures InBlock(y0, x0, 3, 3, y, x) <==> Origin(y, x) == (y0, x0)
  {
    assert Pow2(1) == 2 && Pow2(3) == 8;
    SameEight(y0, y);
    SameEight(x0, x);
  }

  lemma SameEight(a: nat, b: nat)
    requires a % 8 == 0
    ensures b - b % 8 == a <==> a <= b < a + 8
  {
    var k, m := a / 8, b / 8;
    assert b - b % 8 == 8 * m && a == 8 * k;
  }

  /** Drawing one more block adds it to what is shown. */
  lemma ShowOneMore(v: Video, last: Buffer, blocks: Blocks, t: Tree, y0: nat, x0: nat, before: Buffer, mid: Buffer,
                    after: Buffer)
    requires |v.mv| == 256 && y0 % 8 == 0 && x0 % 8 == 0 && (y0, x0) !in blocks
    requires Shows(v, last, blocks, before, mid) && Painted(v, last, t, y0, x0, 3, 3, mid, after)
    ensures Shows(v, last, blocks[(y0, x0) := t], before, after)
  {
    hide At, Meaning;
    var more := blocks[(y0, x0) := t];
    forall y: nat, x: nat | y < v.height && x < v.width
      ensures At(v, after, y, x) ==
        if Origin(y, x) in more then
          Meaning(v, last, more[Origin(y, x)], Origin(y, x).0, Origin(y, x).1, 3, 3, y, x, At(v, before, y, x))
        else At(v, before, y, x)
    {
      OriginIff(y0, x0, y, x);
    }
  }

  /** The blocks read so far together with what the rest of the streams gives. */
  ghost function Prepend(done: Blocks, f: FrameParsed): FrameParsed {
    if f.Broken? then Broken else FrameParsed(done + f.blocks, f.rest)
  }

  lemma PrependStep(v: Video, done: Blocks, s: Streams, y: nat, x: nat)
    requires WholeBlocks(v) && y < v.height && x < v.width && y % 8 == 0 && x % 8 == 0
    ensures Parse(v, s, y, x, 3, 3).Fail? ==> Prepend(done, ParseFrom(v, s, y, x)) == Broken
    ensures Parse(v, s, y, x, 3, 3).Parsed? ==>
              Prepend(done, ParseFrom(v, s, y, x)) ==
              Prepend(done[(y, x) := Parse(v, s, y, x, 3, 3).tree], ParseFrom(v, Parse(v, s, y, x, 3, 3).rest, y, x + 8))
  {
    hide Parse, GoodTables;
    var p := Parse(v, s, y, x, 3, 3);
    if p.Parsed? {
      var f := ParseFrom(v, p.rest, y, x + 8);
      if f.FrameParsed? {
        ParsedBlocksAreAhead(v, p.rest, y, x + 8);
        assert (y, x) !in f.blocks;
        assert done + f.blocks[(y, x) := p.tree] == done[(y, x) := p.tree] + f.blocks;
      }
    }
  }

  lemma {:induction false} ParsedBlocksAreAhead(v: Video, s: Streams, y: nat, x: nat)
    requires WholeBlocks(v) && y % 8 == 0 && x % 8 == 0
    ensures ParseFrom(v, s, y, x).FrameParsed? ==>
              forall b :: b in ParseFrom(v, s, y, x).blocks <==> FromHere(v, y, x, b)
    decreases v.height - y, v.width - x
  {
    hide Parse, GoodTables;
    if y < v.height {
      if x >= v.width {
        ParsedBlocksAreAhead(v, s, y + 8, 0);
      } else {
        var p := Parse(v, s, y, x, 3, 3);
        if p.Parsed? {
          ParsedBlocksAreAhead(v, p.rest, y, x + 8);
        }
      }
    }
  }

  // ---------- runs of frames

  /** Both buffers between frames; the shown picture is always `last`. */
  datatype Screen = Screen(frame: Buffer, last: Buffer)

  /** One delta frame: drawn over the older picture, then the buffers change places. */
  ghost predicate FrameStep(v: Video, s: Screen, blocks: Blocks, t: Screen)
    requires |v.mv| == 256
  {
    Shows(v, s.last, blocks, s.frame, t.last) && t.frame == s.last
  }
}
