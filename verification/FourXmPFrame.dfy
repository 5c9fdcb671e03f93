/** mcdc, decode_p_block and the block loop of decode_p_frame, drawing into the frame buffer in place. */
module FourXmPFrame {
  import opened Sums
  import opened PrefixCodes
  import opened Bytes
  import opened FourXmSplitTree
  import opened FourXmPaint
  import opened FourXmFrame
  import opened FourXmPixels
  import opened FourXmMotion
  import opened FourXmPHeader
  import opened FourXmDeltaPacket
  import K = FourXmKeyPacket

  class PFrameDecoder {
    const v: Video
    var frame: array<Word16>   // the buffer drawn into
    var last: array<Word16>    // the previous frame
    var gb: Bits               // unread type codes
    var g: seq<Byte>           // unread motion bytes
    var g2: seq<Byte>          // unread pixel words

    ghost predicate Valid()
      reads this
    {
      && ValidVideo(v) && v.width % 8 == 0 && v.height % 8 == 0
      && frame != last && frame.Length == last.Length == v.width * v.height
    }

    ghost function Unread(): Streams
      reads this
    {
      Streams(gb, g, g2)
    }

    constructor (version: nat, width: nat, height: nat)
      requires width % 16 == 0 && height % 16 == 0
      ensures Valid() && v == Settings(version, width, height) && Unread() == Streams([], [], [])
      ensures fresh(frame) && fresh(last)
      ensures forall k :: 0 <= k < width * height ==> frame[k] == 0 && last[k] == 0
    {
      hide GoodTables;
      SettingsAreValid(version, width, height);
      v := Settings(version, width, height);
      frame := new Word16[width * height](_ => 0);
      last := new Word16[width * height](_ => 0);
      gb, g, g2 := [], [], [];
    }

    /** decode_init: none for a size that is not made of whole macroblocks. */
    static method DecodeInit(version: nat, width: nat, height: nat) returns (d: PFrameDecoder?)
      ensures d == null <==> width % 16 != 0 || height % 16 != 0
      ensures d != null ==> fresh(d) && d.Valid() && d.v == Settings(version, width, height)
      ensures d != null ==> fresh(d.frame) && fresh(d.last)
      ensures d != null ==> forall k :: 0 <= k < width * height ==> d.frame[k] == 0 && d.last[k] == 0
    {
      if width % 16 != 0 || height % 16 != 0 {
        return null;
      }
      d := new PFrameDecoder(version, width, height);
    }

    /** One pixel. */
    method PutPixel(dst: nat, w: Word16, ghost y: nat, ghost x: nat)
      requires Valid() && y < v.height && x < v.width && dst == Offset(v, y, x)
      modifies frame
      ensures At(v, frame[..], y, x) == w
      ensures forall y': nat, x': nat :: y' < v.height && x' < v.width && (y' != y || x' != x) ==>
                At(v, frame[..], y', x') == At(v, old(frame[..]), y', x')
    {
      OffsetInside(v, y, x);
      frame[dst] := w;
      forall y': nat, x': nat | y' < v.height && x' < v.width && (y' != y || x' != x)
        ensures At(v, frame[..], y', x') == At(v, old(frame[..]), y', x')
      {
        OffsetsDiffer(v, y, x, y', x');
        OffsetInside(v, y', x');
      }
    }

    /** LE_CENTRIC_MUL: two neighbouring pixels as one 32-bit word. */
    method PutPair(dst: nat, src: int, scale: nat, dc: Word16, ghost y: nat, ghost x: nat)
      requires Valid() && y < v.height && x + 1 < v.width && dst == Offset(v, y, x) && scale <= 1
      requires 0 <= src && src + 1 < v.width * v.height
      modifies frame
      ensures var r := CentricMul(last[src], last[src + 1], scale, dc);
              At(v, frame[..], y, x) == r.0 && At(v, frame[..], y, x + 1) == r.1
      ensures forall y': nat, x': nat :: y' < v.height && x' < v.width && (y' != y || (x' != x && x' != x + 1)) ==>
                At(v, frame[..], y', x') == At(v, old(frame[..]), y', x')
    {
      var (lo, hi) := CentricMul(last[src], last[src + 1], scale, dc);
      PutPixel(dst, lo, y, x);
      PutPixel(dst + 1, hi, y, x + 1);
    }

    /** One row of mcdc: a single pixel, or one, two or four pairs. */
    method McdcRow(dst: nat, src: int, lw: nat, scale: nat, dc: Word16, ghost y: nat, ghost x: nat)
      requires Valid() && lw <= 3 && scale <= 1
      requires y < v.height && x + Pow2(lw) <= v.width && dst == Offset(v, y, x)
      requires 0 <= src && src + Pow2(lw) <= v.width * v.height
      modifies frame
      ensures forall x': nat :: x <= x' < x + Pow2(lw) ==> At(v, frame[..], y, x') == RowPixel(last[..], src, x' - x, lw, scale, dc)
      ensures forall y': nat, x': nat :: y' < v.height && x' < v.width && (y' != y || x' < x || x + Pow2(lw) <= x') ==>
                At(v, frame[..], y', x') == At(v, old(frame[..]), y', x')
    {
      hide CentricMul, RowPixel, At, ValidVideo;
      assert Pow2(0) == 1 && Pow2(1) == 2 && Pow2(2) == 4 && Pow2(3) == 8;
      if lw == 0 {
        PutPixel(dst, (scale * last[src] + dc * 0x10001) % 0x10000, y, x);
        SinglePixel(src, scale, dc);
      } else {
        PutPair(dst, src, scale, dc, y, x);
        PairPixels(src, 0, lw, scale, dc);
        assert At(v, frame[..], y, x) == RowPixel(last[..], src, 0, lw, scale, dc);
        assert At(v, frame[..], y, x + 1) == RowPixel(last[..], src, 1, lw, scale, dc);
        if lw >= 2 {
          PutPair(dst + 2, src + 2, scale, dc, y, x + 2);
          PairPixels(src, 2, lw, scale, dc);
        }
        if lw == 3 {
          PutPair(dst + 4, src + 4, scale, dc, y, x + 4);
          PairPixels(src, 4, lw, scale, dc);
          PutPair(dst + 6, src + 6, scale, dc, y, x + 6);
          PairPixels(src, 6, lw, scale, dc);
        }
      }
    }

    lemma SinglePixel(src: nat, scale: nat, dc: Word16)
      requires Valid() && scale <= 1 && src < v.width * v.height
      ensures RowPixel(last[..], src, 0, 0, scale, dc) == (scale * last[src] + dc * 0x10001) % 0x10000
    {
    }

    /** Pixels k and k + 1 of a row come from one pair. */
    lemma PairPixels(src: nat, k: nat, lw: nat, scale: nat, dc: Word16)
      requires Valid() && 1 <= lw && scale <= 1 && k % 2 == 0 && k < Pow2(lw)
      requires src + Pow2(lw) <= v.width * v.height && k + 1 < Pow2(lw)
      ensures var r := CentricMul(last[src + k], last[src + k + 1], scale, dc);
              RowPixel(last[..], src, k, lw, scale, dc) == r.0 && RowPixel(last[..], src, k + 1, lw, scale, dc) == r.1
    {
      hide CentricMul, ValidVideo;
    }

    /** mcdc: a block copied from `src`, or filled when `scale` is 0, plus a constant. */
    method Mcdc(dst: nat, src: int, lw: nat, lh: nat, scale: nat, dc: Word16, ghost y: nat, ghost x: nat)
      requires Valid() && lw <= 3 && lh <= 3 && scale <= 1
      requires BlockInside(v, y, x, lw, lh) && dst == Offset(v, y, x) && SourceAllowed(v, src, lw, lh)
      modifies frame
      ensures forall y': nat, x': nat :: InBlock(y, x, lw, lh, y', x') ==>
                At(v, frame[..], y', x') == RowPixel(last[..], RowStart(src, scale, y' - y, v.width), x' - x, lw, scale, dc)
      ensures forall y': nat, x': nat :: y' < v.height && x' < v.width && !InBlock(y, x, lw, lh, y', x') ==>
                At(v, frame[..], y', x') == At(v, old(frame[..]), y', x')
    {
      hide RowPixel, At, RowStart;
      FirstRowStart(src, scale, v.width);
      var h := Pow2(lh);
      var d, s := dst, src;
      for i := 0 to h
        invariant d == dst + i * v.width && s == RowStart(src, scale, i, v.width)
        invariant forall y': nat, x': nat :: InBlock(y, x, lw, lh, y', x') && y' < y + i ==>
                    At(v, frame[..], y', x') == RowPixel(last[..], RowStart(src, scale, y' - y, v.width), x' - x, lw, scale, dc)
        invariant forall y': nat, x': nat :: y' < v.height && x' < v.width && !InBlock(y, x, lw, lh, y', x') ==>
                    At(v, frame[..], y', x') == At(v, old(frame[..]), y', x')
      {
        OffsetMoves(v, y, x, i, 0);
        SourceRowInside(v, src, lw, lh, scale, i);
        McdcRow(d, s, lw, scale, dc, y + i, x);
        NextRowStart(src, scale, i, v.width);
        if scale != 0 {
          s := s + v.width;
        }
        d := d + v.width;
      }
    }

    /** get_vlc2 on the type stream. */
    method ReadCode(lw: nat, lh: nat) returns (code: nat)
      requires Valid() && Splittable(lw, lh)
      modifies this`gb
      ensures code == NextType(v, old(Unread()), lw, lh) && Unread() == Behind(v, old(Unread()), lw, lh)
    {
      hide Complete, Decodable;
      var index := SizeIndex(lw, lh);
      assert index <= 3;   // the first assertion of decode_p_block holds
      var (c, rest) := ReadType(v.types[index], gb);
      code, gb := c, rest;
    }

    /** Draws a leaf whose source has been found allowed; `scale` 0 means a constant block. */
    method DrawLeaf(dst: nat, disp: int, lw: nat, lh: nat, scale: nat, dc: Word16, ghost t: Tree, ghost y: nat,
                    ghost x: nat)
      requires Valid() && Splittable(lw, lh) && lw <= 3 && lh <= 3 && BlockInside(v, y, x, lw, lh) && dst == Offset(v, y, x)
      requires SourceAllowed(v, dst + disp, lw, lh)
      requires match t
               case Move(m) => scale == 1 && disp == v.mv[m] && dc == 0
               case Keep => scale == 1 && disp == 0 && dc == 0 && !v.newer
               case MoveAdd(m, c) => scale == 1 && disp == v.mv[m] && dc == c
               case Fill(c) => scale == 0 && dc == c
               case _ => false
      modifies frame
      ensures Painted(v, last[..], t, y, x, lw, lh, old(frame[..]), frame[..])
    {
      hide At, RowPixel, Raised;
      Mcdc(dst, dst + disp, lw, lh, scale, dc, y, x);
      ghost var before := old(frame[..]);
      forall y': nat, x': nat | y' < v.height && x' < v.width && InBlock(y, x, lw, lh, y', x')
        ensures At(v, frame[..], y', x') == Meaning(v, last[..], t, y, x, lw, lh, y', x', At(v, before, y', x'))
      {
        ghost var i, j := y' - y, x' - x;
        if scale == 1 {
          RowPixelIsRaised(v, last[..], y, x, disp, dc, lw, i, j);
        } else {
          RowPixelIsConstant(last[..], dst + disp, j, lw, dc);
        }
      }
    }

    /** Two raw pixels, side by side or one above the other. */
    method DrawPair(dst: nat, p: Word16, q: Word16, lw: nat, lh: nat, ghost y: nat, ghost x: nat)
      requires Valid() && lw + lh == 1 && BlockInside(v, y, x, lw, lh) && dst == Offset(v, y, x)
      modifies frame
      ensures Painted(v, last[..], Pair(p, q), y, x, lw, lh, old(frame[..]), frame[..])
    {
      assert Pow2(0) == 1 && Pow2(1) == 2;
      PutPixel(dst, p, y, x);
      if lw > 0 {
        PutPixel(dst + 1, q, y, x + 1);
      } else {
        OffsetMoves(v, y, x, 1, 0);
        PutPixel(dst + v.width, q, y + 1, x);
      }
    }

    /** The block was decoded as `p` says: drawn and consumed on success, otherwise nothing outside it changed. */
    twostate predicate Decoded(p: Parsed, ok: bool, y: nat, x: nat, lw: nat, lh: nat)
      requires Valid()
      reads this, frame, last
    {
      && ok == p.Parsed?
      && (ok ==> p.rest == Unread() && Painted(v, last[..], p.tree, y, x, lw, lh, old(frame[..]), frame[..]))
      && (!ok ==> ChangedOnlyInBlock(v, y, x, lw, lh, old(frame[..]), frame[..]))
    }

    /** decode_p_block behind a code that does not split. */
    method DecodeLeaf(code: nat, dst: nat, lw: nat, lh: nat, ghost y: nat, ghost x: nat) returns (ok: bool)
      requires Valid() && Splittable(lw, lh) && BlockInside(v, y, x, lw, lh) && dst == Offset(v, y, x)
      requires code <= 6 && code != 1 && code != 2 && (code == 6 ==> lw + lh == 1)
      modifies this`g, this`g2, frame
      ensures Decoded(CheckLeaf(v, ParseLeaf(v, code, old(Unread())), y, x, lw, lh), ok, y, x, lw, lh)
    {
      hide Painted, ChangedOnlyInBlock, GoodTables, SourceAllowed;
      NothingChanged(y, x, lw, lh);
      if code == 6 {
        if |g2| < 4 {
          return false;
        }
        var p, q := Le16(g2[0], g2[1]), Le16(g2[2], g2[3]);
        g2 := g2[4..];
        DrawPair(dst, p, q, lw, lh, y, x);
        return true;
      }
      if code % 4 == 0 && |g| < 1 {
        return false;
      }
      var disp, scale, dc := 0, 1, 0;
      ghost var t := Keep;
      if code == 0 {
        t := Move(g[0]);
        disp, g := v.mv[g[0]], g[1..];
      } else if code == 3 && v.newer {
        KeptIsPainted(y, x, lw, lh);
        return true;
      } else if code == 4 {
        if |g2| < 2 {
          return false;
        }
        dc := Le16(g2[0], g2[1]);
        t := MoveAdd(g[0], dc);
        disp, g, g2 := v.mv[g[0]], g[1..], g2[2..];
      } else if code == 5 {
        if |g2| < 2 {
          return false;
        }
        OwnPlaceAllowed(v, y, x, lw, lh);
        assert SourceAllowed(v, dst, lw, lh);   // the assertion of decode_p_block at code 5 holds
        dc := Le16(g2[0], g2[1]);
        t, scale, g2 := Fill(dc), 0, g2[2..];
      }
      if !SourceAllowed(v, dst + disp, lw, lh) {
        return false;
      }
      DrawLeaf(dst, disp, lw, lh, scale, dc, t, y, x);
      return true;
    }

    lemma NothingChanged(y: nat, x: nat, lw: nat, lh: nat)
      requires Valid()
      ensures ChangedOnlyInBlock(v, y, x, lw, lh, frame[..], frame[..])
    {
    }

    lemma KeptIsPainted(y: nat, x: nat, lw: nat, lh: nat)
      requires Valid() && v.newer
      ensures Painted(v, last[..], Keep, y, x, lw, lh, frame[..], frame[..])
    {
    }

    /** decode_p_block: the tree is drawn while it is read, source and destination moving in step. */
    method DecodePBlock(dst: nat, lw: nat, lh: nat, ghost y: nat, ghost x: nat) returns (ok: bool)
      requires Valid() && Splittable(lw, lh) && BlockInside(v, y, x, lw, lh) && dst == Offset(v, y, x)
      modifies this`gb, this`g, this`g2, frame
      ensures Decoded(Parse(v, old(Unread()), y, x, lw, lh), ok, y, x, lw, lh)
      decreases lw + lh
    {
      hide Painted, ChangedOnlyInBlock, GoodTables, ParseLeaf, CheckLeaf, Parse, Behind, SizeIndex, NextType, Legal;
      ghost var s, before := Unread(), frame[..];
      var code := ReadCode(lw, lh);
      SplitsNeverReachOnePixel(v.types, lw, lh);
      if code == 1 {
        ParseAtRows(v, s, y, x, lw, lh);
        HalfInside(y, x, lw, lh, true);
        ok := DecodePBlock(dst, lw, lh - 1, y, x);
        ghost var mid := frame[..];
        if !ok {
          WidenRows(y, x, lw, lh, before, mid);
          return;
        }
        ghost var a := Parse(v, Behind(v, s, lw, lh), y, x, lw, lh - 1).tree;
        OffsetMoves(v, y, x, Pow2(lh - 1), 0);
        ok := DecodePBlock(dst + Pow2(lh - 1) * v.width, lw, lh - 1, y + Pow2(lh - 1), x);
        if ok {
          PaintRows(v, last[..], Parse(v, s, y, x, lw, lh).tree, y, x, lw, lh, before, mid, frame[..]);
        } else {
          FailedRows(a, y, x, lw, lh, before, mid, frame[..]);
        }
      } else if code == 2 {
        ParseAtCols(v, s, y, x, lw, lh);
        HalfInside(y, x, lw, lh, false);
        ok := DecodePBlock(dst, lw - 1, lh, y, x);
        ghost var mid := frame[..];
        if !ok {
          WidenCols(y, x, lw, lh, before, mid);
          return;
        }
        ghost var a := Parse(v, Behind(v, s, lw, lh), y, x, lw - 1, lh).tree;
        OffsetMoves(v, y, x, 0, Pow2(lw - 1));
        ok := DecodePBlock(dst + Pow2(lw - 1), lw - 1, lh, y, x + Pow2(lw - 1));
        if ok {
          PaintCols(v, last[..], Parse(v, s, y, x, lw, lh).tree, y, x, lw, lh, before, mid, frame[..]);
        } else {
          FailedCols(a, y, x, lw, lh, before, mid, frame[..]);
        }
      } else {
        ParseAtLeaf(v, s, y, x, lw, lh);
        ok := DecodeLeaf(code, dst, lw, lh, y, x);
      }
    }

    lemma HalfInside(y: nat, x: nat, lw: nat, lh: nat, rows: bool)
      requires BlockInside(v, y, x, lw, lh) && if rows then lh >= 1 else lw >= 1
      ensures rows ==> BlockInside(v, y, x, lw, lh - 1) && BlockInside(v, y + Pow2(lh - 1), x, lw, lh - 1)
      ensures !rows ==> BlockInside(v, y, x, lw - 1, lh) && BlockInside(v, y, x + Pow2(lw - 1), lw - 1, lh)
    {
    }

    lemma WidenRows(y: nat, x: nat, lw: nat, lh: nat, before: Buffer, after: Buffer)
      requires lh >= 1 && ChangedOnlyInBlock(v, y, x, lw, lh - 1, before, after)
      ensures ChangedOnlyInBlock(v, y, x, lw, lh, before, after)
    {
      hide At;
    }

    lemma WidenCols(y: nat, x: nat, lw: nat, lh: nat, before: Buffer, after: Buffer)
      requires lw >= 1 && ChangedOnlyInBlock(v, y, x, lw - 1, lh, before, after)
      ensures ChangedOnlyInBlock(v, y, x, lw, lh, before, after)
    {
      hide At;
    }

    /** A failure in the second half leaves the first half drawn, still inside the block. */
    lemma FailedRows(a: Tree, y: nat, x: nat, lw: nat, lh: nat, before: Buffer, mid: Buffer, after: Buffer)
      requires Valid() && lh >= 1 && Painted(v, last[..], a, y, x, lw, lh - 1, before, mid)
      requires ChangedOnlyInBlock(v, y + Pow2(lh - 1), x, lw, lh - 1, mid, after)
      ensures ChangedOnlyInBlock(v, y, x, lw, lh, before, after)
    {
      hide At, Meaning, GoodTables;
    }

    lemma FailedCols(a: Tree, y: nat, x: nat, lw: nat, lh: nat, before: Buffer, mid: Buffer, after: Buffer)
      requires Valid() && lw >= 1 && Painted(v, last[..], a, y, x, lw - 1, lh, before, mid)
      requires ChangedOnlyInBlock(v, y, x + Pow2(lw - 1), lw - 1, lh, mid, after)
      ensures ChangedOnlyInBlock(v, y, x, lw, lh, before, after)
    {
      hide At, Meaning, GoodTables;
    }

    /** The block loop of decode_p_frame. */
    method DecodePFrame() returns (ok: bool)
      requires Valid()
      modifies this`gb, this`g, this`g2, frame
      ensures var f := ParseFrom(v, old(Unread()), 0, 0);
              ok == f.FrameParsed? &&
              (ok ==> f.rest == Unread() && Shows(v, last[..], f.blocks, old(frame[..]), frame[..]))
    {
      hide Painted, Shows, Parse, GoodTables, ChangedOnlyInBlock, Prepend, ParseFrom, BlockInside;
      ghost var whole, before := ParseFrom(v, Unread(), 0, 0), frame[..];
      ghost var done: Blocks := map[];
      NothingShown();
      assert Prepend(done, whole) == whole by { PrependNothing(whole); }
      var y := 0;
      while y < v.height
        invariant Prepend(done, ParseFrom(v, Unread(), y, 0)) == whole && Shows(v, last[..], done, before, frame[..])
        invariant y % 8 == 0 && forall b :: b in done ==> b.0 < y
      {
        var x := 0;
        while x < v.width
          invariant Prepend(done, ParseFrom(v, Unread(), y, x)) == whole && Shows(v, last[..], done, before, frame[..])
          invariant x % 8 == 0 && forall b :: b in done ==> b.0 < y || (b.0 == y && b.1 < x)
        {
          EightMore(y, x);
          PrependStep(v, done, Unread(), y, x);
          ghost var p, mid := Parse(v, Unread(), y, x, 3, 3), frame[..];
          ok := DecodeWholeBlock(y, x);
          if !ok {
            return;
          }
          ShowOneMore(v, last[..], done, p.tree, y, x, before, mid, frame[..]);
          done := done[(y, x) := p.tree];
          x := x + 8;
        }
        RowIsDone(y, x);
        y := y + 8;
      }
      ok := true;
      FrameIsDone(y);
      PrependEnd(done);
    }

    lemma NothingShown()
      requires Valid()
      ensures Shows(v, last[..], map[], frame[..], frame[..])
    {
    }

    lemma PrependNothing(f: FrameParsed)
      ensures Prepend(map[], f) == f
    {
      if f.FrameParsed? {
        assert map[] + f.blocks == f.blocks;
      }
    }

    lemma PrependEnd(done: Blocks)
      ensures Prepend(done, FrameParsed(map[], Unread())) == FrameParsed(done, Unread())
    {
      assert done + map[] == done;
    }

    lemma FrameIsDone(y: nat)
      requires Valid() && y >= v.height
      ensures ParseFrom(v, Unread(), y, 0) == FrameParsed(map[], Unread())
    {
    }

    lemma RowIsDone(y: nat, x: nat)
      requires Valid() && y < v.height && x >= v.width
      ensures ParseFrom(v, Unread(), y, x) == ParseFrom(v, Unread(), y + 8, 0)
    {
    }

    lemma EightMore(y: nat, x: nat)
      requires Valid() && y < v.height && x < v.width && y % 8 == 0 && x % 8 == 0
      ensures BlockInside(v, y, x, 3, 3)
    {
      assert Pow2(1) == 2 && Pow2(3) == 8;
    }

    /** One 8x8 block of the picture. */
    method DecodeWholeBlock(y: nat, x: nat) returns (ok: bool)
      requires Valid() && BlockInside(v, y, x, 3, 3)
      modifies this`gb, this`g, this`g2, frame
      ensures Decoded(Parse(v, old(Unread()), y, x, 3, 3), ok, y, x, 3, 3)
    {
      OffsetInside(v, y, x);
      ok := DecodePBlock(y * v.width + x, 3, 3, y, x);
    }

    /**
     A delta frame of the decoder: drawn, shown, and the buffers swapped. A broken frame is neither shown nor
     swapped.
     */
    method DecodeFrame() returns (ok: bool, picture: Buffer)
      requires Valid()
      modifies this, frame
      ensures Valid()
      ensures var f := ParseFrom(v, old(Unread()), 0, 0);
              ok == f.FrameParsed? &&
              (ok ==> LegalFrame(v, f.blocks) && picture == last[..] &&
                      FrameStep(v, old(Screen(frame[..], last[..])), f.blocks, Screen(frame[..], last[..])))
      ensures if ok then frame == old(last) && last == old(frame) else frame == old(frame) && last == old(last)
    {
      hide Shows, GoodTables, ParseFrom, LegalFrame;
      ParsedFrameIsLegal(v, Unread());
      ok := DecodePFrame();
      picture := frame[..];
      if ok {
        frame, last := last, frame;
      }
    }

    /** A delta frame from its packet on, with what the type buffer held where the packet's swapped words do not reach. */
    method DecodePacket(buf: seq<Byte>, frontBits: Word16, frontWords: Word16, stale: seq<Byte>)
      returns (ok: bool, picture: Buffer)
      requires Valid() && |buf| <= INT_MAX
      modifies this, frame
      ensures Valid()
      ensures var f := DecodeDelta(v, buf, frontBits, frontWords, stale);
              ok == f.FrameParsed? &&
              (ok ==> LegalFrame(v, f.blocks) && picture == last[..] &&
                      FrameStep(v, old(Screen(frame[..], last[..])), f.blocks, Screen(frame[..], last[..])))
      ensures if ok then frame == old(last) && last == old(frame) else frame == old(frame) && last == old(last)
    {
      hide GoodTables, ParseFrom, LegalFrame, CutPacket, FrameStep;
      var cut := CutStreams(v.newer, buf, frontBits, frontWords);
      if cut.None? {
        return false, frame[..];
      }
      gb, g, g2 := K.WordsBits(cut.value.bits) + K.BytesBits(stale), cut.value.bytes, cut.value.words;
      ok, picture := DecodeFrame();
    }
  }
}
