/** A delta frame's packet as a whole: header, byte-swapped type stream, and the words and bytes of its leaves. */
module FourXmDeltaPacket {
  import opened Bytes
  import opened PrefixCodes
  import opened FourXmSplitTree
  import opened FourXmFrame
  import opened FourXmPHeader
  import K = FourXmKeyPacket

  /**
   The streams of a cut packet. Type codes are swapped in whole 32-bit words; of a size that is no multiple of four the
   last bytes are never copied, and what is read there is what the buffer held before.
   */
  function StreamsOf(c: Cut, stale: seq<Byte>): Streams {
    Streams(K.WordsBits(c.bits) + K.BytesBits(stale), c.bytes, c.words)
  }

  /** From packet to blocks; before version 2 the sizes of two streams lie in front of the packet. */
  function DecodeDelta(v: Video, buf: seq<Byte>, frontBits: Word16, frontWords: Word16, stale: seq<Byte>): FrameParsed
    requires WholeBlocks(v) && |buf| <= INT_MAX
  {
    var cut := CutPacket(v.newer, buf, frontBits, frontWords);
    if cut.None? then Broken else ParseFrom(v, StreamsOf(cut.value, stale), 0, 0)
  }

  /** The head of decode_p_frame: sizes, the test on them, and where the streams begin. */
  method CutStreams(newer: bool, buf: seq<Byte>, frontBits: Word16, frontWords: Word16) returns (cut: Option<Cut>)
    requires |buf| <= INT_MAX
    ensures cut == CutPacket(newer, buf, frontBits, frontWords)
  {
    hide Le32;
    var length: nat := |buf|;
    var extra: nat, bits: nat, words: nat, bytes: nat;
    if newer {
      extra := 20;
      if length < extra {
        return None;
      }
      bits, words, bytes := Le32(buf, 8), Le32(buf, 12), Le32(buf, 16);
    } else {
      extra, bits, words := 0, frontBits, frontWords;
      bytes := Sub(Sub(length, bits), words);
    }
    Fits(Sizes(extra, bits, words, bytes), length);
    if bits > length || bits >= INT_MAX / 8 || bytes > Sub(length, bits) || words > Sub(Sub(length, bytes), bits) ||
       extra > Sub(Sub(Sub(length, bytes), bits), words) {
      return None;
    }
    var wordOffset := extra + bits;
    var byteOffset := extra + bits + words;
    return Some(Cut(buf[extra..extra + bits], buf[wordOffset..], buf[byteOffset..]));
  }

  // ---------- printing

  ghost function Alone(v: Video, blocks: Blocks, y: nat, x: nat): Streams {
    PrintFrom(v, blocks, y, x, Streams([], [], []))
  }

  lemma PrintedBefore(types: seq<seq<Bits>>, t: Tree, s: Streams, rest: Streams)
    ensures Printed(types, t, 3, 3, Append(s, rest)) == Append(Printed(types, t, 3, 3, s), rest)
  {
    hide PrintBits, PrintBytes, PrintWords;
  }

  /** A frame is printed in front of what follows it. */
  lemma {:induction false} PrintsBefore(v: Video, blocks: Blocks, y: nat, x: nat, rest: Streams)
    ensures PrintFrom(v, blocks, y, x, rest) == Append(Alone(v, blocks, y, x), rest)
    decreases v.height - y, v.width - x
  {
    hide Printed;
    if y < v.height {
      if x >= v.width {
        PrintsBefore(v, blocks, y + 8, 0, rest);
      } else {
        PrintsBefore(v, blocks, y, x + 8, rest);
        PrintedBefore(v.types, if (y, x) in blocks then blocks[(y, x)] else Keep, Alone(v, blocks, y, x + 8), rest);
      }
    }
  }

  /** Bytes behind the last whole word are not read. */
  lemma {:induction false} FewAreNotRead(s: seq<Byte>, few: seq<Byte>)
    requires |s| % 4 == 0 && |few| < 4
    ensures K.WordsBits(s + few) == K.WordsBits(s)
    decreases |s|
  {
    hide K.WordBits, Le32;
    if s == [] {
      assert s + few == few;
    } else {
      FewAreNotRead(s[4..], few);
      SameWord(s + few, 0, s[..4]);
      SameWord(s, 0, s[..4]);
      assert (s + few)[4..] == s[4..] + few;
    }
  }

  lemma WordsThenFew(c: Bits, few: seq<Byte>)
    requires |c| % 32 == 0 && |few| < 4
    ensures K.WordsBits(K.PackWords(c) + few) == c
  {
    FewAreNotRead(K.PackWords(c), few);
    K.WordsRoundTrip(c);
  }

  /** Before version 2 the same holds for the sizes in front of the packet. */
  lemma CutOld(bits: seq<Byte>, words: seq<Byte>, bytes: seq<Byte>)
    requires |bits| < 0x10000 && |words| < 0x10000 && |bits| + |words| + |bytes| <= INT_MAX
    ensures CutPacket(false, bits + words + bytes, |bits|, |words|) == Some(Cut(bits, words + bytes, bytes))
  {
    var buf := bits + words + bytes;
    OldSizesIff(buf, |bits|, |words|);
    assert buf[..|bits|] == bits && buf[|bits|..] == words + bytes && buf[|bits| + |words|..] == bytes;
  }

  /** A frame's packet: type codes filled up with `pad` to whole words, and up to three bytes behind them. */
  datatype Packet = Packet(buf: seq<Byte>, frontBits: Word16, frontWords: Word16)

  /** What there is to print, within the sizes that can be told. */
  ghost predicate Printable(v: Video, s: Streams, few: seq<Byte>) {
    |s.bits| % 32 == 0 && |few| < 4 && |s.bits| / 8 + |few| < INT_MAX / 8 &&
    |s.bits| / 8 + |few| + |s.words| + |s.bytes| + 20 <= INT_MAX &&
    (!v.newer ==> |s.bits| / 8 + |few| < 0x10000 && |s.words| < 0x10000)
  }

  ghost function PrintDelta(v: Video, s: Streams, few: seq<Byte>, front: seq<Byte>): Packet
    requires Printable(v, s, few) && |front| == 8
  {
    var bits := K.PackWords(s.bits) + few;
    if v.newer then Packet(PrintPacket(front, bits, s.words, s.bytes), 0, 0)
    else Packet(bits + s.words + s.bytes, |bits|, |s.words|)
  }

  lemma CutDelta(v: Video, s: Streams, few: seq<Byte>, front: seq<Byte>)
    requires Printable(v, s, few) && |front| == 8
    ensures var p := PrintDelta(v, s, few, front);
            |p.buf| <= INT_MAX &&
            CutPacket(v.newer, p.buf, p.frontBits, p.frontWords) ==
            Some(Cut(K.PackWords(s.bits) + few, s.words + s.bytes, s.bytes))
  {
    hide CutPacket, Le32Bytes;
    var bits := K.PackWords(s.bits) + few;
    if v.newer {
      CutPrinted(front, bits, s.words, s.bytes, 0, 0);
    } else {
      CutOld(bits, s.words, s.bytes);
    }
  }

  /** The streams read off a printed packet are those of its frame in front of padding and, once more, the bytes. */
  lemma StreamsRead(v: Video, blocks: Blocks, pad: Bits, few: seq<Byte>, stale: seq<Byte>)
    requires |PrintFrom(v, blocks, 0, 0, Streams(pad, [], [])).bits| % 32 == 0 && |few| < 4
    ensures var s := PrintFrom(v, blocks, 0, 0, Streams(pad, [], []));
            StreamsOf(Cut(K.PackWords(s.bits) + few, s.words + s.bytes, s.bytes), stale) ==
            PrintFrom(v, blocks, 0, 0, Streams(pad + K.BytesBits(stale), [], s.bytes))
  {
    var s := PrintFrom(v, blocks, 0, 0, Streams(pad, [], []));
    var rest := Streams(pad + K.BytesBits(stale), [], s.bytes);
    WordsThenFew(s.bits, few);
    PrintsBefore(v, blocks, 0, 0, Streams(pad, [], []));
    PrintsBefore(v, blocks, 0, 0, rest);
    hide PrintFrom, Alone, K.WordsBits, K.PackWords, K.BytesBits;
    PutTogether(Alone(v, blocks, 0, 0), pad, K.BytesBits(stale));
  }

  lemma PutTogether(a: Streams, pad: Bits, old_: Bits)
    ensures var s := Append(a, Streams(pad, [], []));
            Streams(s.bits + old_, s.bytes, s.words + s.bytes) == Append(a, Streams(pad + old_, [], s.bytes))
  {
    assert a.bits + pad + old_ == a.bits + (pad + old_);
    assert a.bytes + [] == a.bytes && a.words + [] == a.words;
  }

  /**
   A printed delta packet decodes to its blocks, in every version, whatever pads the type codes and whatever the buffer
   held before. Nothing is left over but padding, and the byte stream behind the words.
   */
  lemma DeltaPacketRoundTrip(v: Video, blocks: Blocks, pad: Bits, few: seq<Byte>, front: seq<Byte>, stale: seq<Byte>)
    requires WholeBlocks(v) && LegalFrame(v, blocks) && |front| == 8
    requires Printable(v, PrintFrom(v, blocks, 0, 0, Streams(pad, [], [])), few)
    ensures var s := PrintFrom(v, blocks, 0, 0, Streams(pad, [], []));
            var p := PrintDelta(v, s, few, front);
            |p.buf| <= INT_MAX &&
            DecodeDelta(v, p.buf, p.frontBits, p.frontWords, stale) ==
            FrameParsed(Ahead(v, blocks, 0, 0), Streams(pad + K.BytesBits(stale), [], s.bytes))
  {
    var s := PrintFrom(v, blocks, 0, 0, Streams(pad, [], []));
    CutDelta(v, s, few, front);
    StreamsRead(v, blocks, pad, few, stale);
    hide PrintDelta, CutPacket, PrintFrom, ParseFrom, LegalFrame, Printable, GoodTables, Ahead, StreamsOf;
    ParsePrintedFrame(v, blocks, 0, 0, Streams(pad + K.BytesBits(stale), [], s.bytes));
  }
}
