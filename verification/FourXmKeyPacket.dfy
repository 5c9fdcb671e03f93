/**
 decode_i_frame: how a key packet is cut into the raw stream, the weight table and the prefix stream, and what comes
 out of a packet that an encoder printed.
 */
module FourXmKeyPacket {
  import opened Bytes
  import opened HuffmanForest
  import opened HuffmanTables
  import opened HuffmanDecoder
  import opened PrefixCodes
  import opened Sums
  import opened FourXmIBlock
  import opened FourXmIBlockDecoder
  import opened FourXmKeyFrame

  const MAX_STREAM: nat := 0x400_0000

  // ---------- bits in bytes

  lemma WordSizes()
    ensures Pow2(8) == 0x100 && Pow2(32) == UINT32
  {
    assert Pow2(8) == 0x100;
    assert Pow2(16) == 0x1_0000;
    assert Pow2(24) == 0x100_0000;
    assert Pow2(32) == UINT32;
  }

  lemma {:induction false} BitsOfValue(c: Bits)
    ensures BitsValue(c) < Pow2(|c|) && ToBits(BitsValue(c), |c|) == c
  {
    if c != [] {
      var n := |c| - 1;
      BitsOfValue(c[..n]);
      assert c == c[..n] + [c[n]];
    }
  }

  function ByteBits(b: Byte): (c: Bits)
    ensures |c| == 8
  {
    WordSizes();
    ToBits(b, 8)
  }

  function WordBits(w: nat): (c: Bits)
    requires w < UINT32
    ensures |c| == 32
  {
    WordSizes();
    ToBits(w, 32)
  }

  function PackByte(c: Bits): (b: Byte)
    requires |c| == 8
    ensures ByteBits(b) == c
  {
    WordSizes();
    BitsOfValue(c);
    BitsValue(c)
  }

  function PackWord(c: Bits): (w: nat)
    requires |c| == 32
    ensures w < UINT32 && WordBits(w) == c
  {
    WordSizes();
    BitsOfValue(c);
    BitsValue(c)
  }

  /** The raw stream is read byte by byte, most significant bit first. */
  function BytesBits(s: seq<Byte>): (c: Bits)
    ensures |c| == 8 * |s|
  {
    if s == [] then [] else ByteBits(s[0]) + BytesBits(s[1..])
  }

  /** The prefix stream is read in 32-bit words whose bytes were swapped first. */
  function WordsBits(s: seq<Byte>): Bits {
    if |s| < 4 then [] else WordBits(Le32(s, 0)) + WordsBits(s[4..])
  }

  /** Words with their bytes turned round. */
  function Swapped(s: seq<Byte>): seq<Byte> {
    if |s| < 4 then [] else [s[3], s[2], s[1], s[0]] + Swapped(s[4..])
  }

  lemma {:induction false} ValueOfBoth(c: Bits, d: Bits)
    ensures BitsValue(c + d) == BitsValue(c) * Pow2(|d|) + BitsValue(d)
  {
    if d == [] {
      assert c + d == c;
    } else {
      var n := |d| - 1;
      ValueOfBoth(c, d[..n]);
      assert (c + d)[..|c| + n] == c + d[..n] && (c + d)[|c| + n] == d[n];
      TwiceProduct(BitsValue(c), Pow2(n));
    }
  }

  lemma TwiceProduct(a: nat, p: nat)
    ensures a * (2 * p) == 2 * (a * p)
  {
  }

  lemma ByteInFront(b: Byte, d: Bits, unit: nat)
    requires unit == Pow2(|d|)
    ensures BitsValue(ByteBits(b) + d) == b * unit + BitsValue(d)
  {
    WordSizes();
    ValueOfBoth(ByteBits(b), d);
    hide ToBits;
  }

  lemma WordOfValue(c: Bits)
    requires |c| == 32
    ensures BitsValue(c) < UINT32 && WordBits(BitsValue(c)) == c
  {
    WordSizes();
    BitsOfValue(c);
  }

  lemma ByteOfValue(b: Byte)
    ensures BitsValue(ByteBits(b)) == b
  {
    WordSizes();
  }

  lemma WordIsSwapped(s: seq<Byte>)
    requires |s| >= 4
    ensures WordBits(Le32(s, 0)) == ByteBits(s[3]) + (ByteBits(s[2]) + (ByteBits(s[1]) + ByteBits(s[0])))
  {
    WordSizes();
    assert Pow2(16) == 0x1_0000 && Pow2(24) == 0x100_0000;
    hide ByteBits, WordBits, Pow2, BitsValue;
    var d0 := ByteBits(s[0]);
    var d1 := ByteBits(s[1]) + d0;
    var d2 := ByteBits(s[2]) + d1;
    var d3 := ByteBits(s[3]) + d2;
    ByteOfValue(s[0]);
    ByteInFront(s[1], d0, 0x100);
    ByteInFront(s[2], d1, 0x1_0000);
    ByteInFront(s[3], d2, 0x100_0000);
    WordOfValue(d3);
  }

  lemma FourBytes(a: Byte, b: Byte, c: Byte, d: Byte, more: seq<Byte>)
    ensures BytesBits([a, b, c, d] + more) ==
            (ByteBits(a) + (ByteBits(b) + (ByteBits(c) + ByteBits(d)))) + BytesBits(more)
  {
    hide ByteBits, BytesBits;
    assert [a, b, c, d] + more == [a] + ([b] + ([c] + ([d] + more)));
    OneByte(a, [b] + ([c] + ([d] + more)));
    OneByte(b, [c] + ([d] + more));
    OneByte(c, [d] + more);
    OneByte(d, more);
    FourInFront(ByteBits(a), ByteBits(b), ByteBits(c), ByteBits(d), BytesBits(more));
  }

  lemma FourInFront(a: Bits, b: Bits, c: Bits, d: Bits, e: Bits)
    ensures a + (b + (c + (d + e))) == (a + (b + (c + d))) + e
  {
  }

  lemma OneByte(a: Byte, more: seq<Byte>)
    ensures BytesBits([a] + more) == ByteBits(a) + BytesBits(more)
  {
    hide ByteBits;
    assert ([a] + more)[1..] == more;
  }

  /** The prefix stream is the bytes with those of each word turned round, read like the raw stream. */
  lemma {:induction false} WordsAreSwapped(s: seq<Byte>)
    ensures WordsBits(s) == BytesBits(Swapped(s))
  {
    hide WordBits, ByteBits, Le32;
    if |s| >= 4 {
      WordsAreSwapped(s[4..]);
      WordIsSwapped(s);
      FourBytes(s[3], s[2], s[1], s[0], Swapped(s[4..]));
    }
  }

  function PackBytes(c: Bits): (s: seq<Byte>)
    requires |c| % 8 == 0
    ensures 8 * |s| == |c|
  {
    if c == [] then [] else [PackByte(c[..8])] + PackBytes(c[8..])
  }

  function PackWords(c: Bits): (s: seq<Byte>)
    requires |c| % 32 == 0
    ensures 8 * |s| == |c| && |s| % 4 == 0
  {
    if c == [] then [] else Le32Bytes(PackWord(c[..32])) + PackWords(c[32..])
  }

  lemma {:induction false} BytesRoundTrip(c: Bits)
    requires |c| % 8 == 0
    ensures BytesBits(PackBytes(c)) == c
  {
    hide ByteBits, PackByte;
    if c != [] {
      BytesRoundTrip(c[8..]);
      assert PackBytes(c)[1..] == PackBytes(c[8..]);
      assert c == c[..8] + c[8..];
    }
  }

  lemma {:induction false} WordsRoundTrip(c: Bits)
    requires |c| % 32 == 0
    ensures WordsBits(PackWords(c)) == c
  {
    hide WordBits, PackWord, Le32, Le32Bytes;
    if c != [] {
      var s, w := PackWords(c), Le32Bytes(PackWord(c[..32]));
      WordsRoundTrip(c[32..]);
      assert s[4..] == PackWords(c[32..]);
      SameWord(s, 0, w);
      assert c == c[..32] + c[32..];
    }
  }

  // ---------- the packet

  /** The raw stream, and the weight table together with the prefix stream behind it. */
  datatype Parts = Parts(raw: seq<Byte>, tables: seq<Byte>)

  /** The size tests in unsigned 32-bit arithmetic. */
  function CutKey(buf: seq<Byte>): Option<Parts>
    requires 4 <= |buf| <= INT_MAX
  {
    var n := Le32(buf, 0);
    if n > MAX_STREAM || |buf| < n + 12 then None
    else
      var m := 4 * Le32(buf, n + 4) % UINT32;
      if (m + n + 12) % UINT32 != |buf| || m > MAX_STREAM then None
      else Some(Parts(buf[4..4 + n], buf[n + 12..]))
  }

  predicate Fitting(p: Parts) {
    |p.raw| <= MAX_STREAM && |p.tables| <= MAX_STREAM && |p.tables| % 4 == 0
  }

  /** A key packet; neither the two topmost bits of the second size nor the four bytes behind it matter. */
  function PrintKey(p: Parts, top: nat, gap: seq<Byte>): (buf: seq<Byte>)
    requires Fitting(p) && top < 4 && |gap| == 4
    ensures |buf| == |p.raw| + |p.tables| + 12
  {
    Le32Bytes(|p.raw|) + p.raw + Le32Bytes(|p.tables| / 4 + 0x4000_0000 * top) + gap + p.tables
  }

  lemma CutPrintedKey(p: Parts, top: nat, gap: seq<Byte>)
    requires Fitting(p) && top < 4 && |gap| == 4
    ensures CutKey(PrintKey(p, top, gap)) == Some(p)
  {
    hide Le32, Le32Bytes;
    var buf, n, k := PrintKey(p, top, gap), |p.raw|, |p.tables| / 4 + 0x4000_0000 * top;
    SameWord(buf, 0, Le32Bytes(n));
    SameWord(buf, n + 4, Le32Bytes(k));
    assert 4 * k == |p.tables| + UINT32 * top;
    assert buf[4..4 + n] == p.raw && buf[n + 12..] == p.tables;
  }

  lemma PrintCutKey(buf: seq<Byte>) returns (top: nat, gap: seq<Byte>)
    requires 4 <= |buf| <= INT_MAX && CutKey(buf).Some?
    ensures Fitting(CutKey(buf).value) && top < 4 && |gap| == 4 && buf == PrintKey(CutKey(buf).value, top, gap)
  {
    hide Le32, Le32Bytes;
    var n := Le32(buf, 0);
    var k := Le32(buf, n + 4);
    var p := CutKey(buf).value;
    top, gap := k / 0x4000_0000, buf[n + 8..n + 12];
    assert 4 * k % UINT32 == 4 * (k % 0x4000_0000);
    WordAt(buf, 0);
    WordAt(buf, n + 4);
    assert buf == buf[0..4] + buf[4..4 + n] + buf[n + 4..n + 8] + gap + buf[n + 12..];
  }

  /** The size tests accept exactly the printed packets, and cut them where they were put together. */
  lemma CutsIff(buf: seq<Byte>, p: Parts)
    requires 4 <= |buf| <= INT_MAX
    ensures CutKey(buf) == Some(p) <==>
            Fitting(p) && exists top: nat, gap :: top < 4 && |gap| == 4 && buf == PrintKey(p, top, gap)
  {
    hide CutKey, PrintKey;
    if CutKey(buf) == Some(p) {
      var top, gap := PrintCutKey(buf);
    }
    if Fitting(p) {
      forall top: nat, gap: seq<Byte> | top < 4 && |gap| == 4 && buf == PrintKey(p, top, gap)
        ensures CutKey(buf) == Some(p)
      {
        CutPrintedKey(p, top, gap);
      }
    }
  }

  // ---------- the weight table in front of the prefix stream

  /** The ranges, anything up to the next multiple of four, and the prefix stream. */
  function PrintTables(rs: seq<Range>, filler: seq<Byte>, stream: seq<Byte>): seq<Byte>
    requires |filler| == Padding(|PrintRanges(rs)|)
  {
    PrintRanges(rs) + filler + stream
  }

  lemma RangesAreWeights(rs: seq<Range>)
    requires Printable(rs)
    ensures SymbolWeights(ApplyRanges(NoWeights(), rs)[256 := 1])
  {
    hide ParseRanges, ApplyRanges, NoWeights;
    PrintOne(rs, []);
    RangesRoundTrip(rs, [], NoWeights());
    ParsedRangesAreBytes((PrintRanges(rs) + [])[2..], rs[0].start, rs[0].end, NoWeights());
  }

  /** The weights that ranges stand for. */
  ghost function RangeWeights(rs: seq<Range>): (f: seq<nat>)
    requires Printable(rs)
    ensures SymbolWeights(f)
  {
    RangesAreWeights(rs);
    ApplyRanges(NoWeights(), rs)[256 := 1]
  }

  lemma TablesRoundTrip(rs: seq<Range>, filler: seq<Byte>, stream: seq<Byte>)
    requires Printable(rs) && |filler| == Padding(|PrintRanges(rs)|)
    ensures ParseWeights(PrintTables(rs, filler, stream)) == Some(Weights(RangeWeights(rs), stream))
  {
    hide ParseRanges, ApplyRanges, NoWeights, SymbolWeights;
    var s, buf := PrintRanges(rs), PrintTables(rs, filler, stream);
    PrintOne(rs, filler + stream);
    assert buf == s + (filler + stream);
    RangesRoundTrip(rs, filler + stream, NoWeights());
    assert buf[|s|..] == filler + stream && buf[|s| + |filler|..] == stream;
    FinishAt(buf, |s|, ApplyRanges(NoWeights(), rs));
  }

  // ---------- a whole key frame

  /** How decoding ended, the blocks decoded until then, and whether the end mark follows the last one. */
  datatype KeyFrame = KeyFrame(status: Status, blocks: seq<seq<int>>, marked: bool)

  ghost function DecodePicture(words: seq<Bits>, n: nat, pre: Bits, raw: Bits): KeyFrame {
    var p := DecodeBlocks(words, n, pre, raw, 0);
    KeyFrame(p.status, p.blocks, p.status == Ok && ReadSymbol(words, p.pre) == Some(END_MARK))
  }

  /** A key frame of `n` blocks, from packet to coefficients; none if the packet is refused before the first block. */
  ghost function DecodeKey(buf: seq<Byte>, n: nat): Option<KeyFrame>
    requires 4 <= |buf| <= INT_MAX
  {
    match CutKey(buf)
    case None => None
    case Some(p) =>
      ParsedWeights(p.tables);
      match ParseWeights(p.tables)
      case None => None
      case Some(w) => Some(DecodePicture(SymbolWords(w.freq), n, WordsBits(w.rest), BytesBits(p.raw)))
  }

  /** Weights that give every symbol of the blocks a word. */
  ghost predicate Codes(f: seq<nat>, qs: seq<seq<int>>) {
    SymbolWeights(f) && 2 <= LiveCount(f) <= 256 && Weighted(f, qs)
  }

  lemma LevelsOf(f: seq<nat>, qs: seq<seq<int>>)
    requires Codes(f, qs)
    ensures forall i :: 0 <= i < |qs| ==> Levels(qs[i])
  {
  }

  lemma CodesAll(f: seq<nat>, qs: seq<seq<int>>)
    requires Codes(f, qs)
    ensures Codable(SymbolWords(f), qs)
  {
    KeyFrameRoundTrip(f, qs, [], [false, false]);
  }

  /** The prefix stream: behind the blocks it goes on with the end mark. */
  ghost function PreBits(f: seq<nat>, qs: seq<seq<int>>, pre: Bits): Bits
    requires Codes(f, qs)
  {
    CodesAll(f, qs);
    PicturePre(SymbolWords(f), qs) + (SymbolWords(f)[END_MARK] + pre)
  }

  /** Both streams of a key frame fill whole words and bytes, the raw one with two bits to spare. */
  ghost predicate Streams(f: seq<nat>, qs: seq<seq<int>>, pre: Bits, raw: Bits) {
    && Codes(f, qs)
    && |PreBits(f, qs, pre)| % 32 == 0 && |raw| >= 2 && |PictureRaw(qs) + raw| % 8 == 0
  }

  ghost function KeyParts(rs: seq<Range>, filler: seq<Byte>, qs: seq<seq<int>>, pre: Bits, raw: Bits): Parts
    requires Printable(rs) && |filler| == Padding(|PrintRanges(rs)|) && Streams(RangeWeights(rs), qs, pre, raw)
  {
    Parts(PackBytes(PictureRaw(qs) + raw), PrintTables(rs, filler, PackWords(PreBits(RangeWeights(rs), qs, pre))))
  }

  lemma DecodesAs(buf: seq<Byte>, n: nat, p: Parts, w: Weights)
    requires 4 <= |buf| <= INT_MAX && CutKey(buf) == Some(p) && ParseWeights(p.tables) == Some(w)
    requires SymbolWeights(w.freq)
    ensures DecodeKey(buf, n) == Some(DecodePicture(SymbolWords(w.freq), n, WordsBits(w.rest), BytesBits(p.raw)))
  {
  }

  lemma PictureDecodes(f: seq<nat>, qs: seq<seq<int>>, pre: Bits, raw: Bits)
    requires Codes(f, qs) && |raw| >= 2
    ensures DecodePicture(SymbolWords(f), |qs|, PreBits(f, qs, pre), PictureRaw(qs) + raw)
         == KeyFrame(Ok, PictureBlocks(qs, 0), true)
  {
    KeyFrameRoundTrip(f, qs, pre, raw);
  }

  /**
   From packet to blocks: weight ranges, alignment, both streams and the sizes as printed give back every block and the
   end mark. The weights, the bytes in between and the bits behind the blocks are free.
   */
  lemma KeyPacketRoundTrip(rs: seq<Range>, filler: seq<Byte>, top: nat, gap: seq<Byte>, qs: seq<seq<int>>, pre: Bits,
                           raw: Bits)
    requires Printable(rs) && |filler| == Padding(|PrintRanges(rs)|) && top < 4 && |gap| == 4
    requires Streams(RangeWeights(rs), qs, pre, raw) && Fitting(KeyParts(rs, filler, qs, pre, raw))
    ensures DecodeKey(PrintKey(KeyParts(rs, filler, qs, pre, raw), top, gap), |qs|)
         == Some(KeyFrame(Ok, PictureBlocks(qs, 0), true))
  {
    hide CutKey, PrintKey, ParseWeights, PrintTables, PackBytes, PackWords, DecodeKey, DecodePicture, PreBits, RangeWeights;
    hide SymbolWords, SymbolWeights, Weighted, Printable, PrintRanges, PictureRaw, WordsBits, BytesBits, PictureBlocks;
    var f, p := RangeWeights(rs), KeyParts(rs, filler, qs, pre, raw);
    var bits := PreBits(f, qs, pre);
    CutPrintedKey(p, top, gap);
    TablesRoundTrip(rs, filler, PackWords(bits));
    DecodesAs(PrintKey(p, top, gap), |qs|, p, Weights(f, PackWords(bits)));
    WordsRoundTrip(bits);
    LevelsOf(f, qs);
    BytesRoundTrip(PictureRaw(qs) + raw);
    PictureDecodes(f, qs, pre, raw);
  }

  // ---------- every picture has a packet

  /** Never needed: a run of one zero without a level. */
  const UNUSED: nat := 0x10

  /** Weight 1 for every byte but that one. */
  function AllButUnused(): (rs: seq<Range>)
    ensures Printable(rs)
  {
    [Range(0, 15, seq(16, i => 1)), Range(17, 255, seq(239, i => 1))]
  }

  lemma LevelSymbolIsUsed(q: seq<int>, i: nat)
    requires Levels(q) && i < 64 && ZeroRun(q, i) < 16 && i + ZeroRun(q, i) < 64
    ensures var code := 16 * ZeroRun(q, i) + Category(Abs(q[i + ZeroRun(q, i)])); code < 256 && code != UNUSED
  {
    var v := Abs(q[i + ZeroRun(q, i)]);
    assert v > 0 && Category(v) > 0;
    CategoryFits(v);
  }

  lemma {:induction false} AcSymbolsAreUsed(q: seq<int>, i: nat, k: nat)
    requires Levels(q) && i <= 64 && k < |AcSymbols(q, i)|
    ensures AcSymbols(q, i)[k] < 256 && AcSymbols(q, i)[k] != UNUSED
    decreases 64 - i
  {
    assert |q| == 64;
    hide Category, Abs, Levels;
    var r := ZeroRun(q, i);
    if i + r < 64 {
      if k > 0 {
        AcSymbolsAreUsed(q, if r >= 16 then i + 16 else i + r + 1, k - 1);
      } else if r < 16 {
        LevelSymbolIsUsed(q, i);
      }
    }
  }

  lemma BlockSymbolsAreUsed(q: seq<int>, k: nat)
    requires Levels(q) && k < |BlockSymbols(q)|
    ensures BlockSymbols(q)[k] < 256 && BlockSymbols(q)[k] != UNUSED
  {
    hide Category, AcSymbols;
    if k == 0 {
      CategoryFits(Abs(q[0]));
    } else {
      AcSymbolsAreUsed(q, 1, k - 1);
    }
  }

  lemma WeightsButUnused()
    ensures forall x :: 0 <= x < SYMBOLS && x != UNUSED ==> RangeWeights(AllButUnused())[x] == 1
    ensures forall x :: 0 <= x < NODES && (x == UNUSED || x >= SYMBOLS) ==> RangeWeights(AllButUnused())[x] == 0
  {
    var rs := AllButUnused();
    var f := ApplyRange(NoWeights(), rs[0]);
    assert rs[1..] == [rs[1]] && rs[1..][1..] == [];
    assert ApplyRanges(NoWeights(), rs) == ApplyRange(f, rs[1]);
  }

  lemma LiveButUnused()
    ensures 2 <= LiveCount(RangeWeights(AllButUnused())) <= 256
  {
    hide RangeWeights, AllButUnused, Sum;
    WeightsButUnused();
    var m := LiveMarks(RangeWeights(AllButUnused()));
    TwoTermsAtMostSum(m, 0, 1);
    SumUpdate(m, UNUSED, 1);
    SumDropZeros(m[UNUSED := 1], SYMBOLS);
    SumAtMost(m[UNUSED := 1][..SYMBOLS], 1);
  }

  lemma CodesEveryPicture(qs: seq<seq<int>>)
    requires forall i :: 0 <= i < |qs| ==> Levels(qs[i])
    ensures Codes(RangeWeights(AllButUnused()), qs)
  {
    var f := RangeWeights(AllButUnused());
    LiveButUnused();
    WeightsButUnused();
    hide RangeWeights, AllButUnused, SymbolWeights, LiveCount, Levels, BlockSymbols;
    forall i | 0 <= i < |qs| ensures Levels(qs[i]) && AllLive(f, BlockSymbols(qs[i])) {
      var symbols := BlockSymbols(qs[i]);
      forall k | 0 <= k < |symbols| ensures symbols[k] < SYMBOLS && f[symbols[k]] > 0 {
        BlockSymbolsAreUsed(qs[i], k);
      }
    }
  }

  /** Bits that fill up a byte. */
  function ByteFill(length: nat): (n: nat)
    ensures n < 8 && (length + n) % 8 == 0
  {
    if length % 8 == 0 then 0 else assert length + (8 - length % 8) == 8 * (length / 8 + 1); 8 - length % 8
  }

  /** Bits that fill up a word. */
  function WordFill(length: nat): (n: nat)
    ensures n < 32 && (length + n) % 32 == 0
  {
    if length % 32 == 0 then 0 else assert length + (32 - length % 32) == 32 * (length / 32 + 1); 32 - length % 32
  }

  lemma LongerPre(f: seq<nat>, qs: seq<seq<int>>, pre: Bits)
    requires Codes(f, qs)
    ensures |PreBits(f, qs, pre)| == |PreBits(f, qs, [])| + |pre|
  {
    CodesAll(f, qs);
    hide PicturePre, SymbolWords, Codes, Codable;
  }

  lemma StreamsFilled(f: seq<nat>, qs: seq<seq<int>>, pre: Bits, fill: Bits)
    requires Codes(f, qs) && forall i :: 0 <= i < |qs| ==> Levels(qs[i])
    requires |PreBits(f, qs, pre)| % 32 == 0 && (|PictureRaw(qs)| + 2 + |fill|) % 8 == 0
    ensures Streams(f, qs, pre, [false, false] + fill)
  {
    hide Codes, PreBits, PictureRaw, Levels;
  }

  /** So whatever the blocks, there are weight ranges and filling bits that make a packet of them. */
  lemma EveryPictureHasStreams(qs: seq<seq<int>>) returns (rs: seq<Range>, filler: seq<Byte>, pre: Bits, raw: Bits)
    requires forall i :: 0 <= i < |qs| ==> Levels(qs[i])
    ensures Printable(rs) && |filler| == Padding(|PrintRanges(rs)|) && Streams(RangeWeights(rs), qs, pre, raw)
    ensures |pre| < 32 && |raw| < 10
  {
    hide *;
    rs := AllButUnused();
    filler := seq(Padding(|PrintRanges(rs)|), i => 0);
    CodesEveryPicture(qs);
    var f := RangeWeights(rs);
    pre := seq(WordFill(|PreBits(f, qs, [])|), i => false);
    LongerPre(f, qs, pre);
    var fill := seq(ByteFill(|PictureRaw(qs)| + 2), i => false);
    raw := [false, false] + fill;
    StreamsFilled(f, qs, pre, fill);
  }

  // ---------- the decoder in place

  /** Blocks left when the loops over the macroblocks of a picture are at (x, y). */
  function BlocksLeft(x: nat, y: nat, width: nat, height: nat): (n: nat)
    decreases height - y, width - x
  {
    if y >= height then 0
    else if x >= width then BlocksLeft(0, y + 16, width, height)
    else 6 + BlocksLeft(x + 16, y, width, height)
  }

  lemma {:induction false} RowCount(x: nat, y: nat, cols: nat, height: nat)
    requires x <= cols && y < height
    ensures BlocksLeft(16 * x, y, 16 * cols, height) == 6 * (cols - x) + BlocksLeft(0, y + 16, 16 * cols, height)
    decreases cols - x
  {
    if x < cols {
      RowCount(x + 1, y, cols, height);
    }
  }

  /** Six blocks for each macroblock of the picture. */
  lemma {:induction false} BlockCount(y: nat, cols: nat, rows: nat)
    requires y <= rows
    ensures BlocksLeft(0, 16 * y, 16 * cols, 16 * rows) == 6 * (cols * (rows - y))
    decreases rows - y
  {
    if y < rows {
      RowCount(0, 16 * y, cols, 16 * rows);
      BlockCount(y + 1, cols, rows);
      assert cols * (rows - y) == cols + cols * (rows - (y + 1));
    }
  }

  function Prepend(blocks: seq<seq<int>>, p: Picture): (q: Picture) {
    p.(blocks := blocks + p.blocks)
  }

  lemma {:induction false} BlocksInTwoParts(words: seq<Bits>, m: nat, n: nat, pre: Bits, raw: Bits, lastDc: int)
    ensures DecodeBlocks(words, m + n, pre, raw, lastDc) ==
            var p := DecodeBlocks(words, m, pre, raw, lastDc);
            if p.status != Ok then p else Prepend(p.blocks, DecodeBlocks(words, n, p.pre, p.raw, p.lastDc))
  {
    hide DecodeBlock;
    if m > 0 {
      var r := DecodeBlock(words, State(pre, raw, Cleared(), lastDc));
      if r.status == Ok {
        BlocksInTwoParts(words, m - 1, n, r.state.pre, r.state.raw, r.state.lastDc);
      }
    }
  }

  lemma NoBlocks(words: seq<Bits>, pre: Bits, raw: Bits, lastDc: int)
    ensures DecodeBlocks(words, 0, pre, raw, lastDc) == Picture(Ok, [], pre, raw, lastDc)
  {
  }

  /** What the decoder would still make of both streams. */
  ghost function Ahead(d: BlockDecoder, n: nat): Picture
    requires d.Valid()
    reads d, d.preGb, d.gb
  {
    DecodeBlocks(d.words, n, d.preGb.Rest(), d.gb.Rest(), d.lastDc)
  }

  /** One block of those still to come, behind others. */
  lemma NextBlock(words: seq<Bits>, n: nat, s: State, blocks: seq<seq<int>>)
    requires n > 0 && s.block == Cleared()
    ensures var r := DecodeBlock(words, s);
            Prepend(blocks, DecodeBlocks(words, n, s.pre, s.raw, s.lastDc)) ==
            if r.status != Ok then Picture(r.status, blocks, r.state.pre, r.state.raw, r.state.lastDc)
            else Prepend(blocks + [r.state.block], DecodeBlocks(words, n - 1, r.state.pre, r.state.raw, r.state.lastDc))
  {
    hide DecodeBlock;
  }

  lemma BlocksOnly(blocks: seq<seq<int>>, pre: Bits, raw: Bits, lastDc: int)
    ensures Prepend(blocks, Picture(Ok, [], pre, raw, lastDc)) == Picture(Ok, blocks, pre, raw, lastDc)
  {
  }

  lemma NothingPrepended(p: Picture)
    ensures Prepend([], p) == p
  {
  }

  /** decode_i_mb: six cleared blocks, up to the first failure. */
  method DecodeIMb(d: BlockDecoder) returns (status: Status, blocks: seq<seq<int>>)
    requires d.Valid()
    modifies d, d.preGb, d.gb
    ensures d.Valid() && Picture(status, blocks, d.preGb.Rest(), d.gb.Rest(), d.lastDc) == old(Ahead(d, 6))
  {
    hide DecodeBlock, DecodeBlocks, Prepend;
    blocks := [];
    status := Ok;
    NothingPrepended(Ahead(d, 6));
    for i := 0 to 6
      invariant d.Valid() && status == Ok && Prepend(blocks, Ahead(d, 6 - i)) == old(Ahead(d, 6))
    {
      var block := new int[64](_ => 0);
      assert block[..] == Cleared();
      NextBlock(d.words, 6 - i, d.View(block), blocks);
      status := d.DecodeIBlock(block);
      if status != Ok {
        return;
      }
      blocks := blocks + [block[..]];
    }
    NoBlocks(d.words, d.preGb.Rest(), d.gb.Rest(), d.lastDc);
    BlocksOnly(blocks, d.preGb.Rest(), d.gb.Rest(), d.lastDc);
  }

  /** The table the VLC builder makes: a word for each symbol of nonzero length. */
  method BuildVlc(lengths: seq<nat>, codes: seq<nat>, ghost words: seq<Bits>) returns (vlc: seq<Bits>)
    requires |lengths| == |codes| == |words|
    requires forall x :: 0 <= x < |words| ==> lengths[x] == |words[x]| && codes[x] == BitsValue(words[x])
    ensures vlc == words
  {
    vlc := [];
    for x := 0 to |lengths|
      invariant vlc == words[..x]
    {
      BitsOfValue(words[x]);
      vlc := vlc + [ToBits(codes[x], lengths[x])];
    }
  }

  /** The loops over the macroblocks. */
  method DecodeMbs(d: BlockDecoder, width: nat, height: nat) returns (status: Status, blocks: seq<seq<int>>)
    requires d.Valid()
    modifies d, d.preGb, d.gb
    ensures d.Valid()
    ensures Picture(status, blocks, d.preGb.Rest(), d.gb.Rest(), d.lastDc) == old(Ahead(d, BlocksLeft(0, 0, width, height)))
  {
    hide DecodeBlocks;
    ghost var goal := Ahead(d, BlocksLeft(0, 0, width, height));
    blocks, status := [], Ok;
    var y := 0;
    while y < height
      invariant d.Valid() && status == Ok && Prepend(blocks, Ahead(d, BlocksLeft(0, y, width, height))) == goal
    {
      var x := 0;
      while x < width
        invariant d.Valid() && status == Ok && Prepend(blocks, Ahead(d, BlocksLeft(x, y, width, height))) == goal
      {
        BlocksInTwoParts(d.words, 6, BlocksLeft(x + 16, y, width, height), d.preGb.Rest(), d.gb.Rest(), d.lastDc);
        var more: seq<seq<int>>;
        status, more := DecodeIMb(d);
        blocks := blocks + more;
        if status != Ok {
          return;
        }
        x := x + 16;
      }
      y := y + 16;
    }
    NoBlocks(d.words, d.preGb.Rest(), d.gb.Rest(), d.lastDc);
  }

  /** The size tests and both cursors. */
  method CutStreams(buf: seq<Byte>) returns (r: Option<Parts>)
    requires 4 <= |buf| <= INT_MAX
    ensures r == CutKey(buf)
  {
    var bitstreamSize := Le32(buf, 0);
    if bitstreamSize > MAX_STREAM {
      return None;
    }
    if |buf| < bitstreamSize + 12 {
      return None;
    }
    var prestreamSize := 4 * Le32(buf, bitstreamSize + 4) % UINT32;
    if (prestreamSize + bitstreamSize + 12) % UINT32 != |buf| || prestreamSize > MAX_STREAM {
      return None;
    }
    return Some(Parts(buf[4..4 + bitstreamSize], buf[bitstreamSize + 12..]));
  }

  /** decode_i_frame up to the transform: sizes, tables, blocks, and the test for the end mark. */
  method DecodeIFrame(buf: seq<Byte>, width: nat, height: nat) returns (r: Option<KeyFrame>)
    requires 4 <= |buf| <= INT_MAX
    ensures r == DecodeKey(buf, BlocksLeft(0, 0, width, height))
  {
    hide CutKey, ParseWeights, SymbolWords, SymbolWeights, DecodeBlocks;
    var cut := CutStreams(buf);
    if cut == None {
      return None;
    }
    var p := cut.value;
    var tables := ReadHuffmanTables(p.tables);
    if tables == None {
      return None;
    }
    var t := tables.value;
    var vlc := BuildVlc(t.lengths, t.codes, SymbolWords(ParseWeights(p.tables).value.freq));
    var preGb := new BitReader(WordsBits(p.tables[t.pos..]));
    var gb := new BitReader(BytesBits(p.raw));
    var d := new BlockDecoder(vlc, preGb, gb);
    var status, blocks := DecodeMbs(d, width, height);
    if status != Ok {
      return Some(KeyFrame(status, blocks, false));
    }
    var mark := preGb.GetVlc(vlc);
    return Some(KeyFrame(Ok, blocks, mark == Some(END_MARK)));
  }
}
