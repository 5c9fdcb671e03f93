/** How decode_p_frame cuts a packet into its three streams, in unsigned 32-bit arithmetic. */
module FourXmPHeader {
  import opened Bytes
  import opened PrefixCodes

  /** Subtraction on 32 bits. */
  function Sub(a: nat, b: nat): (r: nat)
    ensures r < UINT32
  {
    (a - b) % UINT32
  }

  /** Sizes of the three streams, and of the header before them. */
  datatype Sizes = Sizes(extra: nat, bits: nat, words: nat, bytes: nat)

  /**
   From version 2 on the sizes lie in the packet; before, two lie in front of it and the third is what is left,
   which the maximum with 0 was meant to keep from going negative.
   */
  function ReadSizes(newer: bool, buf: seq<Byte>, frontBits: Word16, frontWords: Word16): Option<Sizes>
    requires |buf| <= INT_MAX
  {
    if newer then
      if |buf| < 20 then None else Some(Sizes(20, Le32(buf, 8), Le32(buf, 12), Le32(buf, 16)))
    else
      var rest := Sub(Sub(|buf|, frontBits), frontWords);
      Some(Sizes(0, frontBits, frontWords, if rest > 0 then rest else 0))
  }

  /** The test on the sizes, with its own wrap-around. */
  predicate Rejected(z: Sizes, length: nat) {
    z.bits > length || z.bits >= INT_MAX / 8 ||
    z.bytes > Sub(length, z.bits) ||
    z.words > Sub(Sub(length, z.bytes), z.bits) ||
    z.extra > Sub(Sub(Sub(length, z.bytes), z.bits), z.words)
  }

  /** Streams by their places in the packet: both byte readers run to its end. */
  datatype Cut = Cut(bits: seq<Byte>, words: seq<Byte>, bytes: seq<Byte>)

  function CutPacket(newer: bool, buf: seq<Byte>, frontBits: Word16, frontWords: Word16): (r: Option<Cut>)
    requires |buf| <= INT_MAX
  {
    match ReadSizes(newer, buf, frontBits, frontWords)
    case None => None
    case Some(z) =>
      if Rejected(z, |buf|) then None
      else
        Fits(z, |buf|);
        Some(Cut(buf[z.extra..z.extra + z.bits], buf[z.extra + z.bits..], buf[z.extra + z.bits + z.words..]))
  }

  /** The wrapping test accepts exactly sizes that fit as integers. */
  lemma Fits(z: Sizes, length: nat)
    requires length <= INT_MAX && z.bits < UINT32 && z.words < UINT32 && z.bytes < UINT32 && z.extra <= 20
    ensures Rejected(z, length) <==> z.extra + z.bits + z.words + z.bytes > length || z.bits >= INT_MAX / 8
  {
    if z.bits <= length {
      assert Sub(length, z.bits) == length - z.bits;
      if z.bytes <= length - z.bits {
        assert Sub(length, z.bytes) == length - z.bytes && Sub(length - z.bytes, z.bits) == length - z.bytes - z.bits;
        if z.words <= length - z.bytes - z.bits {
          assert Sub(length - z.bytes - z.bits, z.words) == length - z.bytes - z.bits - z.words;
        }
      }
    }
  }

  /**
   Before version 2 the maximum with 0 never takes effect: a difference below 0 wraps around instead, and the test
   rejects exactly those packets.
   */
  lemma OldSizesIff(buf: seq<Byte>, frontBits: Word16, frontWords: Word16)
    requires |buf| <= INT_MAX
    ensures CutPacket(false, buf, frontBits, frontWords).Some? <==> frontBits + frontWords <= |buf|
    ensures frontBits + frontWords > |buf| ==> ReadSizes(false, buf, frontBits, frontWords).value.bytes > INT_MAX
  {
    var z := ReadSizes(false, buf, frontBits, frontWords).value;
    Fits(z, |buf|);
    if frontBits <= |buf| {
      assert Sub(|buf|, frontBits) == |buf| - frontBits;
      assert frontBits + frontWords > |buf| ==> z.bytes == |buf| - frontBits - frontWords + UINT32;
    } else {
      assert Sub(|buf|, frontBits) == |buf| - frontBits + UINT32;
      assert z.bytes == |buf| - frontBits - frontWords + UINT32;
    }
  }

  /** A packet as an encoder writes it; the first eight bytes are not looked at. */
  function PrintPacket(front: seq<Byte>, bits: seq<Byte>, words: seq<Byte>, bytes: seq<Byte>): seq<Byte>
    requires |front| == 8 && |bits| < UINT32 && |words| < UINT32 && |bytes| < UINT32
  {
    front + Le32Bytes(|bits|) + Le32Bytes(|words|) + Le32Bytes(|bytes|) + bits + words + bytes
  }

  /**
   A printed packet is cut where its streams begin; the word stream is followed by the byte stream, which ends the
   packet.
   */
  lemma CutPrinted(front: seq<Byte>, bits: seq<Byte>, words: seq<Byte>, bytes: seq<Byte>, frontBits: Word16,
                   frontWords: Word16)
    requires |front| == 8 && |bits| < INT_MAX / 8 && 20 + |bits| + |words| + |bytes| <= INT_MAX
    ensures CutPacket(true, PrintPacket(front, bits, words, bytes), frontBits, frontWords) == Some(Cut(bits, words + bytes, bytes))
  {
    hide Le32, Le32Bytes, Rejected;
    var head := front + Le32Bytes(|bits|) + Le32Bytes(|words|) + Le32Bytes(|bytes|);
    var buf := PrintPacket(front, bits, words, bytes);
    assert buf == head + bits + words + bytes && |head| == 20;
    HeaderRead(front, |bits|, |words|, |bytes|, bits + words + bytes);
    assert buf == head + (bits + words + bytes);
    Fits(Sizes(20, |bits|, |words|, |bytes|), |buf|);
    assert buf[20..20 + |bits|] == bits && buf[20 + |bits|..] == words + bytes && buf[20 + |bits| + |words|..] == bytes;
  }

  lemma HeaderRead(front: seq<Byte>, a: nat, b: nat, c: nat, rest: seq<Byte>)
    requires |front| == 8 && a < UINT32 && b < UINT32 && c < UINT32
    ensures var s := front + Le32Bytes(a) + Le32Bytes(b) + Le32Bytes(c) + rest;
            |s| >= 20 && Le32(s, 8) == a && Le32(s, 12) == b && Le32(s, 16) == c
  {
    hide Le32Bytes;
    var s := front + Le32Bytes(a) + Le32Bytes(b) + Le32Bytes(c) + rest;
    SameWord(s, 8, Le32Bytes(a));
    SameWord(s, 12, Le32Bytes(b));
    SameWord(s, 16, Le32Bytes(c));
  }
}
