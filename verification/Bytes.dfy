/** Bytes and little-endian words. */
module Bytes {
  type Byte = b: nat | b < 0x100

  type Word16 = w: nat | w < 0x10000

  function Le16(lo: Byte, hi: Byte): Word16 {
    lo + 0x100 * hi
  }

  /** The first byte is the low one. */
  lemma Le16Bytes(lo: Byte, hi: Byte)
    ensures Le16(lo, hi) % 0x100 == lo && Le16(lo, hi) / 0x100 == hi
  {
  }

  function LowByte(w: Word16): Byte { w % 0x100 }

  function HighByte(w: Word16): Byte { w / 0x100 }

  /** A word as it lies in a byte stream. */
  function WordBytes(w: Word16): (s: seq<Byte>)
    ensures |s| == 2 && Le16(s[0], s[1]) == w
  {
    [LowByte(w), HighByte(w)]
  }

  /** The same value n times. */
  function Repeat<T>(n: nat, x: T): (r: seq<T>)
    ensures |r| == n && forall i :: 0 <= i < n ==> r[i] == x
  {
    if n == 0 then [] else [x] + Repeat(n - 1, x)
  }

  const UINT32: nat := 0x1_0000_0000

  const INT_MAX: nat := 0x7fff_ffff

  /** Little-endian 32-bit number at a place of a byte stream. */
  function Le32(s: seq<Byte>, i: nat): (t: nat)
    requires i + 4 <= |s|
    ensures t < UINT32
  {
    var b0: nat, b1: nat, b2: nat, b3: nat := s[i], s[i + 1], s[i + 2], s[i + 3];
    b0 + 0x100 * b1 + 0x1_0000 * b2 + 0x100_0000 * b3
  }

  /** The same number as bytes. */
  function Le32Bytes(v: nat): (s: seq<Byte>)
    requires v < UINT32
    ensures |s| == 4 && Le32(s, 0) == v
  {
    var q1, q2 := v / 0x100, v / 0x100 / 0x100;
    assert v == v % 0x100 + 0x100 * (q1 % 0x100) + 0x1_0000 * (q2 % 0x100) + 0x100_0000 * (q2 / 0x100);
    [v % 0x100, q1 % 0x100, q2 % 0x100, q2 / 0x100]
  }

  /** Byte after byte from the low end. */
  lemma Le32Digits(s: seq<Byte>, i: nat)
    requires i + 4 <= |s|
    ensures var t := Le32(s, i);
            s[i] == t % 0x100 && s[i + 1] == t / 0x100 % 0x100 && s[i + 2] == t / 0x1_0000 % 0x100 && s[i + 3] == t / 0x100_0000
  {
    var b0: nat, b1: nat, b2: nat, b3: nat := s[i], s[i + 1], s[i + 2], s[i + 3];
    var t := Le32(s, i);
    assert t / 0x100 == b1 + 0x100 * (b2 + 0x100 * b3);
    assert t / 0x1_0000 == b2 + 0x100 * b3;
  }

  /** A number depends on its own four bytes only. */
  lemma SameWord(s: seq<Byte>, i: nat, w: seq<Byte>)
    requires |w| == 4 && i + 4 <= |s| && forall k :: 0 <= k < 4 ==> s[i + k] == w[k]
    ensures Le32(s, i) == Le32(w, 0)
  {
    assert s[i + 0] == w[0] && s[i + 1] == w[1] && s[i + 2] == w[2] && s[i + 3] == w[3];
  }

  /** Four bytes are the bytes of the number they make. */
  lemma WordAt(s: seq<Byte>, i: nat)
    requires i + 4 <= |s|
    ensures Le32Bytes(Le32(s, i)) == s[i..i + 4]
  {
    var b0: nat, b1: nat, b2: nat, b3: nat := s[i], s[i + 1], s[i + 2], s[i + 3];
    var v := Le32(s, i);
    assert v == b0 + 0x100 * (b1 + 0x100 * (b2 + 0x100 * b3));
    assert v / 0x100 == b1 + 0x100 * (b2 + 0x100 * b3) && v % 0x100 == b0;
    assert v / 0x100 / 0x100 == b2 + 0x100 * b3;
  }
}
