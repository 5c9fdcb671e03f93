/** Reading symbols of a variable-length code from a bit string. Symbols with an empty word are not part of the code. */
module PrefixCodes {

  type Bits = seq<bool>

  datatype Option<+T> = None | Some(value: T)

  /** The number a word spells, most significant bit first: the form VLC table builders expect. */
  function BitsValue(c: Bits): nat {
    if c == [] then 0 else 2 * BitsValue(c[..|c| - 1]) + (if c[|c| - 1] then 1 else 0)
  }

  lemma AppendBit(c: Bits, bit: bool)
    ensures BitsValue(c + [bit]) == 2 * BitsValue(c) + (if bit then 1 else 0)
  {
    assert (c + [bit])[..|c|] == c;
  }

  /** No word of the code begins another one. */
  ghost predicate Decodable(words: seq<Bits>) {
    forall x, y :: 0 <= x < |words| && 0 <= y < |words| && x != y && words[x] != [] && words[y] != [] ==>
      !(words[x] <= words[y])
  }

  /** The symbol whose word comes next, if any. */
  function ReadSymbol(words: seq<Bits>, bits: Bits): (r: Option<nat>)
    ensures r.Some? ==> r.value < |words| && words[r.value] != [] && words[r.value] <= bits
    ensures r.None? ==> forall x :: 0 <= x < |words| && words[x] != [] ==> !(words[x] <= bits)
  {
    if words == [] then None
    else
      var n := |words| - 1;
      var r := ReadSymbol(words[..n], bits);
      assert forall x :: 0 <= x < n ==> words[..n][x] == words[x];
      if r.Some? then r
      else if words[n] != [] && words[n] <= bits then Some(n)
      else None
  }

  lemma ConcatAssociative(a: Bits, b: Bits, c: Bits)
    ensures (a + b) + c == a + (b + c)
  {
  }

  /** Two prefixes of the same string are prefixes of each other, one way or the other. */
  lemma PrefixesNest(p: Bits, q: Bits, s: Bits)
    requires p <= s && q <= s
    ensures p <= q || q <= p
  {
    if |p| <= |q| {
      assert p == s[..|p|] == q[..|p|];
    } else {
      assert q == s[..|q|] == p[..|q|];
    }
  }

  /** A printed symbol is read back, whatever follows it. */
  lemma ReadPrinted(words: seq<Bits>, x: nat, rest: Bits)
    requires Decodable(words) && x < |words| && words[x] != []
    ensures ReadSymbol(words, words[x] + rest) == Some(x)
  {
    var bits := words[x] + rest;
    var r := ReadSymbol(words, bits);
    assert words[x] <= bits;
    PrefixesNest(words[r.value], words[x], bits);
  }

  function EncodeAll(words: seq<Bits>, symbols: seq<nat>): Bits
    requires forall i :: 0 <= i < |symbols| ==> symbols[i] < |words|
  {
    if symbols == [] then [] else words[symbols[0]] + EncodeAll(words, symbols[1..])
  }

  function DecodeAll(words: seq<Bits>, bits: Bits): (r: Option<seq<nat>>)
    decreases |bits|
  {
    if bits == [] then Some([])
    else
      match ReadSymbol(words, bits)
      case None => None
      case Some(x) =>
        match DecodeAll(words, bits[|words[x]|..])
        case None => None
        case Some(tail) => Some([x] + tail)
  }

  /** Decoding the concatenated words of any symbols gives the symbols back. */
  lemma {:induction false} DecodeEncoded(words: seq<Bits>, symbols: seq<nat>)
    requires Decodable(words)
    requires forall i :: 0 <= i < |symbols| ==> symbols[i] < |words| && words[symbols[i]] != []
    ensures DecodeAll(words, EncodeAll(words, symbols)) == Some(symbols)
  {
    if symbols != [] {
      var w, rest := words[symbols[0]], EncodeAll(words, symbols[1..]);
      assert |w + rest| > 0;
      ReadPrinted(words, symbols[0], rest);
      DecodeEncoded(words, symbols[1..]);
      assert (w + rest)[|w|..] == rest;
      assert [symbols[0]] + symbols[1..] == symbols;
    }
  }
}
