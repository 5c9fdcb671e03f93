/** The merging and read-back loops of read_huffman_tables, and what the tables it returns are worth. */
module HuffmanDecoder {
  import opened Sums
  import opened HuffmanForest
  import opened HuffmanCodes
  import opened HuffmanTables
  import opened PrefixCodes
  import opened Bytes

  // ---------- the merging loop

  /**
   What the scan knows after `n` nodes: the two lightest so far, weight and index, the sentinel weight meaning none.
   */
  ghost predicate Scanned(f: seq<nat>, n: nat, m0: nat, m1: nat, s0: nat, s1: nat)
    requires n <= |f|
  {
    && m0 <= m1 <= SENTINEL
    && (m0 == SENTINEL ==> forall k :: 0 <= k < n && f[k] > 0 ==> f[k] >= SENTINEL)
    && (m0 < SENTINEL ==> IsLeast(f, n, s0) && f[s0] == m0)
    && (m0 < SENTINEL == m1 ==> forall k :: 0 <= k < n && f[k] > 0 && k != s0 ==> f[k] >= SENTINEL)
    && (m1 < SENTINEL ==> s1 < n && s1 != s0 && f[s1] == m1 > 0)
    && (m1 < SENTINEL ==> forall k :: 0 <= k < n && f[k] > 0 && k != s0 && k != s1 ==> Before(f, s1, k))
  }

  /** The scan finds exactly the pair that the forest merges next, or that there is none. */
  lemma ScanFindsPair(f: seq<nat>, n: nat, m0: nat, m1: nat, s0: nat, s1: nat)
    requires n <= |f| && Scanned(f, n, m0, m1, s0, s1)
    ensures m1 == SENTINEL <==> !CanMerge(f, n)
    ensures m1 < SENTINEL ==> s0 == Least(f, n) && s1 == Second(f, n) && m0 == f[s0] && m1 == f[s1]
  {
    if m0 < SENTINEL {
      var a := Least(f, n);
      assert a == s0;
      var b := Second(f, n);
      if m1 < SENTINEL {
        assert b == s1;
      }
    }
  }

  /** The inner loop: one scan over the nodes in use. */
  method SmallestTwo(frequency: array<nat>, j: nat) returns (m0: nat, m1: nat, s0: nat, s1: nat)
    requires frequency.Length == NODES && j <= NODES
    ensures Scanned(frequency[..], j, m0, m1, s0, s1)
  {
    m0, m1, s0, s1 := SENTINEL, SENTINEL, 0, 0;
    for i := 0 to j
      invariant Scanned(frequency[..], i, m0, m1, s0, s1)
    {
      if frequency[i] != 0 && frequency[i] < m1 {
        if frequency[i] < m0 {
          m1, s1 := m0, s0;
          m0, s0 := frequency[i], i;
        } else {
          m1, s1 := frequency[i], i;
        }
      }
    }
  }

  /** The writes of one merge. */
  method MergePair(frequency: array<nat>, up: array<int>, flag: array<bool>, j: nat, a: nat, b: nat, weight: nat)
    requires frequency.Length == up.Length == flag.Length == NODES
    requires frequency as object != up as object
    requires a < j < NODES && b < j && a != b && weight == frequency[a] + frequency[b]
    modifies frequency, up, flag
    ensures Forest(frequency[..], up[..], flag[..]) == Merge(old(Forest(frequency[..], up[..], flag[..])), j, a, b)
  {
    frequency[j] := weight;
    flag[a] := false;
    flag[b] := true;
    up[a], up[b] := j, j;
    frequency[a], frequency[b] := 0, 0;
  }

  lemma BuildStep(s: Forest, j: nat)
    requires |s.freq| == |s.up| == |s.flag| == NODES && j < NODES
    ensures Build(s, j) == if CanMerge(s.freq, j) then Build(MergeLeast(s, j), j + 1) else s
  {
  }

  /** The outer loop: merges in place until one node is left or node 511 is used. */
  method MergeAll(frequency: array<nat>, up: array<int>, flag: array<bool>)
    requires frequency.Length == up.Length == flag.Length == NODES
    requires frequency as object != up as object
    modifies frequency, up, flag
    ensures Forest(frequency[..], up[..], flag[..]) == Build(old(Forest(frequency[..], up[..], flag[..])), SYMBOLS)
  {
    ghost var goal := Build(Forest(frequency[..], up[..], flag[..]), SYMBOLS);
    for j := SYMBOLS to NODES
      invariant Build(Forest(frequency[..], up[..], flag[..]), j) == goal
    {
      var min0, min1, a, b := SmallestTwo(frequency, j);
      ghost var s := Forest(frequency[..], up[..], flag[..]);
      ScanFindsPair(s.freq, j, min0, min1, a, b);
      BuildStep(s, j);
      if min1 == SENTINEL {
        return;
      }
      MergePair(frequency, up, flag, j, a, b, min0 + min1);
    }
  }

  // ---------- the read-back loop

  lemma ShiftedBit(u: nat, bit: bool, unit: nat)
    ensures (2 * u + (if bit then 1 else 0)) * unit == u * (2 * unit) + (if bit then unit else 0)
  {
  }

  /** One step towards the root takes the last bit off the word. */
  lemma StepUp(t: Forest, x: nat, unit: nat)
    requires Shape(t, NODES) && x < NODES && t.up[x] != -1
    ensures |CodeOf(t, x)| == |CodeOf(t, t.up[x])| + 1
    ensures Weighed(CodeOf(t, x), unit) == Weighed(CodeOf(t, t.up[x]), 2 * unit) + (if t.flag[x] then unit else 0)
  {
    var rest := CodeOf(t, t.up[x]);
    assert CodeOf(t, x) == rest + [t.flag[x]];
    AppendBit(rest, t.flag[x]);
    ShiftedBit(BitsValue(rest), t.flag[x], unit);
  }

  /** The value of a word whose last bit counts `unit`. */
  function Weighed(c: Code, unit: nat): nat { BitsValue(c) * unit }

  lemma WholeWord(c: Code)
    ensures Weighed(c, 1) == BitsValue(c)
  {
  }

  lemma RootWord(t: Forest, x: nat, unit: nat)
    requires Shape(t, NODES) && x < NODES && t.up[x] == -1
    ensures CodeOf(t, x) == [] && Weighed(CodeOf(t, x), unit) == 0
  {
  }

  /** One symbol: walks from its leaf to the root, collecting bits from the least significant end. */
  method ReadWord(up: array<int>, flag: array<bool>, ghost freq: seq<nat>, j: nat) returns (len: nat, bits: nat)
    requires up.Length == flag.Length == NODES && j < NODES
    requires Shape(Forest(freq, up[..], flag[..]), NODES)
    ensures var w := CodeOf(Forest(freq, up[..], flag[..]), j); len == |w| && bits == BitsValue(w)
  {
    ghost var t := Forest(freq, up[..], flag[..]);
    var node := j;
    len, bits := 0, 0;
    var unit := 1;   // 1 << len
    hide CodeOf, Weighed, BitsValue;
    WholeWord(CodeOf(t, j));
    while up[node] != -1
      invariant node < NODES && unit == Pow2(len)
      invariant len + |CodeOf(t, node)| == |CodeOf(t, j)|
      invariant Weighed(CodeOf(t, node), unit) + bits == BitsValue(CodeOf(t, j))
      decreases NODES - node
    {
      StepUp(t, node, unit);
      bits := bits + if flag[node] then unit else 0;
      len := len + 1;
      unit := 2 * unit;
      node := up[node];
    }
    RootWord(t, node, unit);
  }

  // ---------- the tables

  ghost function Start(f: seq<nat>, flags: seq<bool>): (s: Forest) {
    Forest(f, seq(NODES, i => -1), flags)
  }

  /** The words of the 257 symbols under given weights. */
  ghost function SymbolWords(f: seq<nat>): (w: seq<Code>)
    requires SymbolWeights(f)
    ensures |w| == SYMBOLS
  {
    Words(Start(f, seq(NODES, i => false)), SYMBOLS)[..SYMBOLS]
  }

  /** The merges, hence the words of live nodes, depend on the weights only. */
  lemma {:induction false} SpellingIsUnique(s: Forest, t: Forest, j: nat, v: seq<Code>, w: seq<Code>)
    requires Shape(s, j) && Shape(t, j) && s.freq == t.freq && |v| == |w| == NODES
    requires Spells(s, j, v) && Spells(t, j, w)
    ensures forall x :: 0 <= x < NODES && s.freq[x] > 0 ==> v[x] == w[x]
    decreases NODES - j
  {
    hide MergeLeast, CanMerge, Least, Second;
    if j < NODES && CanMerge(s.freq, j) {
      var a, b := PickedPair(s, j);
      var c, d := PickedPair(t, j);
      MergeKeepsShape(s, j);
      MergeKeepsShape(t, j);
      SpellingIsUnique(MergeLeast(s, j), MergeLeast(t, j), j + 1, v, w);
      assert MergeLeast(s, j).freq[j] > 0;
      assert forall x :: 0 <= x < NODES && s.freq[x] > 0 && x != a && x != b ==> MergeLeast(s, j).freq[x] > 0;
    }
  }

  /** A symbol of weight 0 never gets a parent, so its word is empty. */
  lemma DeadWordsAreEmpty(f: seq<nat>, flags: seq<bool>, x: nat)
    requires SymbolWeights(f) && |flags| == NODES && x < SYMBOLS && f[x] == 0
    ensures Word(Start(f, flags), SYMBOLS, x) == []
  {
    BuildFrame(Start(f, flags), SYMBOLS);
  }

  /** The words of symbols do not depend on what the flag array held at the start. */
  lemma WordsIgnoreOldFlags(f: seq<nat>, flags: seq<bool>)
    requires SymbolWeights(f) && |flags| == NODES
    ensures Words(Start(f, flags), SYMBOLS)[..SYMBOLS] == SymbolWords(f)
  {
    var s, t := Start(f, flags), Start(f, seq(NODES, i => false));
    WordsSpell(s, SYMBOLS);
    WordsSpell(t, SYMBOLS);
    SpellingIsUnique(s, t, SYMBOLS, Words(s, SYMBOLS), Words(t, SYMBOLS));
    forall x | 0 <= x < SYMBOLS ensures Words(s, SYMBOLS)[x] == Words(t, SYMBOLS)[x] {
      if f[x] == 0 {
        DeadWordsAreEmpty(f, flags, x);
        DeadWordsAreEmpty(f, seq(NODES, i => false), x);
      }
    }
  }

  datatype Tables = Tables(lengths: seq<nat>, codes: seq<nat>, pos: nat)

  /** The read-back loop over all symbols. */
  method ReadAllWords(up: array<int>, flag: array<bool>, ghost freq: seq<nat>) returns (lengths: seq<nat>,
                      codes: seq<nat>)
    requires up.Length == flag.Length == NODES
    requires Shape(Forest(freq, up[..], flag[..]), NODES)
    ensures |lengths| == |codes| == SYMBOLS
    ensures forall x :: 0 <= x < SYMBOLS ==> lengths[x] == |CodeOf(Forest(freq, up[..], flag[..]), x)|
    ensures forall x :: 0 <= x < SYMBOLS ==> codes[x] == BitsValue(CodeOf(Forest(freq, up[..], flag[..]), x))
  {
    lengths, codes := [], [];
    for j := 0 to SYMBOLS
      invariant |lengths| == |codes| == j
      invariant forall x :: 0 <= x < j ==> lengths[x] == |CodeOf(Forest(freq, up[..], flag[..]), x)|
      invariant forall x :: 0 <= x < j ==> codes[x] == BitsValue(CodeOf(Forest(freq, up[..], flag[..]), x))
    {
      var len, bits := ReadWord(up, flag, freq, j);
      lengths, codes := lengths + [len], codes + [bits];
    }
  }

  lemma BuiltWords(f: seq<nat>, flags: seq<bool>)
    requires SymbolWeights(f) && |flags| == NODES
    ensures Shape(Build(Start(f, flags), SYMBOLS), NODES)
    ensures forall x :: 0 <= x < SYMBOLS ==> CodeOf(Build(Start(f, flags), SYMBOLS), x) == SymbolWords(f)[x]
  {
    var s := Start(f, flags);
    BuildFrame(s, SYMBOLS);
    WordsIgnoreOldFlags(f, flags);
    forall x | 0 <= x < SYMBOLS ensures CodeOf(Build(s, SYMBOLS), x) == SymbolWords(f)[x] {
      assert Words(s, SYMBOLS)[..SYMBOLS][x] == Word(s, SYMBOLS, x);
    }
  }

  /** read_huffman_tables up to the VLC builder: length and code of all symbols, and where the prefix stream starts. */
  method ReadHuffmanTables(buf: seq<Byte>) returns (r: Option<Tables>)
    ensures r.Some? <==> ParseWeights(buf).Some?
    ensures r.Some? ==> SymbolWeights(ParseWeights(buf).value.freq)
    ensures r.Some? ==> r.value.pos <= |buf| && buf[r.value.pos..] == ParseWeights(buf).value.rest
    ensures r.Some? ==> |r.value.lengths| == |r.value.codes| == SYMBOLS
    ensures r.Some? ==> forall x :: 0 <= x < SYMBOLS ==>
              r.value.lengths[x] == |SymbolWords(ParseWeights(buf).value.freq)[x]|
    ensures r.Some? ==> forall x :: 0 <= x < SYMBOLS ==>
              r.value.codes[x] == BitsValue(SymbolWords(ParseWeights(buf).value.freq)[x])
  {
    var frequency: array<nat> := new nat[NODES](i => 0);
    assert frequency[..] == NoWeights();
    var pos := ReadWeights(buf, frequency);
    if pos < 0 {
      return None;
    }
    ParsedWeights(buf);
    ghost var f := frequency[..];
    var up: array<int> := new int[NODES](i => -1);
    var flag: array<bool> := new bool[NODES];
    assert up[..] == seq(NODES, i => -1);
    BuiltWords(f, flag[..]);
    MergeAll(frequency, up, flag);
    var lengths, codes := ReadAllWords(up, flag, frequency[..]);
    return Some(Tables(lengths, codes, pos));
  }
}
