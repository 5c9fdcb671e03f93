/** What the finished forest means as a code: prefix-free and complete, Kraft sum 1, cost, and the 22-bit bound. */
module HuffmanCodes {
  import opened Sums
  import opened HuffmanForest

  /** The forest that building from `s` ends with. */
  ghost function Word(s: Forest, j: nat, x: nat): (c: Code)
    requires Shape(s, j) && x < NODES
  {
    BuildFrame(s, j);
    CodeOf(Build(s, j), x)
  }

  lemma MergeHangs(s: Forest, j: nat)
    requires Shape(s, j) && j < NODES && CanMerge(s.freq, j)
    ensures var t, a, b := MergeLeast(s, j), Least(s.freq, j), Second(s.freq, j);
            a < j && t.freq[a] == 0 && t.up[a] == j && !t.flag[a] && b < j && t.freq[b] == 0 && t.up[b] == j && t.flag[b]
  {
    var a, b := PickedPair(s, j);
  }

  /** After one merge, the two children spell their parent's word and one bit more. */
  lemma MergeWords(s: Forest, j: nat)
    requires Shape(s, j) && j < NODES && CanMerge(s.freq, j)
    ensures Shape(MergeLeast(s, j), j + 1)
    ensures Word(s, j, Least(s.freq, j)) == Word(MergeLeast(s, j), j + 1, j) + [false]
    ensures Word(s, j, Second(s.freq, j)) == Word(MergeLeast(s, j), j + 1, j) + [true]
    ensures forall x :: 0 <= x < NODES ==> Word(s, j, x) == Word(MergeLeast(s, j), j + 1, x)
  {
    MergeKeepsShape(s, j);
    MergeHangs(s, j);
    hide MergeLeast, Least, Second, CanMerge;
    BuildFrame(MergeLeast(s, j), j + 1);
    assert Build(s, j) == Build(MergeLeast(s, j), j + 1);
  }

  /** All words of the forest that building from `s` ends with. */
  ghost function Words(s: Forest, j: nat): (w: seq<Code>)
    requires Shape(s, j)
    ensures |w| == NODES
  {
    seq(NODES, x requires 0 <= x < NODES => Word(s, j, x))
  }

  lemma SameWords(s: Forest, j: nat)
    requires Shape(s, j) && j < NODES && CanMerge(s.freq, j)
    ensures Shape(MergeLeast(s, j), j + 1) && Words(s, j) == Words(MergeLeast(s, j), j + 1)
    ensures Words(s, j)[Least(s.freq, j)] == Words(s, j)[j] + [false]
    ensures Words(s, j)[Second(s.freq, j)] == Words(s, j)[j] + [true]
  {
    hide MergeLeast, Word;
    MergeWords(s, j);
  }

  /** `w` spells every remaining merge: siblings extend their parent's word by one bit, roots spell nothing. */
  ghost predicate Spells(s: Forest, j: nat, w: seq<Code>)
    requires |s.freq| == |s.up| == |s.flag| == |w| == NODES && j <= NODES
    decreases NODES - j
  {
    if j < NODES && CanMerge(s.freq, j) then
      var a, b := Least(s.freq, j), Second(s.freq, j);
      w[a] == w[j] + [false] && w[b] == w[j] + [true] && Spells(MergeLeast(s, j), j + 1, w)
    else
      forall x :: 0 <= x < NODES && s.freq[x] > 0 ==> w[x] == []
  }

  /** The words read from the arrays do spell the merges. */
  lemma {:induction false} WordsSpell(s: Forest, j: nat)
    requires Shape(s, j)
    ensures Spells(s, j, Words(s, j))
    decreases NODES - j
  {
    if j < NODES && CanMerge(s.freq, j) {
      hide MergeLeast, Word, Words, Least, Second, CanMerge;
      SameWords(s, j);
      WordsSpell(MergeLeast(s, j), j + 1);
    }
  }

  // ---------- prefix-freeness and completeness

  ghost predicate PrefixFree(f: seq<nat>, words: seq<Code>)
    requires |f| <= |words|
  {
    forall x, y :: 0 <= x < |f| && 0 <= y < |f| && x != y && f[x] > 0 && f[y] > 0 ==> !(words[x] <= words[y])
  }

  /** Extending a word by one bit cannot create a prefix where there was none. */
  lemma ExtendKeepsApart(p: Code, q: Code, bit: bool)
    requires !(p <= q) && !(q <= p)
    ensures !(p + [bit] <= q) && !(q <= p + [bit])
  {
    if |p| <= |q| {
      var i :| 0 <= i < |p| && p[i] != q[i];
      assert (p + [bit])[i] != q[i];
    } else {
      var i :| 0 <= i < |q| && p[i] != q[i];
      assert (p + [bit])[i] != q[i];
    }
  }

  lemma SiblingsApart(p: Code)
    ensures !(p + [false] <= p + [true]) && !(p + [true] <= p + [false])
  {
    assert (p + [false])[|p|] != (p + [true])[|p|];
  }

  /** Splitting the word of one node into two siblings keeps the words prefix-free. */
  lemma SplitKeepsPrefixFree(f: seq<nat>, w: seq<Code>, a: nat, b: nat, j: nat)
    requires |f| == |w| && a < |f| && b < |f| && j < |f| && a != b && j != a && j != b
    requires f[a] > 0 && f[b] > 0 && f[j] == 0
    requires w[a] == w[j] + [false] && w[b] == w[j] + [true]
    requires PrefixFree(Joined(f, a, b, j), w)
    ensures PrefixFree(f, w)
  {
    var g := Joined(f, a, b, j);
    SiblingsApart(w[j]);
    forall x | 0 <= x < |f| && f[x] > 0 && x != a && x != b
      ensures !(w[x] <= w[a]) && !(w[a] <= w[x]) && !(w[x] <= w[b]) && !(w[b] <= w[x])
    {
      assert g[x] > 0 && g[j] > 0 && x != j;
      ExtendKeepsApart(w[j], w[x], false);
      ExtendKeepsApart(w[j], w[x], true);
    }
    forall x, y | 0 <= x < |f| && 0 <= y < |f| && x != y && f[x] > 0 && f[y] > 0
      ensures !(w[x] <= w[y])
    {
      if x != a && x != b && y != a && y != b {
        assert g[x] > 0 && g[y] > 0;
      }
    }
  }

  /** If a single root is left, the words of the nodes live now are prefix-free. */
  lemma {:induction false} LiveWordsPrefixFree(s: Forest, j: nat, w: seq<Code>)
    requires Shape(s, j) && LiveCount(Build(s, j).freq) == 1
    requires |w| == NODES && Spells(s, j, w)
    ensures PrefixFree(s.freq, w)
    decreases NODES - j
  {
    if j < NODES && CanMerge(s.freq, j) {
      var a, b := PickedPair(s, j);
      MergeKeepsShape(s, j);
      LiveWordsPrefixFree(MergeLeast(s, j), j + 1, w);
      SplitKeepsPrefixFree(s.freq, w, a, b, j);
    } else {
      forall x, y | 0 <= x < NODES && 0 <= y < NODES && x != y && s.freq[x] > 0
        ensures s.freq[y] == 0
      {
        TwoTermsAtMostSum(LiveMarks(s.freq), x, y);
      }
    }
  }

  /** Of two live nodes whose words differ in the last bit only, the lighter, or else the first, has the 0. */
  lemma {:induction false} SiblingsInOrder(s: Forest, j: nat, w: seq<Code>, p: Code, x: nat, y: nat)
    requires Shape(s, j) && LiveCount(Build(s, j).freq) == 1
    requires |w| == NODES && Spells(s, j, w)
    requires x < NODES && y < NODES && s.freq[x] > 0 && s.freq[y] > 0 && w[x] == p + [false] && w[y] == p + [true]
    ensures Before(s.freq, x, y)
    decreases NODES - j
  {
    assert |s.freq| == NODES;
    hide PrefixFree, LiveCount, Shape, CanMerge, MergeLeast, Least, Second;
    if j < NODES && CanMerge(s.freq, j) {
      var a, b := PickedInOrder(s, j);
      LiveWordsPrefixFree(s, j, w);
      MergeKeepsShape(s, j);
      SiblingsTogether(s, j, w, p, x, y, a, b);
      if x != a && x != b && y != a && y != b {
        OthersStay(s, j, x);
        OthersStay(s, j, y);
        hide Spells;
        SiblingsInOrder(MergeLeast(s, j), j + 1, w, p, x, y);
      }
    }
  }

  lemma PickedInOrder(s: Forest, j: nat) returns (a: nat, b: nat)
    requires Shape(s, j) && j < NODES && CanMerge(s.freq, j)
    ensures a == Least(s.freq, j) < NODES && b == Second(s.freq, j) < NODES && a != b
    ensures s.freq[a] > 0 && s.freq[b] > 0 && Before(s.freq, a, b)
  {
    a, b := PickedPair(s, j);
  }

  lemma OthersStay(s: Forest, j: nat, x: nat)
    requires Shape(s, j) && j < NODES && CanMerge(s.freq, j) && x < NODES && s.freq[x] > 0
    requires x != Least(s.freq, j) && x != Second(s.freq, j)
    ensures MergeLeast(s, j).freq[x] == s.freq[x]
  {
    hide Least, Second, CanMerge;
  }

  /** Two such nodes are merged with each other or with nobody yet. */
  lemma SiblingsTogether(s: Forest, j: nat, w: seq<Code>, p: Code, x: nat, y: nat, a: nat, b: nat)
    requires Shape(s, j) && j < NODES && CanMerge(s.freq, j) && a == Least(s.freq, j) && b == Second(s.freq, j)
    requires a < NODES && b < NODES && a != b && s.freq[a] > 0 && s.freq[b] > 0
    requires |w| == NODES && w[a] == w[j] + [false] && w[b] == w[j] + [true] && PrefixFree(s.freq, w)
    requires x < NODES && y < NODES && s.freq[x] > 0 && s.freq[y] > 0 && w[x] == p + [false] && w[y] == p + [true]
    ensures (x == a && y == b) || (x != a && x != b && y != a && y != b)
  {
    hide Least, Second, CanMerge;
    assert w[a][|w[j]|] == false && w[b][|w[j]|] == true && w[x][|p|] == false && w[y][|p|] == true;
    if x == a || x == b || y == a || y == b {
      assert |p| == |w[j]|;
      assert p == (p + [false])[..|p|] == (p + [true])[..|p|] && w[j] == (w[j] + [false])[..|p|] == (w[j] + [true])[..|p|];
      assert x == a || x == b ==> p == w[j];
      assert y == a || y == b ==> p == w[j];
      assert w[x] <= w[a] && w[y] <= w[b];
    }
  }

  /** Following a word into longer bits takes one of its two branches. */
  predicate BranchTaken(p: Code, bits: Code)
    requires p <= bits && |p| < |bits|
    ensures p + [BranchTaken(p, bits)] <= bits
  {
    assert bits[..|p| + 1] == p + [bits[|p|]];
    bits[|p|]
  }

  /** Every long enough bit string begins with the word of some live node. */
  lemma {:induction false} LiveWordsComplete(s: Forest, j: nat, w: seq<Code>, bits: Code) returns (x: nat)
    requires Shape(s, j) && LiveCount(s.freq) >= 1
    requires |w| == NODES && Spells(s, j, w)
    requires forall y :: 0 <= y < NODES && s.freq[y] > 0 ==> |w[y]| <= |bits|
    ensures x < NODES && s.freq[x] > 0 && w[x] <= bits
    decreases NODES - j
  {
    hide Sum, MergeLeast, Least, Second, CanMerge;
    if j < NODES && CanMerge(s.freq, j) {
      var a, b := PickedPair(s, j);
      MergeKeepsShape(s, j);
      var t := MergeLeast(s, j);
      assert LiveCount(t.freq) >= 1 by { TermAtMostSum(LiveMarks(t.freq), j); }
      assert |w[a]| == |w[j]| + 1;
      x := LiveWordsComplete(t, j + 1, w, bits);
      if x == j {
        x := if BranchTaken(w[j], bits) then b else a;
      }
    } else {
      if forall i :: 0 <= i < NODES ==> s.freq[i] == 0 {
        SumZero(LiveMarks(s.freq));
      }
      x :| 0 <= x < NODES && s.freq[x] > 0;
    }
  }

  // ---------- the code length bound

  /**
   Heights `h` of the trees under the live nodes obey the Fibonacci bound; `m` separates consumed from live weights.
   */
  ghost predicate BalancedWeights(f: seq<nat>, h: seq<nat>, m: nat)
    requires |f| == |h|
  {
    forall x :: 0 <= x < |h| && f[x] > 0 ==> m <= f[x] && Fib(h[x] + 2) <= f[x] && (h[x] >= 1 ==> Fib(h[x] + 1) <= m)
  }

  function Taller(x: nat, y: nat): nat { if x >= y then x else y }

  /** Every live weight is at least every consumed one, so a merge keeps the Fibonacci bound. */
  lemma MergeKeepsBalance(f: seq<nat>, h: seq<nat>, m: nat, a: nat, b: nat, j: nat)
    requires |f| == |h| && a < |f| && b < |f| && j < |f| && a != b && j != a && j != b
    requires 0 < f[a] <= f[b] && f[j] == 0
    requires forall x :: 0 <= x < |f| && x != a && x != b && f[x] > 0 ==> f[b] <= f[x]
    requires BalancedWeights(f, h, m)
    ensures BalancedWeights(Joined(f, a, b, j), h[j := 1 + Taller(h[a], h[b])], f[b])
  {
    var k := Taller(h[a], h[b]);
    assert Fib(k + 2) <= f[b];
    if k == 0 {
      assert Fib(2) == 1 && Fib(3) == 2;
    } else {
      assert Fib(k + 1) <= m <= f[a];
      assert m <= f[b];
    }
    assert Fib(k + 3) == Fib(k + 2) + Fib(k + 1);
    assert Fib(k + 3) <= f[a] + f[b];
  }

  /** Depth of a live node plus height of the tree below it never exceeds 22. */
  lemma {:induction false} DepthPlusHeight(s: Forest, j: nat, w: seq<Code>, h: seq<nat>, m: nat, x: nat)
    requires Shape(s, j) && |w| == NODES && Spells(s, j, w)
    requires |h| == NODES && BalancedWeights(s.freq, h, m) && Total(s.freq) <= MAX_TOTAL
    requires x < NODES && s.freq[x] > 0
    ensures |w[x]| + h[x] <= 22
    decreases NODES - j
  {
    hide MergeLeast, Least, Second, CanMerge, Sum, LiveCount;
    if j < NODES && CanMerge(s.freq, j) {
      var a, b := PickedPair(s, j);
      MergeKeepsShape(s, j);
      MergeKeepsBalance(s.freq, h, m, a, b, j);
      TotalMerge(s, j);
      DepthPlusHeight(MergeLeast(s, j), j + 1, w, h[j := 1 + Taller(h[a], h[b])], s.freq[b],
                      if x == a || x == b then j else x);
    } else {
      TermAtMostSum(s.freq, x);
      if h[x] > 22 {
        FibMonotone(25, h[x] + 2);
        Fib25();
      }
    }
  }

  // ---------- Kraft sum and cost

  /** One code space share of 2^-len, counted in units of 2^-m, for every live node. */
  function KraftTerms(f: seq<nat>, ls: seq<nat>, m: nat): (t: seq<int>)
    requires |f| == |ls|
    ensures |t| == |f|
  {
    seq(|f|, i requires 0 <= i < |f| => if f[i] > 0 && ls[i] <= m then Pow2(m - ls[i]) else 0)
  }

  function Kraft(f: seq<nat>, ls: seq<nat>, m: nat): int
    requires |f| == |ls|
  {
    Sum(KraftTerms(f, ls, m))
  }

  function CostTerms(f: seq<nat>, ls: seq<nat>): (t: seq<int>)
    requires |f| == |ls|
    ensures |t| == |f|
  {
    seq(|f|, i requires 0 <= i < |f| => f[i] * ls[i])
  }

  /** Encoded size: weight times length, summed. */
  function Cost(f: seq<nat>, ls: seq<nat>): int
    requires |f| == |ls|
  {
    Sum(CostTerms(f, ls))
  }

  /** What the merges from here on add up to. */
  function MergeCost(s: Forest, j: nat): int
    requires |s.freq| == |s.up| == |s.flag| == NODES && j <= NODES
    decreases NODES - j
  {
    if j < NODES && CanMerge(s.freq, j) then
      s.freq[Least(s.freq, j)] + s.freq[Second(s.freq, j)] + MergeCost(MergeLeast(s, j), j + 1)
    else 0
  }

  function LengthsOf(w: seq<Code>): (ls: seq<nat>)
    ensures |ls| == |w|
  {
    seq(|w|, x requires 0 <= x < |w| => |w[x]|)
  }

  /** Merging two nodes of equal depth into one a level higher keeps the Kraft sum ... */
  lemma MergeKeepsKraft(f: seq<nat>, ls: seq<nat>, a: nat, b: nat, j: nat, m: nat)
    requires |f| == |ls| && a < |f| && b < |f| && j < |f| && a != b && j != a && j != b
    requires f[a] > 0 && f[b] > 0 && f[j] == 0 && 1 <= ls[a] == ls[b] <= m
    ensures Kraft(Joined(f, a, b, j), ls[j := ls[a] - 1], m) == Kraft(f, ls, m)
  {
    var k, v := KraftTerms(f, ls, m), Pow2(m - (ls[a] - 1));
    SumUpdate(k, j, v);
    SumUpdate(k[j := v], a, 0);
    SumUpdate(k[j := v][a := 0], b, 0);
    assert KraftTerms(Joined(f, a, b, j), ls[j := ls[a] - 1], m) == k[j := v][a := 0][b := 0];
    assert v == 2 * Pow2(m - ls[a]);
  }

  /** ... and saves their weight once. */
  lemma MergeSavesWeight(f: seq<nat>, ls: seq<nat>, a: nat, b: nat, j: nat)
    requires |f| == |ls| && a < |f| && b < |f| && j < |f| && a != b && j != a && j != b
    requires f[j] == 0 && 1 <= ls[a] == ls[b]
    ensures Cost(Joined(f, a, b, j), ls[j := ls[a] - 1]) == Cost(f, ls) - f[a] - f[b]
  {
    var d := ls[a] - 1;
    var c, v := CostTerms(f, ls), (f[a] + f[b]) * d;
    SumUpdate(c, j, v);
    SumUpdate(c[j := v], a, 0);
    SumUpdate(c[j := v][a := 0], b, 0);
    assert CostTerms(Joined(f, a, b, j), ls[j := d]) == c[j := v][a := 0][b := 0];
    Distribute(f[a], f[b], d);
  }

  lemma Distribute(x: int, y: int, d: int)
    ensures (x + y) * d == x * (d + 1) + y * (d + 1) - x - y
  {
  }

  lemma ZeroLengthsAccount(f: seq<nat>, ls: seq<nat>, m: nat)
    requires |f| == |ls| && forall x :: 0 <= x < |f| && f[x] > 0 ==> ls[x] == 0
    ensures Kraft(f, ls, m) == Pow2(m) * LiveCount(f) && Cost(f, ls) == 0
  {
    forall i | 0 <= i < |f| ensures CostTerms(f, ls)[i] == 0 {
      assert f[i] == 0 || ls[i] == 0;
    }
    SumZero(CostTerms(f, ls));
    SumScale(LiveMarks(f), KraftTerms(f, ls, m), Pow2(m));
  }

  /** The words built have Kraft sum equal to the number of roots, and cost what the merges add up to. */
  lemma {:induction false} LengthsAccount(s: Forest, j: nat, w: seq<Code>, m: nat)
    requires Shape(s, j) && |w| == NODES && Spells(s, j, w)
    requires forall x :: 0 <= x < NODES && s.freq[x] > 0 ==> |w[x]| <= m
    ensures Kraft(s.freq, LengthsOf(w), m) == Pow2(m) * LiveCount(Build(s, j).freq)
    ensures Cost(s.freq, LengthsOf(w)) == MergeCost(s, j)
    decreases NODES - j
  {
    hide Kraft, Cost, MergeLeast, LiveCount, Pow2, CanMerge, Least, Second;
    var ls := LengthsOf(w);
    if j < NODES && CanMerge(s.freq, j) {
      var a, b := PickedPair(s, j);
      assert ls[a] == ls[j] + 1 && ls[b] == ls[j] + 1;
      assert ls[j := ls[a] - 1] == ls;
      MergeKeepsShape(s, j);
      LengthsAccount(MergeLeast(s, j), j + 1, w, m);
      MergeKeepsKraft(s.freq, ls, a, b, j, m);
      MergeSavesWeight(s.freq, ls, a, b, j);
    } else {
      ZeroLengthsAccount(s.freq, ls, m);
    }
  }
}
