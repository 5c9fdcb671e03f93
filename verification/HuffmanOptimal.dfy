/** No prefix code encodes the weights in fewer bits than the merges do. */
module HuffmanOptimal {
  import opened Sums
  import opened HuffmanForest
  import opened HuffmanCodes

  // ---------- Kraft's inequality for prefix codes

  ghost function StartingWith(f: seq<nat>, words: seq<Code>, bit: bool): (g: seq<nat>)
    requires |f| == |words|
    ensures |g| == |f|
  {
    seq(|f|, i requires 0 <= i < |f| => if words[i] != [] && words[i][0] == bit then f[i] else 0)
  }

  ghost function Tails(words: seq<Code>): (t: seq<Code>)
    ensures |t| == |words|
  {
    seq(|words|, i requires 0 <= i < |words| => if words[i] == [] then [] else words[i][1..])
  }

  lemma TailsPrefixFree(f: seq<nat>, words: seq<Code>, bit: bool)
    requires |f| == |words| && PrefixFree(f, words)
    ensures PrefixFree(StartingWith(f, words, bit), Tails(words))
  {
    var g, t := StartingWith(f, words, bit), Tails(words);
    forall x, y | 0 <= x < |f| && 0 <= y < |f| && x != y && g[x] > 0 && g[y] > 0
      ensures !(t[x] <= t[y])
    {
      assert words[x] == [bit] + t[x] && words[y] == [bit] + t[y];
    }
  }

  /** Splitting a code by first bit splits its Kraft sum. */
  lemma KraftSplit(f: seq<nat>, words: seq<Code>, m: nat)
    requires |f| == |words| && m >= 1
    requires forall x :: 0 <= x < |f| && f[x] > 0 ==> words[x] != []
    ensures Kraft(f, LengthsOf(words), m) ==
            Kraft(StartingWith(f, words, false), LengthsOf(Tails(words)), m - 1) +
            Kraft(StartingWith(f, words, true), LengthsOf(Tails(words)), m - 1)
  {
    SumAdd(KraftTerms(StartingWith(f, words, false), LengthsOf(Tails(words)), m - 1),
           KraftTerms(StartingWith(f, words, true), LengthsOf(Tails(words)), m - 1),
           KraftTerms(f, LengthsOf(words), m));
  }

  /** A code holding the empty word holds nothing else. */
  lemma EmptyWordAlone(f: seq<nat>, words: seq<Code>, x: nat, m: nat)
    requires |f| == |words| && PrefixFree(f, words)
    requires x < |f| && f[x] > 0 && words[x] == []
    ensures Kraft(f, LengthsOf(words), m) == Pow2(m)
  {
    var k := KraftTerms(f, LengthsOf(words), m);
    forall y | 0 <= y < |f| && y != x ensures k[y] == 0 {
      assert words[x] <= words[y];
    }
    SumUpdate(k, x, 0);
    SumZero(k[x := 0]);
  }

  /** Kraft's inequality. */
  lemma {:induction false} KraftInequality(f: seq<nat>, words: seq<Code>, m: nat)
    requires |f| == |words| && PrefixFree(f, words)
    requires forall x :: 0 <= x < |f| && f[x] > 0 ==> |words[x]| <= m
    ensures Kraft(f, LengthsOf(words), m) <= Pow2(m)
    decreases m
  {
    if x :| 0 <= x < |f| && f[x] > 0 && words[x] == [] {
      EmptyWordAlone(f, words, x, m);
    } else if m == 0 {
      SumZero(KraftTerms(f, LengthsOf(words), m));
    } else {
      TailsPrefixFree(f, words, false);
      TailsPrefixFree(f, words, true);
      KraftInequality(StartingWith(f, words, false), Tails(words), m - 1);
      KraftInequality(StartingWith(f, words, true), Tails(words), m - 1);
      KraftSplit(f, words, m);
    }
  }

  // ---------- the exchange argument

  /** A live node with the longest word. */
  ghost function Deepest(f: seq<nat>, ls: seq<nat>, n: nat): (p: nat)
    requires |f| == |ls| && n <= |f| && exists x :: 0 <= x < n && f[x] > 0
    ensures p < n && f[p] > 0 && forall x :: 0 <= x < n && f[x] > 0 ==> ls[x] <= ls[p]
  {
    if f[n - 1] == 0 then Deepest(f, ls, n - 1)
    else if !(exists x :: 0 <= x < n - 1 && f[x] > 0) then n - 1
    else
      var p := Deepest(f, ls, n - 1);
      if ls[p] >= ls[n - 1] then p else n - 1
  }

  ghost function SwapLengths(ls: seq<nat>, a: nat, p: nat): (r: seq<nat>)
    requires a < |ls| && p < |ls|
    ensures |r| == |ls|
  {
    ls[a := ls[p]][p := ls[a]]
  }

  /** Giving the lighter node the longer word uses the same code space ... */
  lemma SwapKeepsKraft(f: seq<nat>, ls: seq<nat>, a: nat, p: nat, m: nat)
    requires |f| == |ls| && a < |f| && p < |f| && a != p && f[a] > 0 && f[p] > 0
    ensures Kraft(f, SwapLengths(ls, a, p), m) == Kraft(f, ls, m)
  {
    hide Sum, Pow2;
    var k := KraftTerms(f, ls, m);
    SumUpdate(k, a, k[p]);
    SumUpdate(k[a := k[p]], p, k[a]);
    assert KraftTerms(f, SwapLengths(ls, a, p), m) == k[a := k[p]][p := k[a]];
  }

  function Term(weight: nat, length: nat): nat { weight * length }

  lemma SwapTerms(f: seq<nat>, ls: seq<nat>, a: nat, p: nat)
    requires |f| == |ls| && a < |f| && p < |f| && a != p
    ensures CostTerms(f, SwapLengths(ls, a, p)) == CostTerms(f, ls)[a := Term(f[a], ls[p])][p := Term(f[p], ls[a])]
    ensures CostTerms(f, ls)[a] == Term(f[a], ls[a]) && CostTerms(f, ls)[p] == Term(f[p], ls[p])
  {
  }

  /** ... and costs no more. */
  lemma SwapIsNoWorse(f: seq<nat>, ls: seq<nat>, a: nat, p: nat)
    requires |f| == |ls| && a < |f| && p < |f| && a != p
    requires f[a] <= f[p] && ls[a] <= ls[p]
    ensures Cost(f, SwapLengths(ls, a, p)) <= Cost(f, ls)
  {
    hide Sum, CostTerms, SwapLengths, Term;
    var c := CostTerms(f, ls);
    SwapTerms(f, ls, a, p);
    SumUpdate(c, a, Term(f[a], ls[p]));
    SumUpdate(c[a := Term(f[a], ls[p])], p, Term(f[p], ls[a]));
    Rearrange(f[a], f[p], ls[a], ls[p]);
  }

  lemma Rearrange(v: nat, w: nat, x: nat, y: nat)
    requires v <= w && x <= y
    ensures Term(v, y) + Term(w, x) <= Term(v, x) + Term(w, y)
  {
    assert (w - v) * (y - x) >= 0;
    assert (w - v) * (y - x) == w * y - w * x - v * y + v * x;
  }

  /** Changing the unit of the Kraft sum scales it. */
  lemma KraftScale(f: seq<nat>, ls: seq<nat>, l: nat, m: nat)
    requires |f| == |ls| && l <= m
    requires forall x :: 0 <= x < |f| && f[x] > 0 ==> ls[x] <= l
    ensures Kraft(f, ls, m) == Pow2(m - l) * Kraft(f, ls, l)
  {
    forall i | 0 <= i < |f| ensures KraftTerms(f, ls, m)[i] == Pow2(m - l) * KraftTerms(f, ls, l)[i] {
      if f[i] > 0 {
        Pow2Add(m - l, l - ls[i]);
      }
    }
    SumScale(KraftTerms(f, ls, l), KraftTerms(f, ls, m), Pow2(m - l));
  }

  lemma MulMonotone(d: nat, x: int, y: int)
    ensures x <= y ==> d * x <= d * y
  {
  }

  lemma StrictMultiples(d: nat, x: int, y: int)
    requires d * x < d * y
    ensures d * x + d <= d * y
  {
    MulMonotone(d, y, x);
    MulMonotone(d, x + 1, y);
  }

  /** All live lengths are at most `n`. */
  ghost predicate Within(f: seq<nat>, ls: seq<nat>, n: nat)
    requires |f| == |ls|
  {
    forall x :: 0 <= x < |f| && f[x] > 0 ==> ls[x] <= n
  }

  /** If all words but one have length at most `l`, the code space left over has room for one more share of 2^-l ... */
  lemma RoomForOneMore(g: seq<nat>, ls: seq<nat>, l: nat, m: nat)
    requires |g| == |ls| && l <= m && Within(g, ls, l) && Kraft(g, ls, m) < Pow2(m)
    ensures Kraft(g, ls, m) + Pow2(m - l) <= Pow2(m)
  {
    KraftScale(g, ls, l, m);
    Pow2Add(m - l, l);
    StrictMultiples(Pow2(m - l), Kraft(g, ls, l), Pow2(l));
  }

  /** ... so a single longest word can be cut back to the length of the second longest ... */
  lemma ShortenFits(f: seq<nat>, ls: seq<nat>, a: nat, l: nat, m: nat)
    requires |f| == |ls| && a < |f| && f[a] > 0 && l < ls[a] <= m && Kraft(f, ls, m) <= Pow2(m)
    requires Within(f[a := 0], ls, l)
    ensures Kraft(f, ls[a := l], m) <= Pow2(m)
  {
    hide Within, Sum, Pow2;
    var k, g := KraftTerms(f, ls, m), f[a := 0];
    SumUpdate(k, a, 0);
    assert KraftTerms(g, ls, m) == k[a := 0];
    SumUpdate(k, a, Pow2(m - l));
    assert KraftTerms(f, ls[a := l], m) == k[a := Pow2(m - l)];
    RoomForOneMore(g, ls, l, m);
  }

  /** ... and the cost only falls. */
  lemma ShortenSaves(f: seq<nat>, ls: seq<nat>, a: nat, l: nat)
    requires |f| == |ls| && a < |f| && l <= ls[a]
    ensures Cost(f, ls[a := l]) <= Cost(f, ls)
  {
    var c := CostTerms(f, ls);
    SumUpdate(c, a, f[a] * l);
    assert CostTerms(f, ls[a := l]) == c[a := f[a] * l];
    MulMonotone(f[a], l, ls[a]);
  }

  /** The lightest of the nodes marked live in `g` can take over the longest of their words. */
  lemma Deepen(f: seq<nat>, g: seq<nat>, ls: seq<nat>, a: nat, m: nat, n: nat) returns (r: seq<nat>)
    requires |f| == |g| == |ls| && a < |f| && g[a] > 0 && n <= m && Within(f, ls, n)
    requires forall x :: 0 <= x < |f| && g[x] > 0 ==> g[x] == f[x] && f[a] <= f[x]
    ensures |r| == |f| && Within(f, r, n) && Within(g, r, r[a])
    ensures Kraft(f, r, m) == Kraft(f, ls, m) && Cost(f, r) <= Cost(f, ls)
    ensures forall x :: 0 <= x < |f| && g[x] == 0 ==> r[x] == ls[x]
  {
    var p := Deepest(g, ls, |f|);
    r := ls;
    if p != a {
      SwapKeepsKraft(f, ls, a, p, m);
      SwapIsNoWorse(f, ls, a, p);
      r := SwapLengths(ls, a, p);
    }
  }

  /**
   Any lengths with Kraft sum at most 1 can be improved until the two lightest nodes are equally and positively
   deep.
   */
  lemma Improve(f: seq<nat>, ls: seq<nat>, a: nat, b: nat, m: nat) returns (r: seq<nat>)
    requires |f| == |ls| && a < |f| && b < |f| && a != b && 0 < f[a] <= f[b]
    requires forall x :: 0 <= x < |f| && x != a && x != b && f[x] > 0 ==> f[b] <= f[x]
    requires Within(f, ls, m) && Kraft(f, ls, m) <= Pow2(m)
    ensures |r| == |f| && Within(f, r, m) && Kraft(f, r, m) <= Pow2(m) && Cost(f, r) <= Cost(f, ls)
    ensures 1 <= r[a] == r[b]
  {
    var top := Deepen(f, f, ls, a, m, m);
    r := Deepen(f, f[a := 0], top, b, m, top[a]);
    if r[b] < r[a] {
      ShortenFits(f, r, a, r[b], m);
      ShortenSaves(f, r, a, r[b]);
      r := r[a := r[b]];
    }
    EqualDepthIsPositive(f, r, a, b, m);
  }

  lemma EqualDepthIsPositive(f: seq<nat>, r: seq<nat>, a: nat, b: nat, m: nat)
    requires |f| == |r| && a < |f| && b < |f| && a != b && f[a] > 0 && f[b] > 0
    requires r[a] == r[b] && Kraft(f, r, m) <= Pow2(m)
    ensures r[a] >= 1
  {
    TwoTermsAtMostSum(KraftTerms(f, r, m), a, b);
  }

  /** Every assignment of lengths with Kraft sum at most 1 costs at least what the merges add up to. */
  lemma {:induction false} MergeCostIsLeast(s: Forest, j: nat, ls: seq<nat>, m: nat)
    requires Shape(s, j) && |ls| == NODES
    requires Within(s.freq, ls, m) && Kraft(s.freq, ls, m) <= Pow2(m)
    ensures MergeCost(s, j) <= Cost(s.freq, ls)
    decreases NODES - j
  {
    hide Kraft, Cost, MergeLeast, CanMerge, Pow2;
    if j < NODES && CanMerge(s.freq, j) {
      var a, b := PickedPair(s, j);
      MergeKeepsShape(s, j);
      var r := Improve(s.freq, ls, a, b, m);
      MergeKeepsKraft(s.freq, r, a, b, j, m);
      MergeSavesWeight(s.freq, r, a, b, j);
      MergeCostIsLeast(MergeLeast(s, j), j + 1, r[j := r[a] - 1], m);
    } else {
      CostNotNegative(s.freq, ls);
    }
  }

  lemma CostNotNegative(f: seq<nat>, ls: seq<nat>)
    requires |f| == |ls|
    ensures Cost(f, ls) >= 0
  {
    var z := seq(|f|, i => 0);
    SumZero(z);
    SumMonotone(z, CostTerms(f, ls));
  }

  /** A bound on the lengths of finitely many words. */
  ghost function Longest(words: seq<Code>): (m: nat)
    ensures forall x :: 0 <= x < |words| ==> |words[x]| <= m
  {
    if words == [] then 0
    else
      var m := Longest(words[..|words| - 1]);
      assert forall x :: 0 <= x < |words| - 1 ==> words[..|words| - 1][x] == words[x];
      if |words[|words| - 1]| > m then |words[|words| - 1]| else m
  }

  /** No prefix code for the live symbols, whatever its words, is shorter than the merges. */
  lemma NoPrefixCodeIsShorter(s: Forest, j: nat, words: seq<Code>)
    requires Shape(s, j) && |words| == NODES && PrefixFree(s.freq, words)
    ensures MergeCost(s, j) <= Cost(s.freq, LengthsOf(words))
  {
    var m := Longest(words);
    KraftInequality(s.freq, words, m);
    MergeCostIsLeast(s, j, LengthsOf(words), m);
  }
}
