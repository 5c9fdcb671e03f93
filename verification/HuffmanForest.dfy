/**
 The forest that the 4X Movie Huffman builder keeps in three arrays of 512 cells: the weight of every
 live node (0 once consumed), the parent of every consumed node (-1 otherwise) and the branch it hangs on.
 Nodes 0..256 are the symbols, node 257 + k is made by the k-th merge.
 */
module HuffmanForest {
  import opened Sums

  const SYMBOLS: nat := 257
  const NODES: nat := 512
  const SENTINEL: nat := 0x10000
  const MAX_TOTAL: nat := 65281

  type Code = seq<bool>

  datatype Forest = Forest(freq: seq<nat>, up: seq<int>, flag: seq<bool>)

  /** Lighter, or as light and of smaller index. */
  predicate Before(f: seq<nat>, i: nat, k: nat)
    requires i < |f| && k < |f|
  {
    f[i] < f[k] || (f[i] == f[k] && i < k)
  }

  predicate IsLeast(f: seq<nat>, n: nat, a: nat)
    requires n <= |f|
  {
    a < n && f[a] > 0 && forall i :: 0 <= i < n && f[i] > 0 && i != a ==> Before(f, a, i)
  }

  /** The first of the lightest live nodes below `n`, or `n` when none is live. */
  function Least(f: seq<nat>, n: nat): (a: nat)
    requires n <= |f|
    ensures a < n ==> IsLeast(f, n, a)
    ensures a >= n ==> a == n && forall i :: 0 <= i < n ==> f[i] == 0
  {
    if n == 0 then 0
    else
      var a := Least(f, n - 1);
      if f[n - 1] == 0 then (if a == n - 1 then n else a)
      else if a < n - 1 && f[a] <= f[n - 1] then a
      else n - 1
  }

  /** The lightest live node but one, ties broken as for the first. */
  function Second(f: seq<nat>, n: nat): (b: nat)
    requires n <= |f| && Least(f, n) < n
    ensures b <= n && b != Least(f, n)
    ensures b < n ==> f[b] > 0 && forall i :: 0 <= i < n && f[i] > 0 && i != b && i != Least(f, n) ==> Before(f, b, i)
    ensures b == n ==> forall i :: 0 <= i < n && i != Least(f, n) ==> f[i] == 0
  {
    var g := f[Least(f, n) := 0];
    var b := Least(g, n);
    assert forall i :: 0 <= i < n && i != Least(f, n) ==> g[i] == f[i];
    b
  }

  /** Both lightest nodes exist and are below the sentinel weight. */
  predicate CanMerge(f: seq<nat>, n: nat)
    requires n <= |f|
  {
    var a := Least(f, n);
    a < n && Second(f, n) < n && f[Second(f, n)] < SENTINEL
  }

  /**
   Array lengths, and every cell from `j` on still unused; a live node has no parent, a parent lies above its child.
   */
  ghost predicate Shape(s: Forest, j: nat) {
    && |s.freq| == |s.up| == |s.flag| == NODES && SYMBOLS <= j <= NODES
    && (forall i :: j <= i < NODES ==> s.freq[i] == 0 && s.up[i] == -1)
    && (forall i :: 0 <= i < NODES ==> s.up[i] == -1 || i < s.up[i] < j)
    && (forall i :: 0 <= i < NODES && s.freq[i] > 0 ==> s.up[i] == -1)
  }

  function Merge(s: Forest, j: nat, a: nat, b: nat): (t: Forest)
    requires |s.freq| == |s.up| == |s.flag| == NODES
    requires j < NODES && a < NODES && b < NODES && a != b
  {
    Forest(s.freq[j := s.freq[a] + s.freq[b]][a := 0][b := 0],
           s.up[a := j][b := j],
           s.flag[a := false][b := true])
  }

  /** One pass of the builder: the two lightest nodes become the children of node `j`. */
  function MergeLeast(s: Forest, j: nat): (t: Forest)
    requires |s.freq| == |s.up| == |s.flag| == NODES && j < NODES && CanMerge(s.freq, j)
    ensures |t.freq| == |t.up| == |t.flag| == NODES
  {
    Merge(s, j, Least(s.freq, j), Second(s.freq, j))
  }

  /** Repeated merging, until one node is left or the arrays are full. */
  function Build(s: Forest, j: nat): (t: Forest)
    requires |s.freq| == |s.up| == |s.flag| == NODES && j <= NODES
    ensures |t.freq| == |t.up| == |t.flag| == NODES
    decreases NODES - j
  {
    if j < NODES && CanMerge(s.freq, j) then Build(MergeLeast(s, j), j + 1) else s
  }

  lemma MergeKeepsShape(s: Forest, j: nat)
    requires Shape(s, j) && j < NODES && CanMerge(s.freq, j)
    ensures Shape(MergeLeast(s, j), j + 1)
  {
  }

  /** Weights after joining nodes `a` and `b` into the fresh node `j`. */
  function Joined(f: seq<nat>, a: nat, b: nat, j: nat): (g: seq<nat>)
    requires a < |f| && b < |f| && j < |f|
    ensures |g| == |f|
  {
    f[j := f[a] + f[b]][a := 0][b := 0]
  }

  /** The nodes picked are live and different, the second is the lighter bound on all the others. */
  lemma PickedPair(s: Forest, j: nat) returns (a: nat, b: nat)
    requires Shape(s, j) && j < NODES && CanMerge(s.freq, j)
    ensures a == Least(s.freq, j) < j && b == Second(s.freq, j) < j && a != b
    ensures 0 < s.freq[a] <= s.freq[b] && s.freq[j] == 0
    ensures forall x :: 0 <= x < NODES && x != a && x != b && s.freq[x] > 0 ==> s.freq[b] <= s.freq[x]
    ensures MergeLeast(s, j).freq == Joined(s.freq, a, b, j)
  {
    a, b := Least(s.freq, j), Second(s.freq, j);
    assert Before(s.freq, a, b);
    forall x | 0 <= x < NODES && x != a && x != b && s.freq[x] > 0 ensures s.freq[b] <= s.freq[x] {
      assert Before(s.freq, b, x);
    }
  }

  lemma MergeFrame(s: Forest, j: nat)
    requires Shape(s, j) && j < NODES && CanMerge(s.freq, j)
    ensures var t := MergeLeast(s, j);
            forall x :: 0 <= x < j && s.freq[x] == 0 ==> t.up[x] == s.up[x] && t.flag[x] == s.flag[x] && t.freq[x] == 0
  {
  }

  /** Building keeps the shape and never touches a node that is already dead. */
  lemma {:induction false} BuildFrame(s: Forest, j: nat)
    requires Shape(s, j)
    ensures Shape(Build(s, j), NODES)
    ensures forall x :: 0 <= x < j && s.freq[x] == 0 ==>
              Build(s, j).up[x] == s.up[x] && Build(s, j).flag[x] == s.flag[x] && Build(s, j).freq[x] == 0
    decreases NODES - j
  {
    if j < NODES && CanMerge(s.freq, j) {
      MergeKeepsShape(s, j);
      MergeFrame(s, j);
      var t := MergeLeast(s, j);
      hide MergeLeast, CanMerge, Shape;
      BuildFrame(t, j + 1);
    }
  }

  /** The word read from a node up to its root, root end first. */
  function CodeOf(t: Forest, x: nat): (c: Code)
    requires Shape(t, NODES) && x < NODES
    decreases NODES - x
  {
    if t.up[x] == -1 then [] else CodeOf(t, t.up[x]) + [t.flag[x]]
  }

  // ---------- totals and live counts

  function LiveMarks(f: seq<nat>): (m: seq<int>)
    ensures |m| == |f|
  {
    seq(|f|, i requires 0 <= i < |f| => if f[i] > 0 then 1 else 0)
  }

  function LiveCount(f: seq<nat>): int { Sum(LiveMarks(f)) }

  function Total(f: seq<nat>): int { Sum(f) }

  lemma JoinedTotal(f: seq<nat>, a: nat, b: nat, j: nat)
    requires a < |f| && b < |f| && j < |f| && a != b && j != a && j != b && f[j] == 0
    ensures Total(Joined(f, a, b, j)) == Total(f)
  {
    hide Sum;
    SumUpdate(f, j, f[a] + f[b]);
    SumUpdate(f[j := f[a] + f[b]], a, 0);
    SumUpdate(f[j := f[a] + f[b]][a := 0], b, 0);
  }

  lemma JoinedCount(f: seq<nat>, a: nat, b: nat, j: nat)
    requires a < |f| && b < |f| && j < |f| && a != b && j != a && j != b && f[j] == 0 && f[a] > 0 && f[b] > 0
    ensures LiveCount(Joined(f, a, b, j)) == LiveCount(f) - 1
  {
    hide Sum;
    var m := LiveMarks(f);
    SumUpdate(m, j, 1);
    SumUpdate(m[j := 1], a, 0);
    SumUpdate(m[j := 1][a := 0], b, 0);
    assert LiveMarks(Joined(f, a, b, j)) == m[j := 1][a := 0][b := 0];
  }

  /** A merge keeps the total weight and leaves one root less. */
  lemma TotalMerge(s: Forest, j: nat)
    requires Shape(s, j) && j < NODES && CanMerge(s.freq, j)
    ensures Total(MergeLeast(s, j).freq) == Total(s.freq)
    ensures LiveCount(MergeLeast(s, j).freq) == LiveCount(s.freq) - 1
  {
    hide Total, LiveCount, Joined, MergeLeast;
    var a, b := PickedPair(s, j);
    JoinedTotal(s.freq, a, b, j);
    JoinedCount(s.freq, a, b, j);
  }

  /** Two live nodes below a total that fits the sentinel can be merged; with fewer than two nothing can. */
  lemma CanMergeIff(s: Forest, j: nat)
    requires Shape(s, j) && Total(s.freq) < SENTINEL
    ensures CanMerge(s.freq, j) <==> LiveCount(s.freq) >= 2
  {
    hide Sum;
    var f, m := s.freq, LiveMarks(s.freq);
    var a := Least(f, j);
    if a == j {
      SumZero(m);
    } else {
      var b := Second(f, j);
      SumUpdate(m, a, 0);
      if b < j {
        TermAtMostSum(f, b);
        TermAtMostSum(m[a := 0], b);
      } else {
        SumZero(m[a := 0]);
      }
    }
  }

  /** How many nodes are left without a parent: one, unless the arrays fill up first. */
  lemma {:induction false} RootsLeft(s: Forest, j: nat)
    requires Shape(s, j) && Total(s.freq) < SENTINEL && LiveCount(s.freq) >= 1
    ensures LiveCount(Build(s, j).freq) ==
              if LiveCount(s.freq) <= NODES - j + 1 then 1 else LiveCount(s.freq) - (NODES - j)
    decreases NODES - j
  {
    hide MergeLeast, Total, LiveCount, CanMerge;
    CanMergeIff(s, j);
    if j < NODES && CanMerge(s.freq, j) {
      MergeKeepsShape(s, j);
      TotalMerge(s, j);
      RootsLeft(MergeLeast(s, j), j + 1);
    }
  }
}
