/** Finite sums over sequences, powers of two and Fibonacci numbers: the arithmetic the Huffman proofs share. */
module Sums {

  function Sum(s: seq<int>): int {
    if s == [] then 0 else Sum(s[..|s| - 1]) + s[|s| - 1]
  }

  /** Replacing one term moves the sum by the difference. */
  lemma {:induction false} SumUpdate(s: seq<int>, i: nat, v: int)
    requires i < |s|
    ensures Sum(s[i := v]) == Sum(s) - s[i] + v
  {
    var n := |s| - 1;
    if i == n {
      assert s[i := v][..n] == s[..n];
    } else {
      assert s[i := v][..n] == s[..n][i := v];
      SumUpdate(s[..n], i, v);
    }
  }

  lemma {:induction false} SumMonotone(s: seq<int>, t: seq<int>)
    requires |s| == |t|
    requires forall i :: 0 <= i < |s| ==> s[i] <= t[i]
    ensures Sum(s) <= Sum(t)
  {
    if s != [] {
      SumMonotone(s[..|s| - 1], t[..|t| - 1]);
    }
  }

  lemma {:induction false} SumZero(s: seq<int>)
    requires forall i :: 0 <= i < |s| ==> s[i] == 0
    ensures Sum(s) == 0
  {
    if s != [] {
      SumZero(s[..|s| - 1]);
    }
  }

  lemma {:induction false} SumAdd(s: seq<int>, t: seq<int>, u: seq<int>)
    requires |s| == |t| == |u|
    requires forall i :: 0 <= i < |s| ==> u[i] == s[i] + t[i]
    ensures Sum(u) == Sum(s) + Sum(t)
  {
    if s != [] {
      SumAdd(s[..|s| - 1], t[..|s| - 1], u[..|s| - 1]);
    }
  }

  lemma {:induction false} SumScale(s: seq<int>, t: seq<int>, c: int)
    requires |s| == |t|
    requires forall i :: 0 <= i < |s| ==> t[i] == c * s[i]
    ensures Sum(t) == c * Sum(s)
  {
    if s != [] {
      SumScale(s[..|s| - 1], t[..|s| - 1], c);
    }
  }

  /** A term of a non-negative sum is at most the sum. */
  lemma TermAtMostSum(s: seq<int>, i: nat)
    requires i < |s| && forall k :: 0 <= k < |s| ==> s[k] >= 0
    ensures 0 <= s[i] <= Sum(s)
  {
    SumUpdate(s, i, 0);
    var z := seq(|s|, k => 0);
    SumZero(z);
    SumMonotone(z, s[i := 0]);
  }

  /** Two different terms of a non-negative sum add up to at most the sum. */
  lemma TwoTermsAtMostSum(s: seq<int>, i: nat, j: nat)
    requires i < |s| && j < |s| && i != j
    requires forall k :: 0 <= k < |s| ==> s[k] >= 0
    ensures s[i] + s[j] <= Sum(s)
  {
    SumUpdate(s, i, 0);
    TermAtMostSum(s[i := 0], j);
  }

  lemma {:induction false} SumAtMost(s: seq<int>, c: int)
    requires forall i :: 0 <= i < |s| ==> s[i] <= c
    ensures Sum(s) <= c * |s|
  {
    if s != [] {
      SumAtMost(s[..|s| - 1], c);
    }
  }

  /** Zero terms at the end do not count. */
  lemma {:induction false} SumDropZeros(s: seq<int>, n: nat)
    requires n <= |s| && forall i :: n <= i < |s| ==> s[i] == 0
    ensures Sum(s) == Sum(s[..n])
  {
    if n == |s| {
      assert s[..n] == s;
    } else {
      assert s[..|s| - 1][..n] == s[..n];
      SumDropZeros(s[..|s| - 1], n);
    }
  }

  function Pow2(n: nat): (p: nat)
    ensures p >= 1
  {
    if n == 0 then 1 else 2 * Pow2(n - 1)
  }

  lemma {:induction false} Pow2Add(m: nat, n: nat)
    ensures Pow2(m + n) == Pow2(m) * Pow2(n)
  {
    if m != 0 {
      Pow2Add(m - 1, n);
      assert m + n - 1 == m - 1 + n;
      assert Pow2(m + n) == 2 * (Pow2(m - 1) * Pow2(n)) == (2 * Pow2(m - 1)) * Pow2(n);
    }
  }

  function Fib(n: nat): nat {
    if n < 2 then n else Fib(n - 1) + Fib(n - 2)
  }

  lemma {:induction false} FibMonotone(m: nat, n: nat)
    requires m <= n
    ensures Fib(m) <= Fib(n)
    decreases n
  {
    if m < n {
      FibMonotone(m, n - 1);
    }
  }

  /** The first Fibonacci number above the largest possible total weight. */
  lemma Fib25()
    ensures Fib(25) == 75025
  {
    assert Fib(5) == 5 && Fib(6) == 8;
    assert Fib(10) == 55 && Fib(9) == 34 by { assert Fib(7) == 13 && Fib(8) == 21; }
    assert Fib(11) == 89 && Fib(12) == 144;
    assert Fib(13) == 233 && Fib(14) == 377;
    assert Fib(15) == 610 && Fib(16) == 987;
    assert Fib(17) == 1597 && Fib(18) == 2584;
    assert Fib(19) == 4181 && Fib(20) == 6765;
    assert Fib(21) == 10946 && Fib(22) == 17711;
    assert Fib(23) == 28657 && Fib(24) == 46368;
  }
}
