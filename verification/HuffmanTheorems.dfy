/** The claims about the tables of the 4X Movie decoder, for every weight table a packet can hold. */
module HuffmanTheorems {
  import opened Sums
  import opened HuffmanForest
  import opened HuffmanCodes
  import opened HuffmanOptimal
  import opened HuffmanTables
  import opened HuffmanDecoder
  import opened PrefixCodes

  const MAX_LENGTH: nat := 22

  /** Weights of the symbols alone. */
  ghost function Symbols(f: seq<nat>): (g: seq<nat>)
    requires SymbolWeights(f)
    ensures |g| == SYMBOLS
  {
    f[..SYMBOLS]
  }

  /** 255 for each of 256 symbols and 1 for the end mark: below the sentinel and below the 25th Fibonacci number. */
  lemma TotalFits(f: seq<nat>)
    requires SymbolWeights(f)
    ensures Total(f) <= MAX_TOTAL < SENTINEL && MAX_TOTAL < Fib(25)
  {
    SumDropZeros(f, SYMBOLS);
    assert f[..SYMBOLS][..256] == f[..256];
    SumAtMost(f[..256], 255);
    Fib25();
  }

  lemma LiveCountRange(f: seq<nat>)
    requires SymbolWeights(f)
    ensures 1 <= LiveCount(f) <= SYMBOLS && LiveCount(f) == LiveCount(Symbols(f))
  {
    var m := LiveMarks(f);
    TermAtMostSum(m, 256);
    SumDropZeros(m, SYMBOLS);
    SumAtMost(m[..SYMBOLS], 1);
    assert m[..SYMBOLS] == LiveMarks(Symbols(f));
  }

  /** The words of all nodes, and what holds of them by construction. */
  lemma AllWords(f: seq<nat>) returns (s: Forest, w: seq<Code>)
    requires SymbolWeights(f)
    ensures Shape(s, SYMBOLS) && s.freq == f && |w| == NODES && Spells(s, SYMBOLS, w)
    ensures SymbolWords(f) == w[..SYMBOLS]
    ensures forall x :: 0 <= x < SYMBOLS && f[x] == 0 ==> w[x] == []
    ensures LiveCount(Build(s, SYMBOLS).freq) == if LiveCount(f) <= 256 then 1 else 2
    ensures Total(f) <= MAX_TOTAL
  {
    hide Total, LiveCount, Spells, Build;
    s := Start(f, seq(NODES, i => false));
    w := Words(s, SYMBOLS);
    WordsSpell(s, SYMBOLS);
    forall x | 0 <= x < SYMBOLS && f[x] == 0 ensures w[x] == [] {
      DeadWordsAreEmpty(f, seq(NODES, i => false), x);
    }
    TotalFits(f);
    LiveCountRange(f);
    RootsLeft(s, SYMBOLS);
  }

  /** Before any merge every tree is a leaf. */
  lemma LeavesAreBalanced(f: seq<nat>, h: seq<nat>)
    requires |f| == |h| && forall x :: 0 <= x < |h| ==> h[x] == 0
    ensures BalancedWeights(f, h, 0)
  {
    assert Fib(2) == 1;
  }

  /** The overflow message can never be printed: no code has more than 22 bits, whatever the weights. */
  lemma NoCodeIsLongerThan22(f: seq<nat>, x: nat)
    requires SymbolWeights(f) && x < SYMBOLS
    ensures |SymbolWords(f)[x]| <= MAX_LENGTH
  {
    var s, w := AllWords(f);
    if f[x] > 0 {
      var h := seq(NODES, i => 0);
      LeavesAreBalanced(f, h);
      DepthPlusHeight(s, SYMBOLS, w, h, 0, x);
    }
  }

  /** Symbols never used have no code. */
  lemma DeadSymbolsHaveNoCode(f: seq<nat>, x: nat)
    requires SymbolWeights(f) && x < SYMBOLS && f[x] == 0
    ensures SymbolWords(f)[x] == []
  {
    var s, w := AllWords(f);
  }

  /** Kraft sums over all nodes and over the symbols agree. */
  lemma SymbolSums(f: seq<nat>, w: seq<Code>, m: nat)
    requires SymbolWeights(f) && |w| == NODES
    ensures Kraft(f, LengthsOf(w), m) == Kraft(Symbols(f), LengthsOf(w[..SYMBOLS]), m)
    ensures Cost(f, LengthsOf(w)) == Cost(Symbols(f), LengthsOf(w[..SYMBOLS]))
  {
    SumDropZeros(KraftTerms(f, LengthsOf(w), m), SYMBOLS);
    assert KraftTerms(f, LengthsOf(w), m)[..SYMBOLS] == KraftTerms(Symbols(f), LengthsOf(w[..SYMBOLS]), m);
    SumDropZeros(CostTerms(f, LengthsOf(w)), SYMBOLS);
    assert CostTerms(f, LengthsOf(w))[..SYMBOLS] == CostTerms(Symbols(f), LengthsOf(w[..SYMBOLS]));
  }

  /** The code space used, in units of 2^-22: all of it once, or twice over when all 257 symbols are live. */
  lemma KraftSum(f: seq<nat>)
    requires SymbolWeights(f)
    ensures Kraft(Symbols(f), LengthsOf(SymbolWords(f)), MAX_LENGTH) ==
            Pow2(MAX_LENGTH) * (if LiveCount(f) <= 256 then 1 else 2)
  {
    var s, w := AllWords(f);
    forall x | 0 <= x < NODES && f[x] > 0 ensures |w[x]| <= MAX_LENGTH {
      NoCodeIsLongerThan22(f, x);
    }
    LengthsAccount(s, SYMBOLS, w, MAX_LENGTH);
    SymbolSums(f, w, MAX_LENGTH);
  }

  /** The words of the live symbols are prefix-free exactly when at most 256 symbols are live. */
  lemma PrefixFreeIff(f: seq<nat>)
    requires SymbolWeights(f)
    ensures PrefixFree(Symbols(f), SymbolWords(f)) <==> LiveCount(f) <= 256
  {
    if LiveCount(f) <= 256 {
      var s, w := AllWords(f);
      LiveWordsPrefixFree(s, SYMBOLS, w);
    } else if PrefixFree(Symbols(f), SymbolWords(f)) {
      forall x | 0 <= x < SYMBOLS ensures |SymbolWords(f)[x]| <= MAX_LENGTH {
        NoCodeIsLongerThan22(f, x);
      }
      KraftInequality(Symbols(f), SymbolWords(f), MAX_LENGTH);
      KraftSum(f);
    }
  }

  /** With 2 to 256 live symbols a symbol is live exactly when it has a code, and the code can be decoded. */
  lemma CodeIsDecodable(f: seq<nat>)
    requires SymbolWeights(f) && 2 <= LiveCount(f) <= 256
    ensures Decodable(SymbolWords(f))
    ensures forall x :: 0 <= x < SYMBOLS ==> (SymbolWords(f)[x] != [] <==> f[x] > 0)
  {
    var w := SymbolWords(f);
    PrefixFreeIff(f);
    LiveCountRange(f);
    forall x | 0 <= x < SYMBOLS ensures w[x] != [] <==> f[x] > 0 {
      if f[x] == 0 {
        DeadSymbolsHaveNoCode(f, x);
      } else if w[x] == [] {
        var m := LiveMarks(Symbols(f));
        forall y | 0 <= y < SYMBOLS && y != x ensures m[y] == 0 {
          assert w[x] <= w[y];
        }
        SumUpdate(m, x, 0);
        SumZero(m[x := 0]);
      }
    }
  }

  /** Decoding the concatenated codes of any live symbols gives the symbols back. */
  lemma DecodingInvertsEncoding(f: seq<nat>, symbols: seq<nat>)
    requires SymbolWeights(f) && 2 <= LiveCount(f) <= 256
    requires forall i :: 0 <= i < |symbols| ==> symbols[i] < SYMBOLS && f[symbols[i]] > 0
    ensures DecodeAll(SymbolWords(f), EncodeAll(SymbolWords(f), symbols)) == Some(symbols)
  {
    CodeIsDecodable(f);
    DecodeEncoded(SymbolWords(f), symbols);
  }

  /** No bit pattern is wasted: any 22 bits begin with the code of some live symbol. */
  lemma EveryPatternDecodes(f: seq<nat>, bits: Code)
    requires SymbolWeights(f) && 2 <= LiveCount(f) && |bits| >= MAX_LENGTH
    ensures exists x :: 0 <= x < SYMBOLS && f[x] > 0 && SymbolWords(f)[x] <= bits
  {
    var s, w := AllWords(f);
    forall x | 0 <= x < NODES && f[x] > 0 ensures |w[x]| <= |bits| {
      NoCodeIsLongerThan22(f, x);
    }
    var x := LiveWordsComplete(s, SYMBOLS, w, bits);
    assert SymbolWords(f)[x] <= bits;
  }

  lemma BuiltCost(f: seq<nat>, s: Forest, w: seq<Code>)
    requires SymbolWeights(f) && Shape(s, SYMBOLS) && s.freq == f && |w| == NODES && Spells(s, SYMBOLS, w)
    requires forall x :: 0 <= x < NODES && f[x] > 0 ==> |w[x]| <= MAX_LENGTH
    ensures Cost(Symbols(f), LengthsOf(w[..SYMBOLS])) == MergeCost(s, SYMBOLS)
  {
    hide Spells, Kraft, Cost;
    LengthsAccount(s, SYMBOLS, w, MAX_LENGTH);
    SymbolSums(f, w, MAX_LENGTH);
  }

  lemma NoneIsCheaper(f: seq<nat>, s: Forest, other: seq<Code>)
    requires SymbolWeights(f) && Shape(s, SYMBOLS) && s.freq == f
    requires |other| == SYMBOLS && PrefixFree(Symbols(f), other)
    ensures MergeCost(s, SYMBOLS) <= Cost(Symbols(f), LengthsOf(other))
  {
    hide Kraft, Cost, MergeCost;
    var v := other + seq(NODES - SYMBOLS, i => []);
    assert v[..SYMBOLS] == other;
    NoPrefixCodeIsShorter(s, SYMBOLS, v);
    SymbolSums(f, v, MAX_LENGTH);
  }

  /** Of two symbols whose codes differ in the last bit only, the lighter, or of equals the first, has the 0. */
  lemma LighterSiblingIsZero(f: seq<nat>, p: Code, x: nat, y: nat)
    requires SymbolWeights(f) && LiveCount(f) <= 256 && x < SYMBOLS && y < SYMBOLS && f[x] > 0 && f[y] > 0
    requires SymbolWords(f)[x] == p + [false] && SymbolWords(f)[y] == p + [true]
    ensures f[x] < f[y] || (f[x] == f[y] && x < y)
  {
    hide Build, Spells;
    var s, w := AllWords(f);
    SiblingsInOrder(s, SYMBOLS, w, p, x, y);
  }

  /** Optimality: no prefix code for the live symbols encodes the weights in fewer bits. */
  lemma CodeIsOptimal(f: seq<nat>, other: seq<Code>)
    requires SymbolWeights(f) && LiveCount(f) <= 256
    requires |other| == SYMBOLS && PrefixFree(Symbols(f), other)
    ensures Cost(Symbols(f), LengthsOf(SymbolWords(f))) <= Cost(Symbols(f), LengthsOf(other))
  {
    hide Cost, MergeCost, PrefixFree, Build;
    var s, w := AllWords(f);
    forall x | 0 <= x < NODES && f[x] > 0 ensures |w[x]| <= MAX_LENGTH {
      NoCodeIsLongerThan22(f, x);
    }
    BuiltCost(f, s, w);
    NoneIsCheaper(f, s, other);
  }
}
