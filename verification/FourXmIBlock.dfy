/**
 Run/level coefficient blocks of 4X Movie key frames: a DC difference and AC coefficients, coded as in
 sections F.1.2 and F.2.2 of ITU-T T.81 with category symbols in one stream and raw magnitude bits in another.
 */
module FourXmIBlock {
  import opened Sums
  import opened PrefixCodes

  const ZIGZAG: seq<nat> :=
    [0, 1, 8, 16, 9, 2, 3, 10] + [17, 24, 32, 25, 18, 11, 4, 5]
    + [12, 19, 26, 33, 40, 48, 41, 34] + [27, 20, 13, 6, 7, 14, 21, 28]
    + [35, 42, 49, 56, 57, 50, 43, 36] + [29, 22, 15, 23, 30, 37, 44, 51]
    + [58, 59, 52, 45, 38, 31, 39, 46] + [53, 60, 61, 54, 47, 55, 62, 63]

  /** Where each cell of the block comes in zigzag order. */
  const RANK: seq<nat> :=
    [0, 1, 5, 6, 14, 15, 27, 28] + [2, 4, 7, 13, 16, 26, 29, 42]
    + [3, 8, 12, 17, 25, 30, 41, 43] + [9, 11, 18, 24, 31, 40, 44, 53]
    + [10, 19, 23, 32, 39, 45, 52, 54] + [20, 22, 33, 38, 46, 51, 55, 60]
    + [21, 34, 37, 47, 50, 56, 59, 61] + [35, 36, 48, 49, 57, 58, 62, 63]

  const DEQUANT: seq<nat> :=
    [16, 15, 13, 19, 24, 31, 28, 17] + [17, 23, 25, 31, 36, 63, 45, 21]
    + [18, 24, 27, 37, 52, 59, 49, 20] + [16, 28, 34, 40, 60, 80, 51, 20]
    + [18, 31, 48, 66, 68, 86, 56, 21] + [19, 38, 56, 59, 64, 64, 48, 20]
    + [27, 48, 55, 55, 56, 51, 35, 15] + [20, 35, 34, 32, 31, 22, 15, 8]

  lemma TableSizes()
    ensures |ZIGZAG| == |RANK| == |DEQUANT| == 64
  {
  }

  lemma RankOfZigzag(k: nat)
    requires k < 64
    ensures |ZIGZAG| == |RANK| == 64 && ZIGZAG[k] < 64 && RANK[ZIGZAG[k]] == k
  {
    if k < 32 { RankOfEarly(k); } else { RankOfLate(k); }
  }

  lemma RankOfEarly(k: nat)
    requires k < 32
    ensures |ZIGZAG| == |RANK| == 64 && ZIGZAG[k] < 64 && RANK[ZIGZAG[k]] == k
  {
  }

  lemma RankOfLate(k: nat)
    requires 32 <= k < 64
    ensures |ZIGZAG| == |RANK| == 64 && ZIGZAG[k] < 64 && RANK[ZIGZAG[k]] == k
  {
  }

  lemma ZigzagOfRank(c: nat)
    requires c < 64
    ensures |ZIGZAG| == |RANK| == 64 && RANK[c] < 64 && ZIGZAG[RANK[c]] == c
  {
    if c < 32 { ZigzagOfUpper(c); } else { ZigzagOfLower(c); }
  }

  lemma ZigzagOfUpper(c: nat)
    requires c < 32
    ensures |ZIGZAG| == |RANK| == 64 && RANK[c] < 64 && ZIGZAG[RANK[c]] == c
  {
  }

  lemma ZigzagOfLower(c: nat)
    requires 32 <= c < 64
    ensures |ZIGZAG| == |RANK| == 64 && RANK[c] < 64 && ZIGZAG[RANK[c]] == c
  {
  }

  /** The zigzag order visits every cell of the block exactly once. */
  function ZigzagCell(k: nat): (c: nat)
    requires k < 64
    ensures c < 64 && CellRank(c) == k
  {
    RankOfZigzag(k);
    ZIGZAG[k]
  }

  /** Down the diagonals, whose cells have one sum of row and column: odd ones downwards, even ones upwards. */
  predicate NextOnZigzag(a: nat, b: nat) {
    var d, e := a / 8 + a % 8, b / 8 + b % 8;
    d < e || (d == e && if d % 2 == 1 then a / 8 < b / 8 else a / 8 > b / 8)
  }

  lemma ZigzagTurns0(k: nat)
    requires 0 <= k < 8
    ensures |ZIGZAG| == 64 && NextOnZigzag(ZIGZAG[k], ZIGZAG[k + 1])
  {
  }

  lemma ZigzagTurns1(k: nat)
    requires 8 <= k < 16
    ensures |ZIGZAG| == 64 && NextOnZigzag(ZIGZAG[k], ZIGZAG[k + 1])
  {
  }

  lemma ZigzagTurns2(k: nat)
    requires 16 <= k < 24
    ensures |ZIGZAG| == 64 && NextOnZigzag(ZIGZAG[k], ZIGZAG[k + 1])
  {
  }

  lemma ZigzagTurns3(k: nat)
    requires 24 <= k < 32
    ensures |ZIGZAG| == 64 && NextOnZigzag(ZIGZAG[k], ZIGZAG[k + 1])
  {
  }

  lemma ZigzagTurns4(k: nat)
    requires 32 <= k < 40
    ensures |ZIGZAG| == 64 && NextOnZigzag(ZIGZAG[k], ZIGZAG[k + 1])
  {
  }

  lemma ZigzagTurns5(k: nat)
    requires 40 <= k < 48
    ensures |ZIGZAG| == 64 && NextOnZigzag(ZIGZAG[k], ZIGZAG[k + 1])
  {
  }

  lemma ZigzagTurns6(k: nat)
    requires 48 <= k < 56
    ensures |ZIGZAG| == 64 && NextOnZigzag(ZIGZAG[k], ZIGZAG[k + 1])
  {
  }

  lemma ZigzagTurns7(k: nat)
    requires 56 <= k < 63
    ensures |ZIGZAG| == 64 && NextOnZigzag(ZIGZAG[k], ZIGZAG[k + 1])
  {
  }

  /** The order is the zigzag of section A.3.6 of ITU-T T.81. */
  lemma ZigzagTurns(k: nat)
    requires k < 63
    ensures NextOnZigzag(ZigzagCell(k), ZigzagCell(k + 1))
  {
    hide NextOnZigzag;
    if k < 8 {
      ZigzagTurns0(k);
    } else if k < 16 {
      ZigzagTurns1(k);
    } else if k < 24 {
      ZigzagTurns2(k);
    } else if k < 32 {
      ZigzagTurns3(k);
    } else if k < 40 {
      ZigzagTurns4(k);
    } else if k < 48 {
      ZigzagTurns5(k);
    } else if k < 56 {
      ZigzagTurns6(k);
    } else {
      ZigzagTurns7(k);
    }
  }

  function CellRank(c: nat): (k: nat)
    requires c < 64
    ensures k < 64
  {
    ZigzagOfRank(c);
    RANK[c]
  }

  lemma CellOfRank(c: nat)
    requires c < 64
    ensures ZigzagCell(CellRank(c)) == c
  {
    ZigzagOfRank(c);
  }

  function Factor(c: nat): nat
    requires c < 64
  {
    TableSizes();
    DEQUANT[c]
  }

  /** Luminance quantisation of table K.1 of ITU-T T.81. */
  const QUANT: seq<nat> :=
    [16, 11, 10, 16, 24, 40, 51, 61] + [12, 12, 14, 19, 26, 58, 60, 55]
    + [14, 13, 16, 24, 40, 57, 69, 56] + [14, 17, 22, 29, 51, 87, 80, 62]
    + [18, 22, 37, 56, 68, 109, 103, 77] + [24, 35, 55, 64, 81, 104, 113, 92]
    + [49, 64, 78, 87, 103, 121, 120, 101] + [72, 92, 95, 98, 112, 100, 103, 99]

  /** Premultipliers of the Arai-Agui-Nakajima transform in units of 2^-14: 1, and sqrt(2) * cos(k * pi / 16). */
  function Premultiplier(k: nat): nat
    requires k < 8
  {
    [16384, 22725, 21407, 19266, 16384, 12873, 8867, 4520][k]
  }

  function Product(row: nat, column: nat, q: nat): nat
    requires row < 8 && column < 8
  {
    Premultiplier(row) * Premultiplier(column) * q
  }

  /** `n` is nearest to `x` in units of 2^-28. */
  predicate Rounded(n: nat, x: nat) {
    x <= n * 0x1000_0000 + 0x800_0000 && n * 0x1000_0000 <= x + 0x800_0000
  }

  lemma RoundedRow0(c: nat)
    requires 0 <= c < 8
    ensures |DEQUANT| == |QUANT| == 64 && Rounded(DEQUANT[c], Product(c / 8, c % 8, QUANT[c]))
  {
  }

  lemma RoundedRow1(c: nat)
    requires 8 <= c < 16
    ensures |DEQUANT| == |QUANT| == 64 && Rounded(DEQUANT[c], Product(c / 8, c % 8, QUANT[c]))
  {
  }

  lemma RoundedRow2(c: nat)
    requires 16 <= c < 24
    ensures |DEQUANT| == |QUANT| == 64 && Rounded(DEQUANT[c], Product(c / 8, c % 8, QUANT[c]))
  {
  }

  lemma RoundedRow3(c: nat)
    requires 24 <= c < 32
    ensures |DEQUANT| == |QUANT| == 64 && Rounded(DEQUANT[c], Product(c / 8, c % 8, QUANT[c]))
  {
  }

  lemma RoundedRow4(c: nat)
    requires 32 <= c < 40
    ensures |DEQUANT| == |QUANT| == 64 && Rounded(DEQUANT[c], Product(c / 8, c % 8, QUANT[c]))
  {
  }

  lemma RoundedRow5(c: nat)
    requires 40 <= c < 48
    ensures |DEQUANT| == |QUANT| == 64 && Rounded(DEQUANT[c], Product(c / 8, c % 8, QUANT[c]))
  {
  }

  lemma RoundedRow6(c: nat)
    requires 48 <= c < 56
    ensures |DEQUANT| == |QUANT| == 64 && Rounded(DEQUANT[c], Product(c / 8, c % 8, QUANT[c]))
  {
  }

  lemma RoundedRow7(c: nat)
    requires 56 <= c < 64
    ensures |DEQUANT| == |QUANT| == 64 && Rounded(DEQUANT[c], Product(c / 8, c % 8, QUANT[c]))
  {
  }

  /** Each factor is the quantiser of its cell times the premultipliers of its row and column, rounded. */
  lemma FactorIsRounded(c: nat)
    requires c < 64
    ensures |QUANT| == 64 && Rounded(Factor(c), Product(c / 8, c % 8, QUANT[c]))
  {
    hide Rounded, Product;
    if c < 8 {
      RoundedRow0(c);
    } else if c < 16 {
      RoundedRow1(c);
    } else if c < 24 {
      RoundedRow2(c);
    } else if c < 32 {
      RoundedRow3(c);
    } else if c < 40 {
      RoundedRow4(c);
    } else if c < 48 {
      RoundedRow5(c);
    } else if c < 56 {
      RoundedRow6(c);
    } else {
      RoundedRow7(c);
    }
  }

  /** Conversion to int16_t. */
  function Wrap16(x: int): (w: int)
    ensures -0x8000 <= w < 0x8000 && (w - x) % 0x10000 == 0
    ensures -0x8000 <= x < 0x8000 ==> w == x
  {
    (x + 0x8000) % 0x10000 - 0x8000
  }

  // ---------- magnitudes

  /** get_xbits: a leading 1 means the value itself, a leading 0 a negative value counted up from -(2^n - 1). */
  function SignedValue(c: Bits): int
    requires c != []
  {
    if c[0] then BitsValue(c) else BitsValue(c) - Pow2(|c|) + 1
  }

  /** Bits needed for the magnitude of `v`. */
  function Category(v: nat): (n: nat)
    ensures v < Pow2(n) && (n > 0 ==> Pow2(n - 1) <= v)
  {
    if v == 0 then 0 else 1 + Category(v / 2)
  }

  function Abs(v: int): nat { if v < 0 then -v else v }

  /** `v` in `n` bits, most significant first. */
  function ToBits(v: nat, n: nat): (c: Bits)
    requires v < Pow2(n)
    ensures |c| == n && BitsValue(c) == v
  {
    if n == 0 then []
    else
      AppendBit(ToBits(v / 2, n - 1), v % 2 == 1);
      ToBits(v / 2, n - 1) + [v % 2 == 1]
  }

  lemma {:induction false} LeadingBit(v: nat, n: nat)
    requires n > 0 && v < Pow2(n)
    ensures ToBits(v, n)[0] <==> v >= Pow2(n - 1)
  {
    if n > 1 {
      LeadingBit(v / 2, n - 1);
    }
  }

  /** The raw bits of a nonzero level. */
  function Magnitude(v: int): (c: Bits)
    requires v != 0
    ensures |c| == Category(Abs(v)) > 0
  {
    var n := Category(Abs(v));
    if v > 0 then ToBits(v, n) else ToBits(v + Pow2(n) - 1, n)
  }

  function Complement(c: Bits): (d: Bits)
    ensures |d| == |c|
  {
    seq(|c|, i requires 0 <= i < |c| => !c[i])
  }

  lemma {:induction false} ComplementValue(c: Bits)
    ensures BitsValue(Complement(c)) == Pow2(|c|) - 1 - BitsValue(c)
  {
    if c != [] {
      var n := |c| - 1;
      ComplementValue(c[..n]);
      assert Complement(c)[..n] == Complement(c[..n]);
    }
  }

  /** A leading 1 makes the bits the value itself, and turning all bits over changes its sign. */
  lemma SignedBits(c: Bits)
    requires c != []
    ensures c[0] ==> SignedValue(c) == BitsValue(c)
    ensures SignedValue(Complement(c)) == -SignedValue(c)
  {
    ComplementValue(c);
    assert Complement(c)[0] == !c[0];
  }

  /** Raw bits of a level read back as the level. */
  lemma MagnitudeRoundTrip(v: int)
    requires v != 0
    ensures SignedValue(Magnitude(v)) == v
  {
    var n := Category(Abs(v));
    assert Pow2(n) == 2 * Pow2(n - 1);
    LeadingBit(if v > 0 then v else v + Pow2(n) - 1, n);
  }

  // ---------- the decoder on values

  /** Both streams from their cursors on, the block being filled and the DC predictor. */
  datatype State = State(pre: Bits, raw: Bits, block: seq<int>, lastDc: int)

  /** `Overread` stands for a stream ending inside a symbol; what is read behind the end is not modelled. */
  datatype Status = Ok | Invalid | Overread

  datatype Outcome = Outcome(status: Status, state: State)

  const EOB: nat := 0
  const ZRL: nat := 0xf0

  datatype Step = Stop(outcome: Outcome) | More(state: State, i: nat)

  /** One round of the AC loop, about to fill zigzag position `i`. */
  function AcStep(words: seq<Bits>, s: State, i: nat): (r: Step)
    requires |s.block| == 64
    ensures r.Stop? ==> |r.outcome.state.block| == 64
    ensures r.More? ==> |r.state.block| == 64 && |r.state.pre| < |s.pre|
  {
    match ReadSymbol(words, s.pre)
    case None => Stop(Outcome(Overread, s))
    case Some(code) =>
      var t := s.(pre := s.pre[|words[code]|..]);
      if code == EOB then Stop(Outcome(Ok, t))
      else if code == ZRL then More(t, i + 16)
      else AcLevel(t, i + code / 16, code % 16)
  }

  /** A level of `n` raw bits for position `k`; a position past the block ends it without an error. */
  function AcLevel(s: State, k: nat, n: nat): (r: Step)
    requires |s.block| == 64
    ensures r.Stop? ==> |r.outcome.state.block| == 64
    ensures r.More? ==> |r.state.block| == 64 && r.state.pre == s.pre
  {
    if n == 0 then Stop(Outcome(Invalid, s))
    else if |s.raw| < n then Stop(Outcome(Overread, s))
    else
      var level, t := SignedValue(s.raw[..n]), s.(raw := s.raw[n..]);
      if k >= 64 then Stop(Outcome(Ok, t))
      else
        var u := t.(block := t.block[ZigzagCell(k) := Wrap16(level * Factor(ZigzagCell(k)))]);
        if k + 1 >= 64 then Stop(Outcome(Ok, u)) else More(u, k + 1)
  }

  function AcLoop(words: seq<Bits>, s: State, i: nat): (r: Outcome)
    requires |s.block| == 64
    ensures |r.state.block| == 64
    decreases |s.pre|
  {
    match AcStep(words, s, i)
    case Stop(outcome) => outcome
    case More(t, k) => AcLoop(words, t, k)
  }

  /** The DC difference: symbol and raw bits taken off the streams. */
  function ReadDc(words: seq<Bits>, s: State): (r: Outcome)
    requires |s.block| == 64
    ensures |r.state.block| == 64
  {
    if |s.raw| < 2 then Outcome(Invalid, s)
    else
      match ReadSymbol(words, s.pre)
      case None => Outcome(Overread, s)
      case Some(n) => DcLevel(s.(pre := s.pre[|words[n]|..]), n)
  }

  /** The DC value is stored in 16 bits, and that is what the next block is predicted from. */
  function DcLevel(s: State, n: nat): (r: Outcome)
    requires |s.block| == 64
    ensures |r.state.block| == 64
  {
    if n / 16 != 0 then Outcome(Invalid, s)
    else if |s.raw| < n then Outcome(Overread, s)
    else
      var dc := Wrap16((if n == 0 then 0 else SignedValue(s.raw[..n])) * Factor(0) + s.lastDc);
      Outcome(Ok, s.(raw := s.raw[n..], block := s.block[0 := dc], lastDc := dc))
  }

  function DecodeBlock(words: seq<Bits>, s: State): (r: Outcome)
    requires |s.block| == 64
    ensures |r.state.block| == 64
  {
    var dc := ReadDc(words, s);
    if dc.status != Ok then dc else AcLoop(words, dc.state, 1)
  }

  // ---------- the encoder

  /** Quantised levels in zigzag order, the first being the DC difference: each fits 15 magnitude bits. */
  ghost predicate Levels(q: seq<int>) {
    |q| == 64 && forall k :: 0 <= k < 64 ==> Abs(q[k]) < 0x8000
  }

  lemma {:induction false} CategoryAtMost(v: nat, n: nat)
    requires v < Pow2(n)
    ensures Category(v) <= n
  {
    if v != 0 {
      CategoryAtMost(v / 2, n - 1);
    }
  }

  lemma CategoryFits(v: nat)
    requires v < 0x8000
    ensures Category(v) <= 15
  {
    assert Pow2(5) == 32 && Pow2(10) == 1024;
    assert Pow2(15) == 0x8000;
    CategoryAtMost(v, 15);
  }

  /** Number of zero levels from position `i` on. */
  function ZeroRun(q: seq<int>, i: nat): (r: nat)
    requires i <= |q|
    ensures i + r <= |q| && (i + r < |q| ==> q[i + r] != 0) && forall k :: i <= k < i + r ==> q[k] == 0
    decreases |q| - i
  {
    if i == |q| || q[i] != 0 then 0 else 1 + ZeroRun(q, i + 1)
  }

  /** Symbols for the levels from `i` on: runs beyond 15 split off, an end mark unless the last level is nonzero. */
  function AcSymbols(q: seq<int>, i: nat): (s: seq<nat>)
    requires |q| == 64 && i <= 64
    decreases 64 - i
  {
    var r := ZeroRun(q, i);
    if i == 64 then []
    else if i + r == 64 then [EOB]
    else if r >= 16 then [ZRL] + AcSymbols(q, i + 16)
    else [16 * r + Category(Abs(q[i + r]))] + AcSymbols(q, i + r + 1)
  }

  /** Raw bits for the levels from `i` on. */
  function AcRaw(q: seq<int>, i: nat): (c: Bits)
    requires |q| == 64 && i <= 64
    decreases 64 - i
  {
    var r := ZeroRun(q, i);
    if i + r == 64 then []
    else if r >= 16 then AcRaw(q, i + 16)
    else Magnitude(q[i + r]) + AcRaw(q, i + r + 1)
  }

  function BlockSymbols(q: seq<int>): (s: seq<nat>)
    requires |q| == 64
  {
    [Category(Abs(q[0]))] + AcSymbols(q, 1)
  }

  function BlockRaw(q: seq<int>): (c: Bits)
    requires |q| == 64
  {
    (if q[0] == 0 then [] else Magnitude(q[0])) + AcRaw(q, 1)
  }

  /** All symbols have a word. */
  ghost predicate Covers(words: seq<Bits>, symbols: seq<nat>) {
    forall i :: 0 <= i < |symbols| ==> symbols[i] < |words| && words[symbols[i]] != []
  }

  // ---------- what a block means

  /** The cells filled before zigzag position `n`: DC first, then each level times its factor; zero elsewhere. */
  function Partial(q: seq<int>, dc: int, n: nat): (b: seq<int>)
    requires |q| == 64
    ensures |b| == 64
  {
    seq(64, c requires 0 <= c < 64 =>
      if CellRank(c) == 0 then dc
      else if CellRank(c) < n then Wrap16(q[CellRank(c)] * Factor(c))
      else 0)
  }

  function Dequantised(q: seq<int>, dc: int): (b: seq<int>)
    requires |q| == 64
    ensures |b| == 64
  {
    Partial(q, dc, 64)
  }

  // ---------- the round trip

  /** A block with one level dequantised into its cell. */
  function Placed(block: seq<int>, k: nat, level: int): (b: seq<int>)
    requires |block| == 64 && k < 64
    ensures |b| == 64
  {
    block[ZigzagCell(k) := Wrap16(level * Factor(ZigzagCell(k)))]
  }

  /** Placing the next nonzero level completes the block up to it. */
  lemma PlaceLevel(q: seq<int>, dc: int, i: nat, k: nat)
    requires |q| == 64 && 1 <= i <= k < 64 && forall j :: i <= j < k ==> q[j] == 0
    ensures Placed(Partial(q, dc, i), k, q[k]) == Partial(q, dc, k + 1)
  {
    hide Wrap16, Factor, ZigzagCell, CellRank;
    var c := ZigzagCell(k);
    assert Partial(q, dc, k + 1)[c] == Wrap16(q[k] * Factor(c));
    forall d | 0 <= d < 64 && d != c ensures Partial(q, dc, i)[d] == Partial(q, dc, k + 1)[d] {
      CellOfRank(d);
    }
  }

  lemma SkipZeros(q: seq<int>, dc: int, i: nat, k: nat)
    requires |q| == 64 && 1 <= i <= k <= 64 && forall j :: i <= j < k ==> q[j] == 0
    ensures Partial(q, dc, i) == Partial(q, dc, k)
  {
  }

  /** One step of the AC loop on a printed symbol. */
  lemma ReadAc(words: seq<Bits>, symbols: seq<nat>, rest: Bits)
    requires Decodable(words) && symbols != [] && Covers(words, symbols)
    ensures var s := EncodeAll(words, symbols) + rest;
            ReadSymbol(words, s) == Some(symbols[0]) &&
            s[|words[symbols[0]]|..] == EncodeAll(words, symbols[1..]) + rest
  {
    var w, tail := words[symbols[0]], EncodeAll(words, symbols[1..]);
    assert EncodeAll(words, symbols) + rest == w + (tail + rest);
    ReadPrinted(words, symbols[0], tail + rest);
  }

  /** One level off both streams. */
  lemma StepLevel(words: seq<Bits>, s: State, i: nat, code: nat, run: nat, m: Bits, pre: Bits, raw: Bits)
    requires |s.block| == 64 && run < 16 && 1 <= |m| <= 15 && i + run < 64 && code == 16 * run + |m|
    requires ReadSymbol(words, s.pre) == Some(code) && s.pre[|words[code]|..] == pre
    requires s.raw == m + raw
    ensures var t := State(pre, raw, Placed(s.block, i + run, SignedValue(m)), s.lastDc);
            AcStep(words, s, i) == if i + run == 63 then Stop(Outcome(Ok, t)) else More(t, i + run + 1)
  {
    hide SignedValue, Wrap16, Factor, ZigzagCell, ReadSymbol;
    assert code % 16 == |m| && code / 16 == run;
    assert s.raw[..|m|] == m && s.raw[|m|..] == raw;
  }

  lemma LevelFits(q: seq<int>, k: nat)
    requires Levels(q) && k < 64
    ensures |q| == 64 && Abs(q[k]) < 0x8000
  {
  }

  /** What the encoder prints when a level within reach comes next. */
  lemma NextLevel(q: seq<int>, i: nat) returns (k: nat, m: Bits)
    requires Levels(q) && i < 64 && ZeroRun(q, i) < 16 && i + ZeroRun(q, i) < 64
    ensures k == i + ZeroRun(q, i) && q[k] != 0 && forall j :: i <= j < k ==> q[j] == 0
    ensures 1 <= |m| <= 15 && SignedValue(m) == q[k]
    ensures AcSymbols(q, i) == [16 * (k - i) + |m|] + AcSymbols(q, k + 1)
    ensures AcRaw(q, i) == m + AcRaw(q, k + 1)
  {
    hide Category, Magnitude, SignedValue, ZeroRun, Abs, Levels;
    k := i + ZeroRun(q, i);
    LevelFits(q, k);
    m := Magnitude(q[k]);
    CategoryFits(Abs(q[k]));
    MagnitudeRoundTrip(q[k]);
  }

  /** Printed levels from position `i` on, the block being complete before it. */
  ghost function AcState(words: seq<Bits>, q: seq<int>, i: nat, dc: int, pre: Bits, raw: Bits): (s: State)
    requires |q| == 64 && i <= 64 && Covers(words, AcSymbols(q, i))
    ensures |s.block| == 64
  {
    State(EncodeAll(words, AcSymbols(q, i)) + pre, AcRaw(q, i) + raw, Partial(q, dc, i), dc)
  }

  lemma AcStates(words: seq<Bits>, q: seq<int>, i: nat, dc: int, pre: Bits, raw: Bits)
    requires |q| == 64 && i <= 64 && Covers(words, AcSymbols(q, i))
    ensures AcState(words, q, i, dc, pre, raw) ==
            State(EncodeAll(words, AcSymbols(q, i)) + pre, AcRaw(q, i) + raw, Partial(q, dc, i), dc)
  {
  }

  /** Nothing but zeros is left: the end mark. */
  lemma AcEnd(words: seq<Bits>, q: seq<int>, i: nat, dc: int, pre: Bits, raw: Bits)
    requires Decodable(words) && |q| == 64 && 1 <= i < 64 && Covers(words, AcSymbols(q, i)) && i + ZeroRun(q, i) == 64
    ensures AcStep(words, AcState(words, q, i, dc, pre, raw), i)
         == Stop(Outcome(Ok, State(pre, raw, Dequantised(q, dc), dc)))
  {
    hide Decodable, ReadSymbol, Partial;
    ReadAc(words, AcSymbols(q, i), pre);
    SkipZeros(q, dc, i, 64);
    assert AcSymbols(q, i)[1..] == [] && AcRaw(q, i) + raw == raw;
  }

  lemma ZerosOff(words: seq<Bits>, symbols: seq<nat>, more: seq<nat>, s: State, i: nat, pre: Bits)
    requires Decodable(words) && Covers(words, symbols) && symbols == [ZRL] + more && |s.block| == 64
    requires s.pre == EncodeAll(words, symbols) + pre
    ensures Covers(words, more) && AcStep(words, s, i) == More(s.(pre := EncodeAll(words, more) + pre), i + 16)
  {
    hide Decodable, ReadSymbol, EncodeAll, Covers, AcLevel;
    SymbolOff(words, symbols, ZRL, more, pre);
  }

  /** Sixteen zeros. */
  lemma AcZeros(words: seq<Bits>, q: seq<int>, i: nat, dc: int, pre: Bits, raw: Bits)
    requires Decodable(words) && |q| == 64 && 1 <= i < 64 && Covers(words, AcSymbols(q, i))
    requires ZeroRun(q, i) >= 16 && i + ZeroRun(q, i) < 64
    ensures i + 16 < 64 && Covers(words, AcSymbols(q, i + 16))
    ensures AcStep(words, AcState(words, q, i, dc, pre, raw), i) == More(AcState(words, q, i + 16, dc, pre, raw), i + 16)
  {
    hide Decodable, Partial, AcStep, Covers, EncodeAll;
    SkipZeros(q, dc, i, i + 16);
    ZerosOff(words, AcSymbols(q, i), AcSymbols(q, i + 16), AcState(words, q, i, dc, pre, raw), i, pre);
  }

  lemma CoversTail(words: seq<Bits>, symbols: seq<nat>)
    requires symbols != [] && Covers(words, symbols)
    ensures Covers(words, symbols[1..])
  {
    assert forall j :: 0 <= j < |symbols| - 1 ==> symbols[1..][j] == symbols[j + 1];
  }

  /** The prefix stream advances by one symbol. */
  lemma SymbolOff(words: seq<Bits>, symbols: seq<nat>, code: nat, more: seq<nat>, pre: Bits)
    requires Decodable(words) && Covers(words, symbols) && symbols == [code] + more
    ensures Covers(words, more) && code < |words|
    ensures ReadSymbol(words, EncodeAll(words, symbols) + pre) == Some(code)
    ensures (EncodeAll(words, symbols) + pre)[|words[code]|..] == EncodeAll(words, more) + pre
  {
    assert symbols[1..] == more;
    CoversTail(words, symbols);
    ReadAc(words, symbols, pre);
  }

  lemma LevelOff(words: seq<Bits>, symbols: seq<nat>, more: seq<nat>, s: State, i: nat, k: nat, m: Bits, pre: Bits,
                 raw: Bits)
    requires Decodable(words) && Covers(words, symbols) && symbols == [16 * (k - i) + |m|] + more && |s.block| == 64
    requires i <= k < 64 && k - i < 16 && 1 <= |m| <= 15
    requires s.pre == EncodeAll(words, symbols) + pre && s.raw == m + raw
    ensures Covers(words, more)
    ensures var t := State(EncodeAll(words, more) + pre, raw, Placed(s.block, k, SignedValue(m)), s.lastDc);
            AcStep(words, s, i) == if k == 63 then Stop(Outcome(Ok, t)) else More(t, k + 1)
  {
    hide *;
    var code := 16 * (k - i) + |m|;
    SymbolOff(words, symbols, code, more, pre);
    StepLevel(words, s, i, code, k - i, m, EncodeAll(words, more) + pre, raw);
  }

  /** A level with fewer than sixteen zeros before it. */
  lemma AcLevelStep(words: seq<Bits>, q: seq<int>, i: nat, dc: int, pre: Bits, raw: Bits) returns (k: nat)
    requires Decodable(words) && Levels(q) && 1 <= i < 64 && Covers(words, AcSymbols(q, i))
    requires |q| == 64 && ZeroRun(q, i) < 16 && i + ZeroRun(q, i) < 64
    ensures i <= k < 64 && Covers(words, AcSymbols(q, k + 1))
    ensures AcStep(words, AcState(words, q, i, dc, pre, raw), i) ==
            if k == 63 then Stop(Outcome(Ok, AcState(words, q, 64, dc, pre, raw)))
            else More(AcState(words, q, k + 1, dc, pre, raw), k + 1)
  {
    hide *;
    var m: Bits;
    k, m := NextLevel(q, i);
    ConcatAssociative(m, AcRaw(q, k + 1), raw);
    AcStates(words, q, i, dc, pre, raw);
    LevelOff(words, AcSymbols(q, i), AcSymbols(q, k + 1), AcState(words, q, i, dc, pre, raw), i, k, m, pre,
             AcRaw(q, k + 1) + raw);
    PlaceLevel(q, dc, i, k);
    AcStates(words, q, k + 1, dc, pre, raw);
  }

  lemma AcDone(words: seq<Bits>, q: seq<int>, dc: int, pre: Bits, raw: Bits)
    requires |q| == 64
    ensures AcState(words, q, 64, dc, pre, raw) == State(pre, raw, Dequantised(q, dc), dc)
  {
    assert EncodeAll(words, AcSymbols(q, 64)) + pre == pre && AcRaw(q, 64) + raw == raw;
  }

  /** The decoder undoes the AC encoder from any position on. */
  lemma {:induction false} AcRoundTrip(words: seq<Bits>, q: seq<int>, i: nat, dc: int, pre: Bits, raw: Bits)
    requires Decodable(words) && Levels(q) && 1 <= i < 64 && Covers(words, AcSymbols(q, i))
    ensures AcLoop(words, AcState(words, q, i, dc, pre, raw), i) == Outcome(Ok, State(pre, raw, Dequantised(q, dc), dc))
    decreases 64 - i
  {
    hide AcState, AcStep, AcSymbols, Covers, Decodable, Dequantised;
    if i + ZeroRun(q, i) == 64 {
      AcEnd(words, q, i, dc, pre, raw);
    } else if ZeroRun(q, i) >= 16 {
      AcZeros(words, q, i, dc, pre, raw);
      AcRoundTrip(words, q, i + 16, dc, pre, raw);
    } else {
      var k := AcLevelStep(words, q, i, dc, pre, raw);
      if k < 63 {
        AcRoundTrip(words, q, k + 1, dc, pre, raw);
      } else {
        AcDone(words, q, dc, pre, raw);
      }
    }
  }

  function Cleared(): (b: seq<int>)
    ensures |b| == 64 && forall c :: 0 <= c < 64 ==> b[c] == 0
  {
    seq(64, c => 0)
  }

  /** The predicted DC of a block: difference scaled, added to the predecessor's, stored in 16 bits. */
  function PredictedDc(q: seq<int>, lastDc: int): int
    requires |q| == 64
  {
    Wrap16(q[0] * Factor(0) + lastDc)
  }

  /** The streams of a printed block followed by anything. */
  function Printed(words: seq<Bits>, q: seq<int>, lastDc: int, pre: Bits, raw: Bits): (s: State)
    requires |q| == 64 && forall i :: 0 <= i < |BlockSymbols(q)| ==> BlockSymbols(q)[i] < |words|
    ensures |s.block| == 64
  {
    State(EncodeAll(words, BlockSymbols(q)) + pre, BlockRaw(q) + raw, Cleared(), lastDc)
  }

  lemma DcLevelReads(s: State, m: Bits, raw: Bits, v: int)
    requires |s.block| == 64 && |m| <= 15 && s.raw == m + raw && v == (if m == [] then 0 else SignedValue(m))
    ensures var dc := Wrap16(v * Factor(0) + s.lastDc);
            DcLevel(s, |m|) == Outcome(Ok, State(s.pre, raw, s.block[0 := dc], dc))
  {
    hide SignedValue, Wrap16, Factor;
    assert s.raw[..|m|] == m && s.raw[|m|..] == raw;
  }

  lemma DcLevelRoundTrip(q: seq<int>, s: State, m: Bits, raw: Bits)
    requires Levels(q) && |s.block| == 64 && m == (if q[0] == 0 then [] else Magnitude(q[0])) && s.raw == m + raw
    ensures var dc := PredictedDc(q, s.lastDc);
            DcLevel(s, Category(Abs(q[0]))) == Outcome(Ok, State(s.pre, raw, s.block[0 := dc], dc))
  {
    hide Magnitude, SignedValue, Wrap16, Factor, DcLevel;
    assert |m| == Category(Abs(q[0]));
    CategoryFits(Abs(q[0]));
    if q[0] != 0 {
      MagnitudeRoundTrip(q[0]);
    }
    DcLevelReads(s, m, raw, q[0]);
  }

  /** The decoder undoes the DC encoder. */
  lemma DcRoundTrip(words: seq<Bits>, q: seq<int>, lastDc: int, pre: Bits, raw: Bits)
    requires Decodable(words) && Levels(q) && Covers(words, BlockSymbols(q)) && |BlockRaw(q)| + |raw| >= 2
    ensures var dc := PredictedDc(q, lastDc);
            ReadDc(words, Printed(words, q, lastDc, pre, raw)) ==
              Outcome(Ok, State(EncodeAll(words, BlockSymbols(q)[1..]) + pre, AcRaw(q, 1) + raw, Cleared()[0 := dc], dc))
  {
    var symbols, s := BlockSymbols(q), Printed(words, q, lastDc, pre, raw);
    ReadAc(words, symbols, pre);
    var m := if q[0] == 0 then [] else Magnitude(q[0]);
    ConcatAssociative(m, AcRaw(q, 1), raw);
    DcLevelRoundTrip(q, s.(pre := EncodeAll(words, symbols[1..]) + pre), m, AcRaw(q, 1) + raw);
  }

  lemma OnlyDc(q: seq<int>, dc: int)
    requires |q| == 64
    ensures Partial(q, dc, 1) == Cleared()[0 := dc]
  {
    forall c | 0 <= c < 64 ensures Partial(q, dc, 1)[c] == Cleared()[0 := dc][c] {
      CellOfRank(c);
      assert ZigzagCell(0) == 0;
    }
  }

  /**
   Decoding undoes encoding exactly when two raw bits are left at the start of the block, the decoder's own test:
   same coefficients, same predicted DC, and both cursors right behind the block.
   */
  lemma BlockRoundTrip(words: seq<Bits>, q: seq<int>, lastDc: int, pre: Bits, raw: Bits)
    requires Decodable(words) && Levels(q) && Covers(words, BlockSymbols(q))
    ensures var dc := PredictedDc(q, lastDc);
            DecodeBlock(words, Printed(words, q, lastDc, pre, raw)) == Outcome(Ok, State(pre, raw, Dequantised(q, dc), dc))
            <==> |BlockRaw(q)| + |raw| >= 2
  {
    hide ReadSymbol, AcLoop, Category, Factor, Wrap16, AcSymbols, AcRaw, Decodable, Partial;
    if |BlockRaw(q)| + |raw| >= 2 {
      var dc, symbols := PredictedDc(q, lastDc), BlockSymbols(q);
      DcRoundTrip(words, q, lastDc, pre, raw);
      assert symbols[1..] == AcSymbols(q, 1);
      assert Covers(words, AcSymbols(q, 1)) by { assert forall j :: 0 <= j < |symbols| - 1 ==> symbols[1..][j] == symbols[j + 1]; }
      OnlyDc(q, dc);
      AcRoundTrip(words, q, 1, dc, pre, raw);
    }
  }

  // ---------- a picture's worth of blocks

  /** What decoding many blocks gives; a block after the first failure is not decoded. */
  datatype Picture = Picture(status: Status, blocks: seq<seq<int>>, pre: Bits, raw: Bits, lastDc: int)

  function DecodeBlocks(words: seq<Bits>, n: nat, pre: Bits, raw: Bits, lastDc: int): Picture {
    if n == 0 then Picture(Ok, [], pre, raw, lastDc)
    else
      var r := DecodeBlock(words, State(pre, raw, Cleared(), lastDc));
      if r.status != Ok then Picture(r.status, [], r.state.pre, r.state.raw, r.state.lastDc)
      else
        var p := DecodeBlocks(words, n - 1, r.state.pre, r.state.raw, r.state.lastDc);
        p.(blocks := [r.state.block] + p.blocks)
  }

  ghost predicate Codable(words: seq<Bits>, qs: seq<seq<int>>) {
    forall i :: 0 <= i < |qs| ==> Levels(qs[i]) && Covers(words, BlockSymbols(qs[i]))
  }

  /** The prefix stream of several blocks. */
  ghost function PicturePre(words: seq<Bits>, qs: seq<seq<int>>): Bits
    requires Codable(words, qs)
  {
    if qs == [] then [] else EncodeAll(words, BlockSymbols(qs[0])) + PicturePre(words, qs[1..])
  }

  /** The raw stream of several blocks. */
  ghost function PictureRaw(qs: seq<seq<int>>): Bits
    requires forall i :: 0 <= i < |qs| ==> Levels(qs[i])
  {
    if qs == [] then [] else assert Levels(qs[0]); BlockRaw(qs[0]) + PictureRaw(qs[1..])
  }

  /** The DC predictor after several blocks: it runs through all of them. */
  ghost function LastDc(qs: seq<seq<int>>, lastDc: int): int
    requires forall i :: 0 <= i < |qs| ==> Levels(qs[i])
  {
    if qs == [] then lastDc else assert Levels(qs[0]); LastDc(qs[1..], PredictedDc(qs[0], lastDc))
  }

  ghost function PictureBlocks(qs: seq<seq<int>>, lastDc: int): (b: seq<seq<int>>)
    requires forall i :: 0 <= i < |qs| ==> Levels(qs[i])
  {
    if qs == [] then []
    else
      assert Levels(qs[0]);
      var dc := PredictedDc(qs[0], lastDc);
      [Dequantised(qs[0], dc)] + PictureBlocks(qs[1..], dc)
  }

  /** A whole picture of blocks survives, provided the raw stream ends in at least two spare bits. */
  lemma {:induction false} PictureRoundTrip(words: seq<Bits>, qs: seq<seq<int>>, lastDc: int, pre: Bits, raw: Bits)
    requires Decodable(words) && Codable(words, qs) && |raw| >= 2
    ensures DecodeBlocks(words, |qs|, PicturePre(words, qs) + pre, PictureRaw(qs) + raw, lastDc)
         == Picture(Ok, PictureBlocks(qs, lastDc), pre, raw, LastDc(qs, lastDc))
  {
    if qs == [] {
      assert PicturePre(words, qs) + pre == pre && PictureRaw(qs) + raw == raw;
    } else {
      var q, more := qs[0], qs[1..];
      var pre', raw' := PicturePre(words, more) + pre, PictureRaw(more) + raw;
      ConcatAssociative(EncodeAll(words, BlockSymbols(q)), PicturePre(words, more), pre);
      ConcatAssociative(BlockRaw(q), PictureRaw(more), raw);
      BlockRoundTrip(words, q, lastDc, pre', raw');
      PictureRoundTrip(words, more, PredictedDc(q, lastDc), pre, raw);
    }
  }
}
