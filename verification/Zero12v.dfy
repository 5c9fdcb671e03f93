/** 012v: lines of 10-bit 4:2:2 samples, six pixels to a group of four 32-bit words. */
module Zero12v {
  import opened Bytes

  // ---------- words and their samples

  /** The mask 0xFFC0 keeps bits 6 to 15. */
  function Masked(t: nat): Word16 {
    t / 0x40 % 0x400 * 0x40
  }

  /** The three samples of a word, each moved to the top of 16 bits. */
  function Field(t: nat, field: nat): Word16
    requires field < 3
  {
    if field == 0 then Masked(t * 0x40 % 0x1_0000_0000)
    else if field == 1 then Masked(t / 0x10)
    else Masked(t / 0x4000)
  }

  /** Three 10-bit samples in a word. */
  function Packed(a: nat, b: nat, c: nat): nat
  {
    a + 0x400 * b + 0x10_0000 * c
  }

  lemma FirstField(a: nat, m: nat)
    requires a < 0x400
    ensures (a + 0x400 * m) * 0x40 % 0x1_0000_0000 / 0x40 % 0x400 == a
  {
    ShiftedOut(a, m / 0x1_0000, m % 0x1_0000);
    assert (0x40 * a + 0x1_0000 * (m % 0x1_0000)) / 0x40 == a + 0x400 * (m % 0x1_0000);
  }

  lemma ShiftedOut(a: nat, q: nat, r: nat)
    requires a < 0x400 && r < 0x1_0000
    ensures (a + 0x400 * (0x1_0000 * q + r)) * 0x40 % 0x1_0000_0000 == 0x40 * a + 0x1_0000 * r
  {
    assert (a + 0x400 * (0x1_0000 * q + r)) * 0x40 == 0x1_0000_0000 * q + (0x40 * a + 0x1_0000 * r);
  }

  lemma LaterField(low: nat, b: nat, m: nat)
    requires low < 0x400 && b < 0x400
    ensures (low + 0x400 * (b + 0x400 * m)) / 0x10 / 0x40 % 0x400 == b
  {
    assert (low + 0x400 * (b + 0x400 * m)) / 0x10 / 0x40 == b + 0x400 * m;
  }

  lemma LastField(low: nat, c: nat)
    requires low < 0x10_0000 && c < 0x400
    ensures (low + 0x10_0000 * c) / 0x4000 / 0x40 % 0x400 == c
  {
    assert (low + 0x10_0000 * c) / 0x4000 / 0x40 == c;
  }

  /** Unpacking gives back the samples, shifted to 16 bits. */
  lemma FieldsOfPacked(a: nat, b: nat, c: nat)
    requires a < 0x400 && b < 0x400 && c < 0x400
    ensures var t := Packed(a, b, c);
            Field(t, 0) == 0x40 * a && Field(t, 1) == 0x40 * b && Field(t, 2) == 0x40 * c
  {
    var t := Packed(a, b, c);
    assert t == a + 0x400 * (b + 0x400 * c) == (a + 0x400 * b) + 0x10_0000 * c;
    FirstField(a, b + 0x400 * c);
    LaterField(a, b, c);
    LastField(a + 0x400 * b, c);
  }

  const GREY: Word16 := 0x8000

  // ---------- where samples lie

  /** Words of a group that hold its luma samples, and their fields. */
  function YWord(j: nat): nat { if j == 0 then 0 else if j <= 2 then 1 else if j == 3 then 2 else 3 }

  function YField(j: nat): (f: nat)
    ensures f < 3
  {
    if j == 0 || j == 3 then 1 else if j == 1 || j == 4 then 0 else 2
  }

  function UWord(j: nat): nat { j }

  function UField(j: nat): (f: nat)
    ensures f < 3
  {
    if j == 0 then 0 else if j == 1 then 1 else 2
  }

  function VWord(j: nat): nat { if j == 0 then 0 else if j == 1 then 2 else 3 }

  function VField(j: nat): (f: nat)
    ensures f < 3
  {
    if j == 0 then 2 else if j == 1 then 0 else 1
  }

  /**
   Read word by word and field by field, a group is chroma and luma in turn, the two chroma samples of a pixel pair in
   turn, as in 4:2:2 interleaving.
   */
  lemma SamplesInterleave(j: nat)
    ensures j < 6 ==> 3 * YWord(j) + YField(j) == 2 * j + 1
    ensures j < 3 ==> 3 * UWord(j) + UField(j) == 4 * j && 3 * VWord(j) + VField(j) == 4 * j + 2
  {
  }

  /** Missing samples are half of full scale, without colour. */
  lemma GreyIsHalf()
    ensures GREY == 0x40 * 0x200 && 2 * GREY == 0x10000
  {
  }

  /** A sample of a line; grey if the line ends before its word does. */
  function Sample(line: seq<Byte>, word: nat, field: nat): Word16
    requires field < 3
  {
    if 4 * word + 4 <= |line| then Field(Le32(line, 4 * word), field) else GREY
  }

  function YOut(line: seq<Byte>, i: nat): Word16 { Sample(line, 4 * (i / 6) + YWord(i % 6), YField(i % 6)) }

  function UOut(line: seq<Byte>, i: nat): Word16 { Sample(line, 4 * (i / 3) + UWord(i % 3), UField(i % 3)) }

  function VOut(line: seq<Byte>, i: nat): Word16 { Sample(line, 4 * (i / 3) + VWord(i % 3), VField(i % 3)) }

  // ---------- which strides carry a line

  function Chroma(width: nat): nat { (width + 1) / 2 }

  /** A line of a picture, 10 bits a sample. */
  datatype Line = Line(y: seq<nat>, u: seq<nat>, v: seq<nat>)

  predicate IsLine(l: Line, width: nat) {
    |l.y| == width && |l.u| == |l.v| == Chroma(width) &&
    TenBit(l.y) && TenBit(l.u) && TenBit(l.v)
  }

  predicate TenBit(s: seq<nat>) {
    forall i :: 0 <= i < |s| ==> s[i] < 0x400
  }

  function At(s: seq<nat>, i: nat): nat { if i < |s| then s[i] else 0 }

  /** Word k of a packed line. */
  function PackWord(l: Line, k: nat): nat {
    var g := k / 4;
    if k % 4 == 0 then Packed(At(l.u, 3 * g), At(l.y, 6 * g), At(l.v, 3 * g))
    else if k % 4 == 1 then Packed(At(l.y, 6 * g + 1), At(l.u, 3 * g + 1), At(l.y, 6 * g + 2))
    else if k % 4 == 2 then Packed(At(l.v, 3 * g + 1), At(l.y, 6 * g + 3), At(l.u, 3 * g + 2))
    else Packed(At(l.y, 6 * g + 4), At(l.v, 3 * g + 2), At(l.y, 6 * g + 5))
  }

  /** The bytes of a line hold its packed words, as many as there is room for. */
  ghost predicate Carries(line: seq<Byte>, l: Line) {
    forall k: nat :: k < 4 * Groups(|l.y|) && 4 * k + 4 <= |line| ==> Le32(line, 4 * k) == PackWord(l, k)
  }

  function Groups(width: nat): nat { (width + 5) / 6 }

  /** A decoded line shows a picture line. */
  ghost predicate ShowsLine(line: seq<Byte>, l: Line) {
    (forall i :: 0 <= i < |l.y| ==> YOut(line, i) == 0x40 * l.y[i]) &&
    (forall i :: 0 <= i < |l.u| ==> UOut(line, i) == 0x40 * l.u[i]) &&
    (forall i :: 0 <= i < |l.v| ==> VOut(line, i) == 0x40 * l.v[i])
  }

  /** Bytes of the last group that its pixels need. */
  function TailBytes(n: nat): nat {
    if n == 0 then 0 else if n == 1 then 4 else if n == 2 then 8 else if n <= 4 then 12 else 16
  }

  function Needed(width: nat): nat { 16 * (width / 6) + TailBytes(width % 6) }

  /** The words of picture samples lie within the needed bytes. */
  lemma WordsAreNeeded(width: nat, i: nat)
    ensures i < width ==> 4 * (4 * (i / 6) + YWord(i % 6)) + 4 <= Needed(width)
    ensures i < Chroma(width) ==>
              4 * (4 * (i / 3) + UWord(i % 3)) + 4 <= Needed(width) && 4 * (4 * (i / 3) + VWord(i % 3)) + 4 <= Needed(width)
    ensures Needed(width) <= 16 * Groups(width)
  {
    if i < width {
      assert i / 6 == width / 6 ==> i % 6 < width % 6;
    }
    if i < Chroma(width) {
      assert i / 3 <= width / 6;
      assert i / 3 == width / 6 ==> 2 * (i % 3) < width % 6;
    }
  }

  lemma WordOf(line: seq<Byte>, l: Line, k: nat)
    requires IsLine(l, |l.y|) && Carries(line, l) && 4 * k + 4 <= Needed(|l.y|) <= |line|
    ensures Le32(line, 4 * k) == PackWord(l, k)
  {
    WordsAreNeeded(|l.y|, 0);
  }

  lemma SamplesAreSmall(l: Line, i: nat)
    requires IsLine(l, |l.y|)
    ensures At(l.y, i) < 0x400 && At(l.u, i) < 0x400 && At(l.v, i) < 0x400
  {
  }

  lemma YSample(line: seq<Byte>, l: Line, i: nat)
    requires IsLine(l, |l.y|) && Carries(line, l) && |line| >= Needed(|l.y|) && i < |l.y|
    ensures YOut(line, i) == 0x40 * l.y[i]
  {
    hide Field, Packed, Le32, Carries, Needed, IsLine;
    var g, j := i / 6, i % 6;
    var k := 4 * g + YWord(j);
    assert k / 4 == g && k % 4 == YWord(j) && i == 6 * g + j;
    WordsAreNeeded(|l.y|, i);
    WordOf(line, l, k);
    forall n: nat { SamplesAreSmall(l, n); }
    if k % 4 == 0 {
      FieldsOfPacked(At(l.u, 3 * g), At(l.y, 6 * g), At(l.v, 3 * g));
    } else if k % 4 == 1 {
      FieldsOfPacked(At(l.y, 6 * g + 1), At(l.u, 3 * g + 1), At(l.y, 6 * g + 2));
    } else if k % 4 == 2 {
      FieldsOfPacked(At(l.v, 3 * g + 1), At(l.y, 6 * g + 3), At(l.u, 3 * g + 2));
    } else {
      FieldsOfPacked(At(l.y, 6 * g + 4), At(l.v, 3 * g + 2), At(l.y, 6 * g + 5));
    }
  }

  lemma ChromaWidth(l: Line)
    requires IsLine(l, |l.y|)
    ensures |l.u| == |l.v| == Chroma(|l.y|)
  {
  }

  lemma USample(line: seq<Byte>, l: Line, i: nat)
    requires IsLine(l, |l.y|) && Carries(line, l) && |line| >= Needed(|l.y|) && i < |l.u|
    ensures UOut(line, i) == 0x40 * l.u[i]
  {
    hide Field, Packed, Le32, Carries, Needed, IsLine;
    ChromaWidth(l);
    var g, j := i / 3, i % 3;
    var k := 4 * g + UWord(j);
    assert k / 4 == g && k % 4 == UWord(j) && i == 3 * g + j;
    WordsAreNeeded(|l.y|, i);
    WordOf(line, l, k);
    forall n: nat { SamplesAreSmall(l, n); }
    if k % 4 == 0 {
      FieldsOfPacked(At(l.u, 3 * g), At(l.y, 6 * g), At(l.v, 3 * g));
    } else if k % 4 == 1 {
      FieldsOfPacked(At(l.y, 6 * g + 1), At(l.u, 3 * g + 1), At(l.y, 6 * g + 2));
    } else {
      FieldsOfPacked(At(l.v, 3 * g + 1), At(l.y, 6 * g + 3), At(l.u, 3 * g + 2));
    }
  }

  lemma VSample(line: seq<Byte>, l: Line, i: nat)
    requires IsLine(l, |l.y|) && Carries(line, l) && |line| >= Needed(|l.y|) && i < |l.v|
    ensures VOut(line, i) == 0x40 * l.v[i]
  {
    hide Field, Packed, Le32, Carries, Needed, IsLine;
    ChromaWidth(l);
    var g, j := i / 3, i % 3;
    var k := 4 * g + VWord(j);
    assert k / 4 == g && k % 4 == VWord(j) && i == 3 * g + j;
    WordsAreNeeded(|l.y|, i);
    WordOf(line, l, k);
    forall n: nat { SamplesAreSmall(l, n); }
    if k % 4 == 0 {
      FieldsOfPacked(At(l.u, 3 * g), At(l.y, 6 * g), At(l.v, 3 * g));
    } else if k % 4 == 2 {
      FieldsOfPacked(At(l.v, 3 * g + 1), At(l.y, 6 * g + 3), At(l.u, 3 * g + 2));
    } else {
      FieldsOfPacked(At(l.y, 6 * g + 4), At(l.v, 3 * g + 2), At(l.y, 6 * g + 5));
    }
  }

  /** Unpacking inverts packing, partial tail groups included, whenever the needed bytes are there. */
  lemma UnpackInvertsPack(line: seq<Byte>, l: Line)
    requires IsLine(l, |l.y|) && Carries(line, l) && |line| >= Needed(|l.y|)
    ensures ShowsLine(line, l)
  {
    hide YOut, UOut, VOut, Carries, IsLine, Needed;
    forall i | 0 <= i < |l.y| ensures YOut(line, i) == 0x40 * l.y[i] { YSample(line, l, i); }
    forall i | 0 <= i < |l.u| ensures UOut(line, i) == 0x40 * l.u[i] { USample(line, l, i); }
    forall i | 0 <= i < |l.v| ensures VOut(line, i) == 0x40 * l.v[i] { VSample(line, l, i); }
  }

  /** Lines of a given width survive in a given stride. */
  ghost predicate Survive(width: nat, stride: nat) {
    forall line: seq<Byte>, l :: |line| == stride && IsLine(l, width) && Carries(line, l) ==> ShowsLine(line, l)
  }

  /** The needed bytes end with the word of the last luma sample, or of the last second chroma sample. */
  lemma LastWord(width: nat)
    requires width > 0
    ensures var i, c := width - 1, Chroma(width) - 1;
            Needed(width) == 4 + 4 * if width % 6 == 3 then 4 * (c / 3) + VWord(c % 3) else 4 * (i / 6) + YWord(i % 6)
  {
    var i, c := width - 1, Chroma(width) - 1;
    if width % 6 == 0 {
      assert i / 6 == width / 6 - 1 && i % 6 == 5;
    } else {
      assert i / 6 == width / 6 && i % 6 == width % 6 - 1;
    }
    assert width % 6 == 3 ==> c == 3 * (width / 6) + 1;
  }

  function Black(width: nat): Line {
    Line(Repeat(width, 0), Repeat(Chroma(width), 0), Repeat(Chroma(width), 0))
  }

  lemma BlackWord(width: nat, k: nat)
    ensures PackWord(Black(width), k) == 0
  {
    hide Repeat;
  }

  lemma ZeroWord(stride: nat, i: nat)
    requires i + 4 <= stride
    ensures Le32(Repeat(stride, 0), i) == 0
  {
    hide Repeat;
  }

  lemma BlackLine(width: nat, stride: nat)
    ensures IsLine(Black(width), width) && Carries(Repeat<Byte>(stride, 0), Black(width))
  {
    assert IsLine(Black(width), width);
    hide Repeat, Groups, PackWord, Le32, Black;
    forall k: nat | k < 4 * Groups(|Black(width).y|) && 4 * k + 4 <= stride
      ensures Le32(Repeat(stride, 0), 4 * k) == PackWord(Black(width), k)
    {
      BlackWord(width, k);
      ZeroWord(stride, 4 * k);
    }
  }

  /** A shorter line turns a black last pixel grey. */
  lemma ShortLineFails(width: nat, stride: nat)
    requires width > 0 && stride < Needed(width)
    ensures !Survive(width, stride)
  {
    hide Needed, Repeat, Field, YWord, VWord, Carries, Groups, Le32, PackWord;
    var line, l := Repeat<Byte>(stride, 0), Black(width);
    BlackLine(width, stride);
    var i, c := width - 1, Chroma(width) - 1;
    LastWord(width);
    if width % 6 == 3 {
      assert VOut(line, c) == GREY && l.v[c] == 0;
    } else {
      assert YOut(line, i) == GREY && l.y[i] == 0;
    }
    assert !ShowsLine(line, l);
  }

  /** Packing and unpacking a line of any width is the identity exactly for strides with room for its last samples. */
  lemma SurviveIff(width: nat, stride: nat)
    requires width > 0
    ensures Survive(width, stride) <==> stride >= Needed(width)
  {
    if stride >= Needed(width) {
      forall line: seq<Byte>, l | |line| == stride && IsLine(l, width) && Carries(line, l) ensures ShowsLine(line, l) {
        UnpackInvertsPack(line, l);
      }
    } else {
      ShortLineFails(width, stride);
    }
  }

  /** The stride the decoder assumes by default is one of those only if whole groups make up the line. */
  lemma DefaultStrideIff(width: nat)
    requires width > 0
    ensures Survive(width, width * 8 / 3) <==> width % 6 == 0
    ensures Survive(width, 16 * Groups(width))
  {
    var g, n := width / 6, width % 6;
    assert width * 8 / 3 == 16 * g + 8 * n / 3;
    SurviveIff(width, width * 8 / 3);
    SurviveIff(width, 16 * Groups(width));
    WordsAreNeeded(width, 0);
  }

  // ---------- the decoder

  function StrideOf(tag012v: bool, width: int, height: int, size: nat): int
    requires width > 0 && height > 0
  {
    if tag012v && size % height == 0 && size / height * 3 >= width * 8 then size / height else width * 8 / 3
  }

  lemma QuotientIs(n: nat, d: nat, q: nat)
    requires d > 0 && n == d * q
    ensures n / d == q && n % d == 0
  {
    assert d * (q - n / d) == n % d;
    MultipleBelow(d, q - n / d);
  }

  lemma MultipleBelow(d: nat, k: int)
    requires 0 <= d * k < d
    ensures k == 0
  {
    assert k >= 1 ==> d * k >= d;
    assert k <= -1 ==> d * k < 0;
  }

  /** The stride is the packet's own if it divides into lines long enough and the tag says so; else the default. */
  lemma StrideIs(tag012v: bool, width: int, height: int, size: nat, stride: nat)
    requires width > 0 && height > 0
    ensures tag012v && size == height * stride && 3 * stride >= 8 * width ==>
              StrideOf(tag012v, width, height, size) == stride
    ensures !tag012v || size % height != 0 || (size == height * stride && 3 * stride < 8 * width) ==>
              StrideOf(tag012v, width, height, size) == width * 8 / 3
  {
    if size == height * stride {
      QuotientIs(size, height, stride);
    }
  }

  /** Whole groups of pixels never run into the end of their line: only the tail goes through the temporary arrays. */
  lemma GroupsFit(tag012v: bool, width: int, height: int, size: nat, x: nat)
    requires width > 1 && height > 0 && x % 6 == 0 && width - x >= 6
    ensures StrideOf(tag012v, width, height, size) - 16 * (x / 6) >= 16
  {
  }

  /** Stores the samples of one group, word by word, until the line ends. */
  method DecodeGroup(data: seq<Byte>, src0: nat, lineEnd: nat, y: array<Word16>, yi: nat, u: array<Word16>, ui: nat,
                     v: array<Word16>, vi: nat)
    returns (src: nat, ended: bool)
    requires src0 <= lineEnd <= |data|
    requires y != u && u != v && y != v && yi + 6 <= y.Length && ui + 3 <= u.Length && vi + 3 <= v.Length
    modifies y, u, v
    ensures ended == (lineEnd - src0 < 16) && (!ended ==> src == src0 + 16)
    ensures forall j :: 0 <= j < y.Length ==>
              y[j] == if yi <= j < yi + 6 && src0 + 4 * YWord(j - yi) + 4 <= lineEnd
                      then Field(Le32(data, src0 + 4 * YWord(j - yi)), YField(j - yi)) else old(y[j])
    ensures forall j :: 0 <= j < u.Length ==>
              u[j] == if ui <= j < ui + 3 && src0 + 4 * UWord(j - ui) + 4 <= lineEnd
                      then Field(Le32(data, src0 + 4 * UWord(j - ui)), UField(j - ui)) else old(u[j])
    ensures forall j :: 0 <= j < v.Length ==>
              v[j] == if vi <= j < vi + 3 && src0 + 4 * VWord(j - vi) + 4 <= lineEnd
                      then Field(Le32(data, src0 + 4 * VWord(j - vi)), VField(j - vi)) else old(v[j])
  {
    hide Masked, Le32;
    src, ended := src0, true;
    if lineEnd - src < 4 { return; }
    var t := Le32(data, src);
    src := src + 4;
    u[ui] := Masked(t * 0x40 % 0x1_0000_0000);
    y[yi] := Masked(t / 0x10);
    v[vi] := Masked(t / 0x4000);
    if lineEnd - src < 4 { return; }
    t := Le32(data, src);
    src := src + 4;
    y[yi + 1] := Masked(t * 0x40 % 0x1_0000_0000);
    u[ui + 1] := Masked(t / 0x10);
    y[yi + 2] := Masked(t / 0x4000);
    if lineEnd - src < 4 { return; }
    t := Le32(data, src);
    src := src + 4;
    v[vi + 1] := Masked(t * 0x40 % 0x1_0000_0000);
    y[yi + 3] := Masked(t / 0x10);
    u[ui + 2] := Masked(t / 0x4000);
    if lineEnd - src < 4 { return; }
    t := Le32(data, src);
    src := src + 4;
    y[yi + 4] := Masked(t * 0x40 % 0x1_0000_0000);
    v[vi + 2] := Masked(t / 0x10);
    y[yi + 5] := Masked(t / 0x4000);
    ended := false;
  }

  /** Samples a chroma row must have room for: an even tail spills one byte behind the last. */
  function ChromaRoom(width: nat): (r: nat)
    ensures Chroma(width) <= r
  {
    if width % 6 == 0 then width / 2 else width / 2 + 1
  }

  /** The first n samples of a line, plane by plane. */
  function YRow(line: seq<Byte>, n: nat): (r: seq<Word16>)
    ensures |r| == n && forall i :: 0 <= i < n ==> r[i] == YOut(line, i)
  {
    seq(n, i requires 0 <= i => YOut(line, i))
  }

  function URow(line: seq<Byte>, n: nat): (r: seq<Word16>)
    ensures |r| == n && forall i :: 0 <= i < n ==> r[i] == UOut(line, i)
  {
    seq(n, i requires 0 <= i => UOut(line, i))
  }

  function VRow(line: seq<Byte>, n: nat): (r: seq<Word16>)
    ensures |r| == n && forall i :: 0 <= i < n ==> r[i] == VOut(line, i)
  {
    seq(n, i requires 0 <= i => VOut(line, i))
  }

  /** A sample of group g, wherever its word is. */
  lemma YOfGroup(line: seq<Byte>, g: nat, j: nat)
    requires j < 6
    ensures YOut(line, 6 * g + j) == Sample(line, 4 * g + YWord(j), YField(j))
  {
    assert (6 * g + j) / 6 == g && (6 * g + j) % 6 == j;
  }

  lemma ChromaOfGroup(line: seq<Byte>, g: nat, j: nat)
    requires j < 3
    ensures UOut(line, 3 * g + j) == Sample(line, 4 * g + UWord(j), UField(j))
    ensures VOut(line, 3 * g + j) == Sample(line, 4 * g + VWord(j), VField(j))
  {
    assert (3 * g + j) / 3 == g && (3 * g + j) % 3 == j;
  }

  // ---------- rows being written

  /** A plane whose row at `at` shows n samples of `out`, and which is otherwise as before but for m samples there. */
  predicate Written(s: seq<Word16>, before: seq<Word16>, at: nat, out: seq<Word16>, n: nat, m: nat) {
    |s| == |before| && n <= m && at + m <= |s| && n <= |out| &&
    (forall i :: 0 <= i < n ==> s[at + i] == out[i]) &&
    (forall j :: 0 <= j < |s| && !(at <= j < at + m) ==> s[j] == before[j])
  }

  /** One step: k samples of `out` from number lo on are put at a place. */
  predicate Put(s: seq<Word16>, before: seq<Word16>, at: nat, out: seq<Word16>, lo: nat, k: nat) {
    |s| == |before| && at + k <= |s| && lo + k <= |out| &&
    (forall i :: lo <= i < lo + k ==> s[at + (i - lo)] == out[i]) &&
    (forall j :: 0 <= j < |s| && !(at <= j < at + k) ==> s[j] == before[j])
  }

  /** memcpy of samples by bytes: an odd last byte goes into the low half of a sample. */
  predicate Copied(s: seq<Word16>, before: seq<Word16>, at: nat, temp: seq<Word16>, bytes: nat) {
    |s| == |before| && at + (bytes + 1) / 2 <= |s| && bytes / 2 <= |temp| &&
    (forall j :: at <= j < at + bytes / 2 ==> s[j] == temp[j - at]) &&
    (forall j :: 0 <= j < |s| && !(at <= j < at + (bytes + 1) / 2) ==> s[j] == before[j])
  }

  lemma PutExtends(s: seq<Word16>, mid: seq<Word16>, before: seq<Word16>, at: nat, out: seq<Word16>, n: nat, k: nat)
    requires Written(mid, before, at, out, n, n) && Put(s, mid, at + n, out, n, k)
    ensures Written(s, before, at, out, n + k, n + k)
  {
    forall i | 0 <= i < n + k ensures s[at + i] == out[i] {
      if i >= n {
        assert s[at + n + (i - n)] == out[i];
      }
    }
  }

  /** Three planes, as before but for their rows. */
  datatype Planes = Planes(y: seq<Word16>, u: seq<Word16>, v: seq<Word16>)

  /** Where the rows of a line begin, and what they have to show. */
  datatype Rows = Rows(oy: nat, ou: nat, ov: nat, ys: seq<Word16>, us: seq<Word16>, vs: seq<Word16>)

  /** Every sample of every group of a line. */
  function LineRows(line: seq<Byte>, width: nat, oy: nat, ou: nat, ov: nat): Rows {
    var n := Groups(width);
    Rows(oy, ou, ov, YRow(line, 6 * n), URow(line, 3 * n), VRow(line, 3 * n))
  }

  /** The first g groups of a line are written. */
  predicate GroupsWritten(s: Planes, before: Planes, r: Rows, g: nat) {
    Written(s.y, before.y, r.oy, r.ys, 6 * g, 6 * g) &&
    Written(s.u, before.u, r.ou, r.us, 3 * g, 3 * g) &&
    Written(s.v, before.v, r.ov, r.vs, 3 * g, 3 * g)
  }

  lemma GroupExtends(s: Planes, mid: Planes, before: Planes, r: Rows, g: nat)
    requires GroupsWritten(mid, before, r, g)
    requires Put(s.y, mid.y, r.oy + 6 * g, r.ys, 6 * g, 6)
    requires Put(s.u, mid.u, r.ou + 3 * g, r.us, 3 * g, 3)
    requires Put(s.v, mid.v, r.ov + 3 * g, r.vs, 3 * g, 3)
    ensures GroupsWritten(s, before, r, g + 1)
  {
    hide Put, Written;
    PutExtends(s.y, mid.y, before.y, r.oy, r.ys, 6 * g, 6);
    PutExtends(s.u, mid.u, before.u, r.ou, r.us, 3 * g, 3);
    PutExtends(s.v, mid.v, before.v, r.ov, r.vs, 3 * g, 3);
  }

  lemma CopyExtends(s: seq<Word16>, mid: seq<Word16>, before: seq<Word16>, at: nat, out: seq<Word16>, n: nat,
                    temp: seq<Word16>, grey: seq<Word16>, k: nat, bytes: nat)
    requires Written(mid, before, at, out, n, n) && Put(temp, grey, 0, out, n, k) && bytes / 2 <= k
    requires Copied(s, mid, at + n, temp, bytes)
    ensures Written(s, before, at, out, n + bytes / 2, n + (bytes + 1) / 2)
  {
    forall i | 0 <= i < n + bytes / 2 ensures s[at + i] == out[i] {
      if i >= n {
        assert s[at + i] == temp[i - n] == temp[0 + (i - n)] == out[i];
      }
    }
  }

  method CopyBytes(temp: array<Word16>, dst: array<Word16>, at: nat, bytes: nat)
    requires temp != dst && (bytes + 1) / 2 <= temp.Length && at + (bytes + 1) / 2 <= dst.Length
    modifies dst
    ensures Copied(dst[..], old(dst[..]), at, temp[..], bytes)
  {
    for k := 0 to bytes / 2
      invariant forall j :: at <= j < at + k ==> dst[j] == temp[j - at]
      invariant forall j :: 0 <= j < dst.Length && !(at <= j < at + k) ==> dst[j] == old(dst[j])
    {
      dst[at + k] := temp[k];
    }
    if bytes % 2 == 1 {
      dst[at + bytes / 2] := HighByte(dst[at + bytes / 2]) * 0x100 + LowByte(temp[bytes / 2]);
    }
  }

  predicate Grey(s: seq<Word16>, at: nat, k: nat) {
    at + k <= |s| && forall j :: at <= j < at + k ==> s[j] == GREY
  }

  /** Group g: the words there are, into arrays that are grey where words may be missing. */
  method StoreGroup(data: seq<Byte>, ghost line: seq<Byte>, ghost n: nat, ghost g: nat, src0: nat, lineEnd: nat,
                    y: array<Word16>, yi: nat, u: array<Word16>, ui: nat, v: array<Word16>, vi: nat)
    returns (src: nat, ended: bool)
    requires src0 <= lineEnd <= |data| && g < n
    requires |line| <= lineEnd && line == data[lineEnd - |line|..lineEnd] && src0 == lineEnd - |line| + 16 * g
    requires y != u && u != v && y != v && yi + 6 <= y.Length && ui + 3 <= u.Length && vi + 3 <= v.Length
    requires lineEnd - src0 < 16 ==> Grey(y[..], yi, 6) && Grey(u[..], ui, 3) && Grey(v[..], vi, 3)
    modifies y, u, v
    ensures ended == (lineEnd - src0 < 16) && (!ended ==> src == src0 + 16)
    ensures Put(y[..], old(y[..]), yi, YRow(line, 6 * n), 6 * g, 6)
    ensures Put(u[..], old(u[..]), ui, URow(line, 3 * n), 3 * g, 3)
    ensures Put(v[..], old(v[..]), vi, VRow(line, 3 * n), 3 * g, 3)
  {
    hide Field, YField, UField, VField, Le32, YOut, UOut, VOut, YRow, URow, VRow;
    src, ended := DecodeGroup(data, src0, lineEnd, y, yi, u, ui, v, vi);
    forall i | 6 * g <= i < 6 * g + 6 ensures y[..][yi + (i - 6 * g)] == YRow(line, 6 * n)[i] {
      YOfGroup(line, g, i - 6 * g);
      WordOfLine(data, line, src0, lineEnd, g, YWord(i - 6 * g));
      assert y[yi + (i - 6 * g)] == YOut(line, i);
    }
    forall i | 3 * g <= i < 3 * g + 3
      ensures u[..][ui + (i - 3 * g)] == URow(line, 3 * n)[i] && v[..][vi + (i - 3 * g)] == VRow(line, 3 * n)[i]
    {
      ChromaOfGroup(line, g, i - 3 * g);
      WordOfLine(data, line, src0, lineEnd, g, UWord(i - 3 * g));
      WordOfLine(data, line, src0, lineEnd, g, VWord(i - 3 * g));
    }
  }

  lemma WordOfLine(data: seq<Byte>, line: seq<Byte>, src: nat, lineEnd: nat, g: nat, w: nat)
    requires |line| <= lineEnd <= |data| && line == data[lineEnd - |line|..lineEnd] && src == lineEnd - |line| + 16 * g
    ensures src + 4 * w + 4 <= lineEnd <==> 4 * (4 * g + w) + 4 <= |line|
    ensures src + 4 * w + 4 <= lineEnd ==> Le32(data, src + 4 * w) == Le32(line, 4 * (4 * g + w))
  {
  }

  /** The tail completes the row, with a byte to spare if it is even. */
  lemma TailSizes(width: nat, g: nat)
    requires 6 * g <= width < 6 * g + 6
    ensures g == width / 6 && g <= Groups(width) && (6 * g < width ==> g < Groups(width))
    ensures 6 * g < width ==>
              Chroma(width) == 3 * g + (width - 6 * g + 1) / 2 && ChromaRoom(width) == 3 * g + (width - 6 * g + 1 + 1) / 2
    ensures 6 * g == width ==> Chroma(width) == ChromaRoom(width) == 3 * g
  {
    assert width % 6 == width - 6 * g;
  }

  /** Whole groups lie within the picture row, and within the bytes of the line. */
  lemma WholeGroup(width: nat, stride: nat, g: nat)
    requires width * 8 / 3 <= stride && 6 * g + 6 <= width
    ensures g < Groups(width) && 3 * g + 3 <= ChromaRoom(width) && 16 * g + 16 <= stride
  {
  }

  /** The end of a row, from a temporary array that holds its last group. */
  method FinishRow(temp: array<Word16>, dst: array<Word16>, place: nat, bytes: nat,
                   ghost before: seq<Word16>, ghost at: nat, ghost out: seq<Word16>, ghost n: nat, ghost grey: seq<Word16>)
    requires temp != dst && (bytes + 1) / 2 <= temp.Length && place + (bytes + 1) / 2 <= dst.Length && place == at + n
    requires Written(dst[..], before, at, out, n, n) && Put(temp[..], grey, 0, out, n, temp.Length)
    modifies dst
    ensures Written(dst[..], before, at, out, n + bytes / 2, n + (bytes + 1) / 2)
  {
    hide Written, Put, Copied;
    ghost var mid, held := dst[..], temp[..];
    CopyBytes(temp, dst, place, bytes);
    CopyExtends(dst[..], mid, before, at, out, n, held, grey, temp.Length, bytes);
  }

  /** All samples of a line are written. */
  predicate LineWritten(s: Planes, before: Planes, r: Rows, width: nat) {
    Written(s.y, before.y, r.oy, r.ys, width, width) &&
    Written(s.u, before.u, r.ou, r.us, Chroma(width), ChromaRoom(width)) &&
    Written(s.v, before.v, r.ov, r.vs, Chroma(width), ChromaRoom(width))
  }

  lemma WholeLine(s: Planes, before: Planes, r: Rows, g: nat)
    requires GroupsWritten(s, before, r, g)
    ensures LineWritten(s, before, r, 6 * g)
  {
    hide Written;
    TailSizes(6 * g, g);
  }

  /** The tail of all three planes. */
  method CopyTail(width: nat, x: nat, yTemp: array<Word16>, y: array<Word16>, oy: nat, uTemp: array<Word16>,
                  u: array<Word16>, ou: nat,
                  vTemp: array<Word16>, v: array<Word16>, ov: nat, ghost before: Planes,
                  ghost ys: seq<Word16>, ghost us: seq<Word16>, ghost vs: seq<Word16>, ghost g: nat,
                  ghost gy: seq<Word16>, ghost gc: seq<Word16>)
    requires x == 6 * g < width < x + 6
    requires y != u && u != v && y != v && {yTemp, uTemp, vTemp} !! {y, u, v}
    requires yTemp.Length == 6 && uTemp.Length == 3 && vTemp.Length == 3
    requires oy + width <= y.Length && ou + ChromaRoom(width) <= u.Length && ov + ChromaRoom(width) <= v.Length
    requires GroupsWritten(Planes(y[..], u[..], v[..]), before, Rows(oy, ou, ov, ys, us, vs), g)
    requires Put(yTemp[..], gy, 0, ys, x, 6) && Put(uTemp[..], gc, 0, us, 3 * g, 3) && Put(vTemp[..], gc, 0, vs, 3 * g, 3)
    modifies y, u, v
    ensures LineWritten(Planes(y[..], u[..], v[..]), before, Rows(oy, ou, ov, ys, us, vs), width)
  {
    hide Written, Put, ChromaRoom, Chroma;
    TailSizes(width, g);
    FinishRow(yTemp, y, oy + x, 2 * (width - x), before.y, oy, ys, 6 * g, gy);
    FinishRow(uTemp, u, ou + x / 2, width - x + 1, before.u, ou, us, 3 * g, gc);
    FinishRow(vTemp, v, ov + x / 2, width - x + 1, before.v, ov, vs, 3 * g, gc);
  }

  /** A line, through the picture row for whole groups and through temporary arrays for the tail. */
  method DecodeLine(data: seq<Byte>, start: nat, stride: nat, width: nat, y: array<Word16>, oy: nat, u: array<Word16>,
                    ou: nat, v: array<Word16>, ov: nat)
    requires width * 8 / 3 <= stride && start + stride <= |data|
    requires y != u && u != v && y != v
    requires oy + width <= y.Length && ou + ChromaRoom(width) <= u.Length && ov + ChromaRoom(width) <= v.Length
    modifies y, u, v
    ensures LineWritten(Planes(y[..], u[..], v[..]), old(Planes(y[..], u[..], v[..])),
                        LineRows(data[start..start + stride], width, oy, ou, ov), width)
  {
    hide YOut, UOut, VOut, YRow, URow, VRow, Put, Copied, Groups;
    var yTemp := new Word16[6](_ => GREY);
    var uTemp := new Word16[3](_ => GREY);
    var vTemp := new Word16[3](_ => GREY);
    var lineEnd, src, x := start + stride, start, 0;
    var yDst, uDst, vDst, yi, ui, vi := y, u, v, oy, ou, ov;
    ghost var line, n, g := data[start..lineEnd], Groups(width), 0;
    ghost var ys, us, vs := YRow(line, 6 * n), URow(line, 3 * n), VRow(line, 3 * n);
    ghost var gy, gc := yTemp[..], uTemp[..];
    assert Grey(gy, 0, 6) && Grey(gc, 0, 3) && vTemp[..] == gc;
    ghost var before, rows := Planes(y[..], u[..], v[..]), LineRows(line, width, oy, ou, ov);
    assert GroupsWritten(before, before, rows, 0);
    hide GroupsWritten, ChromaRoom, Chroma, Grey;
    while x < width
      invariant x == 6 * g <= width && src == start + 16 * g
      invariant yDst == y && uDst == u && vDst == v && yi == oy + 6 * g && ui == ou + 3 * g && vi == ov + 3 * g
      invariant yTemp[..] == gy && uTemp[..] == vTemp[..] == gc
      invariant GroupsWritten(Planes(y[..], u[..], v[..]), before, rows, g)
    {
      ghost var mid := Planes(y[..], u[..], v[..]);
      if width - x < 6 || lineEnd - src < 16 {
        yDst, uDst, vDst, yi, ui, vi := yTemp, uTemp, vTemp, 0, 0, 0;
      }
      if width - x >= 6 {
        WholeGroup(width, stride, g);
      } else {
        TailSizes(width, g);
        TailBytesLeft(width, stride, g);
      }
      var ended: bool;
      src, ended := StoreGroup(data, line, n, g, src, lineEnd, yDst, yi, uDst, ui, vDst, vi);
      if ended {
        break;
      }
      yi, ui, vi := yi + 6, ui + 3, vi + 3;
      if width - x < 6 {
        break;
      }
      GroupExtends(Planes(y[..], u[..], v[..]), mid, before, rows, g);
      x := x + 6;
      g := g + 1;
    }
    if x < width {
      CopyTail(width, x, yTemp, y, oy, uTemp, u, ou, vTemp, v, ov, before, ys, us, vs, g, gy, gc);
    } else {
      WholeLine(Planes(y[..], u[..], v[..]), before, rows, g);
    }
  }

  /** Before the tail, the line still has its bytes for all whole groups. */
  lemma TailBytesLeft(width: nat, stride: nat, g: nat)
    requires width * 8 / 3 <= stride && 6 * g <= width
    ensures 16 * g <= stride
  {
  }

  // ---------- whole frames

  datatype Status = InvalidData | Decoded(size: nat)

  /** Where row k begins, if rows are w apart. */
  function RowAt(k: nat, w: nat): nat {
    k * w
  }

  function LineOf(data: seq<Byte>, stride: nat, k: nat): seq<Byte> {
    if RowAt(k, stride) + stride <= |data| then data[RowAt(k, stride)..RowAt(k, stride) + stride] else []
  }

  /** Rows `ls` apart show the first n samples of each of `outs`. */
  predicate Shown(s: seq<Word16>, ls: nat, outs: seq<seq<Word16>>, n: nat) {
    forall j :: 0 <= j < |outs| ==> RowShown(s, RowAt(j, ls), outs[j], n)
  }

  predicate RowShown(s: seq<Word16>, at: nat, out: seq<Word16>, n: nat) {
    at + n <= |s| && n <= |out| && forall i :: 0 <= i < n ==> s[at + i] == out[i]
  }

  lemma NextRow(s: seq<Word16>, before: seq<Word16>, ls: nat, outs: seq<seq<Word16>>, out: seq<Word16>, n: nat, m: nat)
    requires Shown(before, ls, outs, n) && Written(s, before, RowAt(|outs|, ls), out, n, m) && m <= ls
    ensures Shown(s, ls, outs + [out], n)
  {
    forall j | 0 <= j < |outs| ensures RowShown(s, RowAt(j, ls), outs[j], n) {
      Apart(j, |outs|, ls);
      assert RowShown(before, RowAt(j, ls), outs[j], n);
    }
    assert RowShown(s, RowAt(|outs|, ls), out, n);
  }

  lemma Apart(j: nat, k: nat, w: nat)
    requires j < k
    ensures RowAt(j, w) + w <= RowAt(k, w)
  {
    assert (j + 1) * w <= k * w;
  }

  function YRows(data: seq<Byte>, stride: nat, n: nat, k: nat): (r: seq<seq<Word16>>)
    ensures |r| == k && forall j :: 0 <= j < k ==> r[j] == YRow(LineOf(data, stride, j), n)
  {
    if k == 0 then [] else YRows(data, stride, n, k - 1) + [YRow(LineOf(data, stride, k - 1), n)]
  }

  function URows(data: seq<Byte>, stride: nat, n: nat, k: nat): (r: seq<seq<Word16>>)
    ensures |r| == k && forall j :: 0 <= j < k ==> r[j] == URow(LineOf(data, stride, j), n)
  {
    if k == 0 then [] else URows(data, stride, n, k - 1) + [URow(LineOf(data, stride, k - 1), n)]
  }

  function VRows(data: seq<Byte>, stride: nat, n: nat, k: nat): (r: seq<seq<Word16>>)
    ensures |r| == k && forall j :: 0 <= j < k ==> r[j] == VRow(LineOf(data, stride, j), n)
  {
    if k == 0 then [] else VRows(data, stride, n, k - 1) + [VRow(LineOf(data, stride, k - 1), n)]
  }

  /** The samples of all lines are where the rows of the picture say. */
  predicate FrameShown(data: seq<Byte>, stride: nat, width: nat, k: nat, y: seq<Word16>, ly: nat, u: seq<Word16>,
                       lu: nat, v: seq<Word16>, lv: nat) {
    Shown(y, ly, YRows(data, stride, 6 * Groups(width), k), width) &&
    Shown(u, lu, URows(data, stride, 3 * Groups(width), k), Chroma(width)) &&
    Shown(v, lv, VRows(data, stride, 3 * Groups(width), k), Chroma(width))
  }

  /** Room for a picture: rows of at least the width, and as many as it has lines. */
  predicate Roomy(width: int, height: int, y: nat, ly: nat, u: nat, lu: nat, v: nat, lv: nat) {
    width > 0 && height > 0 ==>
      width <= ly && ChromaRoom(width) <= lu && ChromaRoom(width) <= lv && height * ly <= y && height * lu <= u && height * lv <= v
  }

  predicate Accepts(tag012v: bool, width: int, height: int, size: nat) {
    width > 1 && height > 0 && size >= height * StrideOf(tag012v, width, height, size)
  }

  /** The whole function: dimensions, stride, size, lines. */
  method DecodeFrame(tag012v: bool, width: int, height: int, data: seq<Byte>, y: array<Word16>, ly: nat,
                     u: array<Word16>, lu: nat, v: array<Word16>, lv: nat)
    returns (status: Status)
    requires y != u && u != v && y != v && Roomy(width, height, y.Length, ly, u.Length, lu, v.Length, lv)
    modifies y, u, v
    ensures status == if Accepts(tag012v, width, height, |data|) then Decoded(|data|) else InvalidData
    ensures status == InvalidData ==> y[..] == old(y[..]) && u[..] == old(u[..]) && v[..] == old(v[..])
    ensures status != InvalidData ==>
              FrameShown(data, StrideOf(tag012v, width, height, |data|), width, height, y[..], ly, u[..], lu, v[..], lv)
  {
    if width <= 1 || height <= 0 {
      return InvalidData;
    }
    var stride := width * 8 / 3;
    if tag012v && |data| % height == 0 && |data| / height * 3 >= width * 8 {
      stride := |data| / height;
    }
    if |data| < height * stride {
      return InvalidData;
    }
    DecodeLines(width, height, stride, data, y, ly, u, lu, v, lv);
    status := Decoded(|data|);
  }

  /** The loop over lines. */
  method DecodeLines(width: nat, height: nat, stride: nat, data: seq<Byte>, y: array<Word16>, ly: nat,
                     u: array<Word16>, lu: nat, v: array<Word16>, lv: nat)
    requires y != u && u != v && y != v && width > 0 && Roomy(width, height, y.Length, ly, u.Length, lu, v.Length, lv)
    requires width * 8 / 3 <= stride && height * stride <= |data|
    modifies y, u, v
    ensures FrameShown(data, stride, width, height, y[..], ly, u[..], lu, v[..], lv)
  {
    hide *;
    FrameStarts(data, stride, width, y[..], ly, u[..], lu, v[..], lv);
    for k := 0 to height
      invariant FrameShown(data, stride, width, k, y[..], ly, u[..], lu, v[..], lv)
    {
      ghost var before := Planes(y[..], u[..], v[..]);
      LineInside(width, height, stride, data, y.Length, ly, u.Length, lu, v.Length, lv, k);
      DecodeLine(data, RowAt(k, stride), stride, width, y, RowAt(k, ly), u, RowAt(k, lu), v, RowAt(k, lv));
      NextLine(data, stride, width, k, before, Planes(y[..], u[..], v[..]), ly, lu, lv);
    }
  }

  lemma FrameStarts(data: seq<Byte>, stride: nat, width: nat, y: seq<Word16>, ly: nat, u: seq<Word16>, lu: nat,
                    v: seq<Word16>, lv: nat)
    ensures FrameShown(data, stride, width, 0, y, ly, u, lu, v, lv)
  {
  }

  lemma LineInside(width: nat, height: nat, stride: nat, data: seq<Byte>, y: nat, ly: nat, u: nat, lu: nat, v: nat,
                   lv: nat, k: nat)
    requires width > 0 && k < height && Roomy(width, height, y, ly, u, lu, v, lv) && height * stride <= |data|
    ensures RowAt(k, stride) + stride <= |data| && LineOf(data, stride, k) == data[RowAt(k, stride)..RowAt(k, stride) + stride]
    ensures width <= ly && RowAt(k, ly) + width <= y
    ensures ChromaRoom(width) <= lu && RowAt(k, lu) + ChromaRoom(width) <= u
    ensures ChromaRoom(width) <= lv && RowAt(k, lv) + ChromaRoom(width) <= v
  {
    hide ChromaRoom;
    Apart(k, height, stride);
    Apart(k, height, ly);
    Apart(k, height, lu);
    Apart(k, height, lv);
  }

  lemma NextLine(data: seq<Byte>, stride: nat, width: nat, k: nat, before: Planes, s: Planes, ly: nat, lu: nat, lv: nat)
    requires FrameShown(data, stride, width, k, before.y, ly, before.u, lu, before.v, lv)
    requires width <= ly && ChromaRoom(width) <= lu && ChromaRoom(width) <= lv
    requires LineWritten(s, before, LineRows(LineOf(data, stride, k), width, RowAt(k, ly), RowAt(k, lu), RowAt(k, lv)), width)
    ensures FrameShown(data, stride, width, k + 1, s.y, ly, s.u, lu, s.v, lv)
  {
    hide Written, Shown, YRow, URow, VRow, ChromaRoom, Chroma, Groups, LineOf, RowAt;
    var r := LineRows(LineOf(data, stride, k), width, RowAt(k, ly), RowAt(k, lu), RowAt(k, lv));
    NextRow(s.y, before.y, ly, YRows(data, stride, 6 * Groups(width), k), r.ys, width, width);
    NextRow(s.u, before.u, lu, URows(data, stride, 3 * Groups(width), k), r.us, Chroma(width), ChromaRoom(width));
    NextRow(s.v, before.v, lv, VRows(data, stride, 3 * Groups(width), k), r.vs, Chroma(width), ChromaRoom(width));
  }

  /** Samples at the top of their 16 bits. */
  function Raised(s: seq<nat>): (r: seq<Word16>)
    requires TenBit(s)
    ensures |r| == |s| && forall i :: 0 <= i < |s| ==> r[i] == 0x40 * s[i]
  {
    if s == [] then [] else Raised(s[..|s| - 1]) + [0x40 * s[|s| - 1]]
  }

  /**
   A line of a decoded frame that was packed with room for it is the picture line that was packed, sample by sample.
   */
  lemma PictureSurvives(data: seq<Byte>, stride: nat, width: nat, height: nat, l: Line, j: nat,
                        y: seq<Word16>, ly: nat, u: seq<Word16>, lu: nat, v: seq<Word16>, lv: nat)
    requires FrameShown(data, stride, width, height, y, ly, u, lu, v, lv) && stride >= Needed(width)
    requires height * stride <= |data| && j < height && IsLine(l, width) && Carries(LineOf(data, stride, j), l)
    ensures RowShown(y, RowAt(j, ly), Raised(l.y), width)
    ensures RowShown(u, RowAt(j, lu), Raised(l.u), Chroma(width))
    ensures RowShown(v, RowAt(j, lv), Raised(l.v), Chroma(width))
  {
    hide Needed, Carries, Groups, Chroma, YOut, UOut, VOut, Field, Le32, Raised, YRow, URow, VRow;
    var line := LineOf(data, stride, j);
    Apart(j, height, stride);
    UnpackInvertsPack(line, l);
    hide RowAt, LineOf;
    assert RowShown(y, RowAt(j, ly), YRows(data, stride, 6 * Groups(width), height)[j], width);
    assert RowShown(u, RowAt(j, lu), URows(data, stride, 3 * Groups(width), height)[j], Chroma(width));
    assert RowShown(v, RowAt(j, lv), VRows(data, stride, 3 * Groups(width), height)[j], Chroma(width));
  }

  // ---------- whole packets

  /** Lines of bytes one behind the other. */
  function Joined(lines: seq<seq<Byte>>): seq<Byte> {
    if lines == [] then [] else lines[0] + Joined(lines[1..])
  }

  predicate AllLong(lines: seq<seq<Byte>>, n: nat) {
    forall j :: 0 <= j < |lines| ==> |lines[j]| == n
  }

  lemma {:induction false} JoinedLength(lines: seq<seq<Byte>>, n: nat)
    requires AllLong(lines, n)
    ensures |Joined(lines)| == RowAt(|lines|, n)
  {
    hide RowAt;
    if lines != [] {
      JoinedLength(lines[1..], n);
      NextRowAt(|lines| - 1, n);
    } else {
      NextRowAt(0, n);
    }
  }

  lemma {:induction false} JoinedLines(lines: seq<seq<Byte>>, n: nat, j: nat)
    requires AllLong(lines, n) && j < |lines|
    ensures RowAt(j, n) + n <= |Joined(lines)|
    ensures LineOf(Joined(lines), n, j) == lines[j]
  {
    hide RowAt;
    var e := Joined(lines[1..]);
    NextRowAt(0, n);
    if j > 0 {
      JoinedLines(lines[1..], n, j - 1);
      NextRowAt(j - 1, n);
      LaterSlice(lines[0], e, RowAt(j - 1, n), n);
    }
  }

  lemma LaterSlice(a: seq<Byte>, e: seq<Byte>, i: nat, n: nat)
    requires |a| == n && i + n <= |e|
    ensures (a + e)[i + n..i + n + n] == e[i..i + n]
  {
  }

  lemma NextRowAt(k: nat, w: nat)
    ensures RowAt(k + 1, w) == RowAt(k, w) + w && RowAt(0, w) == 0
  {
  }

  /** What the planes of a picture hold. */
  datatype Layout = Layout(ly: nat, lu: nat, lv: nat)

  predicate LineShown(s: Planes, p: Layout, j: nat, l: Line)
    requires TenBit(l.y) && TenBit(l.u) && TenBit(l.v)
  {
    RowShown(s.y, RowAt(j, p.ly), Raised(l.y), |l.y|) && RowShown(s.u, RowAt(j, p.lu), Raised(l.u), |l.u|) &&
    RowShown(s.v, RowAt(j, p.lv), Raised(l.v), |l.v|)
  }

  predicate IsPicture(ls: seq<Line>, width: nat) {
    forall j :: 0 <= j < |ls| ==> IsLine(ls[j], width)
  }

  /**
   A packet of lines, all of one length with room for their samples, is accepted, whatever that length is, and a decoded
   frame shows every line of the picture that was packed.
   */
  lemma PacketSurvives(lines: seq<seq<Byte>>, n: nat, ls: seq<Line>, width: nat, s: Planes, p: Layout)
    requires width > 1 && |ls| == |lines| > 0 && IsPicture(ls, width) && AllLong(lines, n) && n >= Needed(width)
    requires forall j :: 0 <= j < |ls| ==> Carries(lines[j], ls[j])
    ensures Accepts(true, width, |ls|, |Joined(lines)|)
    ensures var data := Joined(lines);
            FrameShown(data, StrideOf(true, width, |ls|, |data|), width, |ls|, s.y, p.ly, s.u, p.lu, s.v, p.lv) ==>
              forall j :: 0 <= j < |ls| ==> LineShown(s, p, j, ls[j])
  {
    hide FrameShown, Carries, Needed, Joined;
    var data, height := Joined(lines), |ls|;
    JoinedLength(lines, n);
    NeededIsEnough(width);
    StrideIs(true, width, height, |data|, n);
    hide StrideOf;
    if FrameShown(data, n, width, height, s.y, p.ly, s.u, p.lu, s.v, p.lv) {
      forall j | 0 <= j < height ensures LineShown(s, p, j, ls[j]) {
        JoinedLines(lines, n, j);
        LineIsShown(data, n, width, height, ls[j], j, s, p);
      }
    }
  }

  lemma LineIsShown(data: seq<Byte>, n: nat, width: nat, height: nat, l: Line, j: nat, s: Planes, p: Layout)
    requires FrameShown(data, n, width, height, s.y, p.ly, s.u, p.lu, s.v, p.lv) && n >= Needed(width)
    requires |data| == RowAt(height, n) && j < height && IsLine(l, width) && Carries(LineOf(data, n, j), l)
    ensures LineShown(s, p, j, l)
  {
    hide FrameShown, Carries, Needed, RowShown, Raised;
    PictureSurvives(data, n, width, height, l, j, s.y, p.ly, s.u, p.lu, s.v, p.lv);
  }

  lemma NeededIsEnough(width: nat)
    ensures 3 * Needed(width) >= 8 * width
  {
  }

  /** A line packed from front to back. */
  function PackFrom(l: Line, k: nat): (line: seq<Byte>)
    requires IsLine(l, |l.y|) && k <= 4 * Groups(|l.y|)
    ensures |line| == 4 * (4 * Groups(|l.y|) - k)
    decreases 4 * Groups(|l.y|) - k
  {
    if k == 4 * Groups(|l.y|) then []
    else
      PackedFits(l, k);
      Le32Bytes(PackWord(l, k)) + PackFrom(l, k + 1)
  }

  lemma PackedFits(l: Line, k: nat)
    requires IsLine(l, |l.y|)
    ensures PackWord(l, k) < UINT32
  {
    hide IsLine, At;
    var g := k / 4;
    SamplesAreSmall(l, 3 * g);
    SamplesAreSmall(l, 3 * g + 1);
    SamplesAreSmall(l, 3 * g + 2);
    SamplesAreSmall(l, 6 * g);
    SamplesAreSmall(l, 6 * g + 1);
    SamplesAreSmall(l, 6 * g + 2);
    SamplesAreSmall(l, 6 * g + 3);
    SamplesAreSmall(l, 6 * g + 4);
    SamplesAreSmall(l, 6 * g + 5);
  }

  lemma {:induction false} PackedWordAt(l: Line, k: nat, i: nat)
    requires IsLine(l, |l.y|) && k <= i < 4 * Groups(|l.y|)
    ensures 4 * (i - k) + 4 <= |PackFrom(l, k)| && Le32(PackFrom(l, k), 4 * (i - k)) == PackWord(l, i)
    decreases i - k
  {
    hide PackWord, Le32, Le32Bytes, IsLine, Groups;
    PackedFits(l, k);
    var w, more := Le32Bytes(PackWord(l, k)), PackFrom(l, k + 1);
    if i == k {
      SameWord(w + more, 0, w);
    } else {
      PackedWordAt(l, k + 1, i);
      SameWordLater(w, more, 4 * (i - k - 1));
    }
  }

  lemma SameWordLater(w: seq<Byte>, more: seq<Byte>, i: nat)
    requires |w| == 4 && i + 4 <= |more|
    ensures Le32(w + more, 4 + i) == Le32(more, i)
  {
  }

  function PackLines(ls: seq<Line>, width: nat): (lines: seq<seq<Byte>>)
    requires IsPicture(ls, width)
    ensures |lines| == |ls| && AllLong(lines, 16 * Groups(width))
    ensures forall j :: 0 <= j < |ls| ==> lines[j] == PackFrom(ls[j], 0)
  {
    seq(|ls|, j requires 0 <= j < |ls| => PackFrom(ls[j], 0))
  }

  /** So any picture, packed line by line into one packet, comes back sample by sample. */
  lemma PackedPictureSurvives(ls: seq<Line>, width: nat, s: Planes, p: Layout)
    requires width > 1 && ls != [] && IsPicture(ls, width)
    ensures var data := Joined(PackLines(ls, width));
            Accepts(true, width, |ls|, |data|) &&
            (FrameShown(data, StrideOf(true, width, |ls|, |data|), width, |ls|, s.y, p.ly, s.u, p.lu, s.v, p.lv) ==>
               forall j :: 0 <= j < |ls| ==> LineShown(s, p, j, ls[j]))
  {
    var lines := PackLines(ls, width);
    forall j | 0 <= j < |ls| ensures Carries(lines[j], ls[j]) {
      forall k: nat | k < 4 * Groups(|ls[j].y|) && 4 * k + 4 <= |lines[j]|
        ensures Le32(lines[j], 4 * k) == PackWord(ls[j], k)
      {
        PackedWordAt(ls[j], 0, k);
      }
    }
    WordsAreNeeded(width, 0);
    hide *;
    PacketSurvives(lines, 16 * Groups(width), ls, width, s, p);
  }
}
