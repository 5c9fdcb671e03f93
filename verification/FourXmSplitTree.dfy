/**
 Delta frames of 4X Movie: every 8x8 block is a split tree whose codes, motion bytes and pixel words lie in
 three separate streams. Here are the trees, how they are printed and parsed, and that these are inverse.
 */
module FourXmSplitTree {
  import opened Sums
  import opened PrefixCodes
  import opened Bytes

  /** A tree over a block; the comments give the code of each node. */
  datatype Tree =
    | Move(v: Byte)                         // 0: copy from the previous frame, displaced by motion vector v
    | SplitRows(top: Tree, bottom: Tree)    // 1
    | SplitCols(left: Tree, right: Tree)    // 2
    | Keep                                  // 3: leave the buffer alone (version 2 on), else copy undisplaced
    | MoveAdd(v: Byte, dc: Word16)            // 4: as Move, plus a constant
    | Fill(dc: Word16)                        // 5
    | Pair(p: Word16, q: Word16)                // 6: two pixels

  function CodeOf(t: Tree): (c: nat)
    ensures c <= 6
  {
    match t
    case Move(_) => 0
    case SplitRows(_, _) => 1
    case SplitCols(_, _) => 2
    case Keep => 3
    case MoveAdd(_, _) => 4
    case Fill(_) => 5
    case Pair(_, _) => 6
  }

  /** Rows are log2 heights, columns log2 widths; the corner is the byte conversion of -1. */
  function SizeIndex(lw: nat, lh: nat): (i: nat)
    requires lw <= 3 && lh <= 3
    ensures i <= 3 <==> !(lw == 0 && lh == 0)
    ensures i == 3 <==> lw + lh == 1
    ensures i == 2 <==> lw == 0 && lh >= 2
    ensures i == 1 <==> lh == 0 && lw >= 2
  {
    [[255, 3, 1, 1], [3, 0, 0, 0], [2, 0, 0, 0], [2, 0, 0, 0]][lh][lw]
  }

  const O := false
  const I := true

  /** The words of the seven codes by size index; an empty word marks a code the size does not have. */
  function TypeWords(newer: bool, index: nat): (w: seq<Bits>)
    requires index <= 3
    ensures |w| == 7
  {
    if newer then
      if index == 0 then [[O], [I, O], [I, I, O], [I, I, I, O], [I, I, I, I, O], [I, I, I, I, I], []]
      else if index == 1 then [[O], [], [I, O], [I, I, O], [I, I, I, O], [I, I, I, I], []]
      else if index == 2 then [[O], [I, O], [], [I, I, O], [I, I, I, O], [I, I, I, I], []]
      else [[O], [], [], [I, O], [I, I, O], [I, I, I, O], [I, I, I, I]]
    else
      if index == 0 then [[O, I], [I, O, O], [I, O, I], [O, O], [I, I, O], [I, I, I], []]
      else if index == 1 then [[O, I], [], [I, O], [O, O], [I, I, O], [I, I, I], []]
      else if index == 2 then [[O, I], [I, O], [], [O, O], [I, I, O], [I, I, I], []]
      else [[O, I], [], [], [O, O], [I, O], [I, I, O], [I, I, I]]
  }

  /** Walking down the code tree of a table, at most five bits deep. */
  function Walk(newer: bool, index: nat, b: Bits): (c: nat)
    requires index <= 3 && |b| >= 5
    ensures c < 7
  {
    if newer then
      var ones := if !b[0] then 0 else if !b[1] then 1 else if !b[2] then 2 else if !b[3] then 3 else if !b[4] then 4 else 5;
      if index == 0 then ones
      else if index == 1 then (if ones == 0 then 0 else if ones < 4 then ones + 1 else 5)
      else if index == 2 then (if ones <= 1 then ones else if ones < 4 then ones + 1 else 5)
      else (if ones == 0 then 0 else if ones < 4 then ones + 2 else 6)
    else if !b[0] then (if b[1] then 0 else 3)
    else if !b[1] then (if index == 0 then (if b[2] then 2 else 1) else if index == 1 then 2 else if index == 2 then 1 else 4)
    else (if index == 3 then 5 else 4) + (if b[2] then 1 else 0)
  }

  lemma WalkEndsOnWord(newer: bool, index: nat, b: Bits)
    requires index <= 3 && |b| >= 5
    ensures var w := TypeWords(newer, index)[Walk(newer, index, b)]; w != [] && w <= b
  {
  }

  lemma WordLeadsWalk(newer: bool, index: nat, b: Bits, c: nat)
    requires index <= 3 && |b| >= 5 && c < 7
    requires TypeWords(newer, index)[c] != [] && TypeWords(newer, index)[c] <= b
    ensures Walk(newer, index, b) == c
  {
  }

  /** Each of the eight tables is a prefix code. */
  lemma TypeWordsDecodable(newer: bool, index: nat)
    requires index <= 3
    ensures Decodable(TypeWords(newer, index))
  {
    var words := TypeWords(newer, index);
    forall x, y | 0 <= x < |words| && 0 <= y < |words| && x != y && words[x] != [] && words[y] != []
      ensures !(words[x] <= words[y])
    {
      if words[x] <= words[y] {
        var b := words[y] + [O, O, O, O, O];
        assert words[y] <= b && words[x] <= b;
        WordLeadsWalk(newer, index, b, x);
        WordLeadsWalk(newer, index, b, y);
      }
    }
  }

  /** Any five bits begin with a word. */
  ghost predicate Complete(words: seq<Bits>) {
    forall b: Bits {:trigger ReadSymbol(words, b)} :: |b| >= 5 ==> ReadSymbol(words, b).Some?
  }

  /** Each of the tables covers all bit patterns, so a code is always found. */
  lemma TypeWordsComplete(newer: bool, index: nat)
    requires index <= 3
    ensures Complete(TypeWords(newer, index))
  {
    forall b: Bits | |b| >= 5 ensures ReadSymbol(TypeWords(newer, index), b).Some? {
      WalkEndsOnWord(newer, index, b);
      assert |TypeWords(newer, index)| == 7;
    }
  }

  /** A size has a code exactly if it can be used: no splits of a single row or column, pixel pairs only there. */
  lemma TypeExistsIff(newer: bool, index: nat, c: nat)
    requires index <= 3 && c < 7
    ensures TypeWords(newer, index)[c] != [] <==>
            !(c == 1 && index in {1, 3}) && !(c == 2 && index in {2, 3}) && (c == 6 ==> index == 3)
  {
  }

  /** The order of codes in a table: as numbered, but before version 2 the undisplaced copy comes first. */
  function Rank(newer: bool, c: nat): nat {
    if newer then c else if c == 3 then 0 else c + 1
  }

  function Bit(w: Bits, i: nat): nat { if i < |w| && w[i] then 1 else 0 }

  /** A word of at most five bits, read as a binary fraction. */
  function Fraction(w: Bits): nat {
    16 * Bit(w, 0) + 8 * Bit(w, 1) + 4 * Bit(w, 2) + 2 * Bit(w, 3) + Bit(w, 4)
  }

  /** The tables are canonical: in that order words grow in value and never get shorter ... */
  lemma TypeWordsGrow(newer: bool, index: nat, a: nat, b: nat)
    requires index <= 3 && a < 7 && b < 7 && Rank(newer, a) < Rank(newer, b)
    requires TypeWords(newer, index)[a] != [] && TypeWords(newer, index)[b] != []
    ensures Fraction(TypeWords(newer, index)[a]) < Fraction(TypeWords(newer, index)[b])
    ensures |TypeWords(newer, index)[a]| <= |TypeWords(newer, index)[b]|
  {
  }

  /** ... from version 2 on they are ones up to the last bit, before they have two bits or three. */
  lemma TypeWordShape(newer: bool, index: nat, c: nat)
    requires index <= 3 && c < 7 && TypeWords(newer, index)[c] != []
    ensures var w := TypeWords(newer, index)[c];
            if newer then |w| <= 5 && forall i :: 0 <= i < |w| - 1 ==> w[i] else 2 <= |w| <= 3
  {
  }

  /** The four tables of a file version. */
  function TypeTables(newer: bool): (types: seq<seq<Bits>>)
    ensures |types| == 4
  {
    [TypeWords(newer, 0), TypeWords(newer, 1), TypeWords(newer, 2), TypeWords(newer, 3)]
  }

  /**
   What the decoder relies on: complete prefix codes, splits only where the halves still have an index,
   pixel pairs exactly on two-pixel blocks.
   */
  ghost predicate GoodTables(types: seq<seq<Bits>>) {
    && |types| == 4
    && (forall i :: 0 <= i < 4 ==> |types[i]| == 7 && Decodable(types[i]) && Complete(types[i]))
    && types[1][1] == [] && types[3][1] == [] && types[2][2] == [] && types[3][2] == []
    && types[0][6] == [] && types[1][6] == [] && types[2][6] == [] && types[3][6] != []
  }

  /** Both versions' tables are what the decoder relies on. */
  lemma TypeTablesAreGood(newer: bool)
    ensures GoodTables(TypeTables(newer))
  {
    forall i | 0 <= i < 4
      ensures |TypeTables(newer)[i]| == 7 && Decodable(TypeTables(newer)[i]) && Complete(TypeTables(newer)[i])
    {
      TypeWordsDecodable(newer, i);
      TypeWordsComplete(newer, i);
      assert TypeTables(newer)[i] == TypeWords(newer, i);
    }
  }

  /** The three streams from their cursors on; pixel words lie as bytes. */
  datatype Streams = Streams(bits: Bits, bytes: seq<Byte>, words: seq<Byte>)

  /**
   Picture size, whether the file version is 2 or newer, its code tables, the linear offsets of the 256 motion
   vectors.
   */
  datatype Video = Video(width: nat, height: nat, newer: bool, types: seq<seq<Bits>>, mv: seq<int>)

  ghost predicate ValidVideo(v: Video) {
    |v.mv| == 256 && GoodTables(v.types)
  }

  function Offset(v: Video, y: int, x: int): int {
    y * v.width + x
  }

  /** The decoder's range test on the linear offset of a source block. */
  predicate SourceAllowed(v: Video, at: int, lw: nat, lh: nat) {
    0 <= at <= v.width * (v.height - Pow2(lh) + 1) - Pow2(lw)
  }

  predicate Splittable(lw: nat, lh: nat) {
    lw <= 3 && lh <= 3 && lw + lh >= 1
  }

  /** A code that splits leaves two blocks that still have an index: 1x1 is never reached. */
  lemma SplitsNeverReachOnePixel(types: seq<seq<Bits>>, lw: nat, lh: nat)
    requires GoodTables(types) && Splittable(lw, lh)
    ensures types[SizeIndex(lw, lh)][1] != [] ==> lh >= 1 && Splittable(lw, lh - 1)
    ensures types[SizeIndex(lw, lh)][2] != [] ==> lw >= 1 && Splittable(lw - 1, lh)
    ensures types[SizeIndex(lw, lh)][6] != [] <==> lw + lh == 1
  {
  }

  function Zeros(n: nat): (z: Bits)
    ensures |z| == n && forall i :: 0 <= i < n ==> !z[i]
  {
    seq(n, i => false)
  }

  /** The next type code, which always exists; the bit reader delivers zeros behind the end of its stream. */
  function ReadType(words: seq<Bits>, bits: Bits): (r: (nat, Bits))
    requires |words| == 7 && Complete(words)
    ensures r.0 < 7 && words[r.0] != []
  {
    var padded := bits + Zeros(5);
    var code := ReadSymbol(words, padded).value;
    (code, if |words[code]| <= |bits| then bits[|words[code]|..] else [])
  }

  /** Whether a leaf's source block passes the range test. */
  predicate LeafAllowed(v: Video, t: Tree, y: nat, x: nat, lw: nat, lh: nat)
    requires ValidVideo(v)
  {
    match t
    case Move(m) => SourceAllowed(v, Offset(v, y, x) + v.mv[m], lw, lh)
    case MoveAdd(m, _) => SourceAllowed(v, Offset(v, y, x) + v.mv[m], lw, lh)
    case Keep => v.newer || SourceAllowed(v, Offset(v, y, x), lw, lh)
    case Fill(_) => SourceAllowed(v, Offset(v, y, x), lw, lh)
    case _ => true
  }

  /** Trees that a block at row `y`, column `x` can carry. */
  predicate Legal(v: Video, t: Tree, y: nat, x: nat, lw: nat, lh: nat)
    requires ValidVideo(v) && Splittable(lw, lh)
    decreases t
  {
    && v.types[SizeIndex(lw, lh)][CodeOf(t)] != []
    && match t
       case SplitRows(a, b) =>
         SplitsNeverReachOnePixel(v.types, lw, lh);
         Legal(v, a, y, x, lw, lh - 1) && Legal(v, b, y + Pow2(lh - 1), x, lw, lh - 1)
       case SplitCols(a, b) =>
         SplitsNeverReachOnePixel(v.types, lw, lh);
         Legal(v, a, y, x, lw - 1, lh) && Legal(v, b, y, x + Pow2(lw - 1), lw - 1, lh)
       case _ => LeafAllowed(v, t, y, x, lw, lh)
  }

  // ---------- printing

  function PrintBits(types: seq<seq<Bits>>, t: Tree, lw: nat, lh: nat): Bits
    decreases t
  {
    (if Splittable(lw, lh) && |types| == 4 && |types[SizeIndex(lw, lh)]| == 7 then types[SizeIndex(lw, lh)][CodeOf(t)] else []) +
    match t
    case SplitRows(a, b) => if lh == 0 then [] else PrintBits(types, a, lw, lh - 1) + PrintBits(types, b, lw, lh - 1)
    case SplitCols(a, b) => if lw == 0 then [] else PrintBits(types, a, lw - 1, lh) + PrintBits(types, b, lw - 1, lh)
    case _ => []
  }

  function PrintBytes(t: Tree): seq<Byte> {
    match t
    case SplitRows(a, b) => PrintBytes(a) + PrintBytes(b)
    case SplitCols(a, b) => PrintBytes(a) + PrintBytes(b)
    case Move(m) => [m]
    case MoveAdd(m, _) => [m]
    case _ => []
  }

  function PrintWords(t: Tree): seq<Byte> {
    match t
    case SplitRows(a, b) => PrintWords(a) + PrintWords(b)
    case SplitCols(a, b) => PrintWords(a) + PrintWords(b)
    case MoveAdd(_, dc) => WordBytes(dc)
    case Fill(dc) => WordBytes(dc)
    case Pair(p, q) => WordBytes(p) + WordBytes(q)
    case _ => []
  }

  /** The streams of a printed tree followed by other streams. */
  function Printed(types: seq<seq<Bits>>, t: Tree, lw: nat, lh: nat, rest: Streams): Streams {
    Streams(PrintBits(types, t, lw, lh) + rest.bits, PrintBytes(t) + rest.bytes, PrintWords(t) + rest.words)
  }

  // ---------- parsing

  datatype Parsed = Fail | Parsed(tree: Tree, rest: Streams)

  /** A leaf with code 0 or 3 to 6; the streams hold what follows the code. */
  function ParseLeaf(v: Video, code: nat, s: Streams): (r: Parsed)
    ensures r.Parsed? ==> CodeOf(r.tree) == code && r.rest.bits == s.bits
  {
    if code == 0 then
      if |s.bytes| < 1 then Fail else Parsed(Move(s.bytes[0]), s.(bytes := s.bytes[1..]))
    else if code == 3 then Parsed(Keep, s)
    else if code == 4 then
      if |s.bytes| < 1 || |s.words| < 2 then Fail
      else Parsed(MoveAdd(s.bytes[0], Le16(s.words[0], s.words[1])), s.(bytes := s.bytes[1..], words := s.words[2..]))
    else if code == 5 then
      if |s.words| < 2 then Fail else Parsed(Fill(Le16(s.words[0], s.words[1])), s.(words := s.words[2..]))
    else if code == 6 then
      if |s.words| < 4 then Fail
      else Parsed(Pair(Le16(s.words[0], s.words[1]), Le16(s.words[2], s.words[3])), s.(words := s.words[4..]))
    else Fail
  }

  /**
   The codes of leaves: bit 0 and 1 clear ask for a vector's byte, 4 and 5 for a constant, 6 for two pixels. A leaf fails
   exactly if its streams hold less, or if the code is no leaf's.
   */
  lemma CodesTell(v: Video, code: nat, s: Streams)
    requires code <= 6
    ensures var r := ParseLeaf(v, code, s);
            var bytes, words := if code % 4 == 0 then 1 else 0, if code in {4, 5} then 2 else if code == 6 then 4 else 0;
            if code in {1, 2} || |s.bytes| < bytes || |s.words| < words then r == Fail
            else
              && r.Parsed? && r.rest == Streams(s.bits, s.bytes[bytes..], s.words[words..])
              && (r.tree.Move? || r.tree.MoveAdd? <==> code % 4 == 0) && (r.tree.Keep? <==> code == 3)
              && (r.tree.MoveAdd? || r.tree.Fill? <==> code in {4, 5}) && (r.tree.Pair? <==> code == 6)
  {
  }

  /** Two halves make a split. */
  function Join(rows: bool, a: Tree, p: Parsed): Parsed {
    if p.Fail? then Fail else Parsed(if rows then SplitRows(a, p.tree) else SplitCols(a, p.tree), p.rest)
  }

  /** A leaf whose source is out of the picture fails. */
  function CheckLeaf(v: Video, p: Parsed, y: nat, x: nat, lw: nat, lh: nat): Parsed
    requires ValidVideo(v)
  {
    if p.Parsed? && LeafAllowed(v, p.tree, y, x, lw, lh) then p else Fail
  }

  function Parse(v: Video, s: Streams, y: nat, x: nat, lw: nat, lh: nat): Parsed
    requires ValidVideo(v) && Splittable(lw, lh)
    decreases lw + lh
  {
    SplitsNeverReachOnePixel(v.types, lw, lh);
    var r := ReadType(v.types[SizeIndex(lw, lh)], s.bits);
    var u := s.(bits := r.1);
    if r.0 == 1 then
      var a := Parse(v, u, y, x, lw, lh - 1);
      if a.Fail? then Fail else Join(true, a.tree, Parse(v, a.rest, y + Pow2(lh - 1), x, lw, lh - 1))
    else if r.0 == 2 then
      var a := Parse(v, u, y, x, lw - 1, lh);
      if a.Fail? then Fail else Join(false, a.tree, Parse(v, a.rest, y, x + Pow2(lw - 1), lw - 1, lh))
    else
      CheckLeaf(v, ParseLeaf(v, r.0, u), y, x, lw, lh)
  }

  // ---------- round trips

  lemma ReadPrintedType(words: seq<Bits>, code: nat, rest: Bits)
    requires |words| == 7 && Complete(words) && Decodable(words) && code < 7 && words[code] != []
    ensures ReadType(words, words[code] + rest) == (code, rest)
  {
    ConcatAssociative(words[code], rest, Zeros(5));
    ReadPrinted(words, code, rest + Zeros(5));
  }

  lemma LeafRoundTrip(v: Video, t: Tree, rest: Streams)
    requires !t.SplitRows? && !t.SplitCols?
    ensures ParseLeaf(v, CodeOf(t), Streams(rest.bits, PrintBytes(t) + rest.bytes, PrintWords(t) + rest.words)) == Parsed(t, rest)
  {
    assert [] + rest.bytes == rest.bytes && [] + rest.words == rest.words;
    match t {
      case Pair(p, q) =>
        var w := WordBytes(p) + WordBytes(q) + rest.words;
        assert w[4..] == rest.words;
      case _ =>
    }
  }

  lemma BytesAssociative(a: seq<Byte>, b: seq<Byte>, c: seq<Byte>)
    ensures (a + b) + c == a + (b + c)
  {
  }

  /** A printed pair of trees is a printed tree followed by a printed tree. */
  lemma PrintedPair(types: seq<seq<Bits>>, a: Tree, b: Tree, lw: nat, lh: nat, rest: Streams)
    ensures Streams((PrintBits(types, a, lw, lh) + PrintBits(types, b, lw, lh)) + rest.bits,
                    (PrintBytes(a) + PrintBytes(b)) + rest.bytes, (PrintWords(a) + PrintWords(b)) + rest.words)
         == Printed(types, a, lw, lh, Printed(types, b, lw, lh, rest))
  {
    ConcatAssociative(PrintBits(types, a, lw, lh), PrintBits(types, b, lw, lh), rest.bits);
    BytesAssociative(PrintBytes(a), PrintBytes(b), rest.bytes);
    BytesAssociative(PrintWords(a), PrintWords(b), rest.words);
  }

  /** After the code of a split come its two printed halves. */
  lemma ReadSplit(types: seq<seq<Bits>>, t: Tree, lw: nat, lh: nat, rest: Streams)
    requires GoodTables(types) && Splittable(lw, lh) && types[SizeIndex(lw, lh)][CodeOf(t)] != []
    requires t.SplitRows? || t.SplitCols?
    ensures var s, c := Printed(types, t, lw, lh, rest), CodeOf(t);
            var r := ReadType(types[SizeIndex(lw, lh)], s.bits);
            r.0 == c && lh >= 2 - c && lw >= c - 1 &&
            s.(bits := r.1) ==
              if t.SplitRows? then Printed(types, t.top, lw, lh - 1, Printed(types, t.bottom, lw, lh - 1, rest))
              else Printed(types, t.left, lw - 1, lh, Printed(types, t.right, lw - 1, lh, rest))
  {
    hide Complete, Decodable, ReadType;
    var word := types[SizeIndex(lw, lh)][CodeOf(t)];
    SplitsNeverReachOnePixel(types, lw, lh);
    var (a, b, lw', lh') := if t.SplitRows? then (t.top, t.bottom, lw, lh - 1) else (t.left, t.right, lw - 1, lh);
    var inner := PrintBits(types, a, lw', lh') + PrintBits(types, b, lw', lh');
    assert PrintBits(types, t, lw, lh) == word + inner;
    ConcatAssociative(word, inner, rest.bits);
    ReadPrintedType(types[SizeIndex(lw, lh)], CodeOf(t), inner + rest.bits);
    PrintedPair(types, a, b, lw', lh', rest);
  }

  /** The streams behind the type code of a block. */
  function Behind(v: Video, s: Streams, lw: nat, lh: nat): Streams
    requires ValidVideo(v) && Splittable(lw, lh)
  {
    s.(bits := ReadType(v.types[SizeIndex(lw, lh)], s.bits).1)
  }

  function NextType(v: Video, s: Streams, lw: nat, lh: nat): (c: nat)
    requires ValidVideo(v) && Splittable(lw, lh)
    ensures c < 7 && v.types[SizeIndex(lw, lh)][c] != []
  {
    ReadType(v.types[SizeIndex(lw, lh)], s.bits).0
  }

  /** One unfolding of the parser at a leaf code ... */
  lemma ParseAtLeaf(v: Video, s: Streams, y: nat, x: nat, lw: nat, lh: nat)
    requires ValidVideo(v) && Splittable(lw, lh) && NextType(v, s, lw, lh) !in {1, 2}
    ensures Parse(v, s, y, x, lw, lh) == CheckLeaf(v, ParseLeaf(v, NextType(v, s, lw, lh), Behind(v, s, lw, lh)), y, x, lw, lh)
  {
    hide ReadType, Complete, Decodable, ParseLeaf, CheckLeaf;
  }

  /** ... at a split into rows ... */
  lemma ParseAtRows(v: Video, s: Streams, y: nat, x: nat, lw: nat, lh: nat)
    requires ValidVideo(v) && Splittable(lw, lh) && lh >= 1 && Splittable(lw, lh - 1) && NextType(v, s, lw, lh) == 1
    ensures Parse(v, s, y, x, lw, lh) ==
              if Parse(v, Behind(v, s, lw, lh), y, x, lw, lh - 1).Fail? then Fail
              else Join(true, Parse(v, Behind(v, s, lw, lh), y, x, lw, lh - 1).tree,
                        Parse(v, Parse(v, Behind(v, s, lw, lh), y, x, lw, lh - 1).rest, y + Pow2(lh - 1), x, lw, lh - 1))
  {
    hide ReadType, Complete, Decodable, ParseLeaf, CheckLeaf, Join;
  }

  /** ... and at a split into columns. */
  lemma ParseAtCols(v: Video, s: Streams, y: nat, x: nat, lw: nat, lh: nat)
    requires ValidVideo(v) && Splittable(lw, lh) && lw >= 1 && Splittable(lw - 1, lh) && NextType(v, s, lw, lh) == 2
    ensures Parse(v, s, y, x, lw, lh) ==
              if Parse(v, Behind(v, s, lw, lh), y, x, lw - 1, lh).Fail? then Fail
              else Join(false, Parse(v, Behind(v, s, lw, lh), y, x, lw - 1, lh).tree,
                        Parse(v, Parse(v, Behind(v, s, lw, lh), y, x, lw - 1, lh).rest, y, x + Pow2(lw - 1), lw - 1, lh))
  {
    hide ReadType, Complete, Decodable, ParseLeaf, CheckLeaf, Join;
  }

  lemma ParsePrintedLeaf(v: Video, t: Tree, y: nat, x: nat, lw: nat, lh: nat, rest: Streams)
    requires ValidVideo(v) && Splittable(lw, lh) && Legal(v, t, y, x, lw, lh) && !t.SplitRows? && !t.SplitCols?
    ensures Parse(v, Printed(v.types, t, lw, lh, rest), y, x, lw, lh) == Parsed(t, rest)
  {
    hide Parse, ReadType, Complete, Decodable, ParseLeaf, LeafAllowed, PrintBytes, PrintWords;
    var word := v.types[SizeIndex(lw, lh)][CodeOf(t)];
    assert PrintBits(v.types, t, lw, lh) == word + [] == word;
    ReadPrintedType(v.types[SizeIndex(lw, lh)], CodeOf(t), rest.bits);
    LeafRoundTrip(v, t, rest);
    ParseAtLeaf(v, Printed(v.types, t, lw, lh, rest), y, x, lw, lh);
  }

  /** Parsing a printed legal tree gives the tree and consumes exactly what was printed. */
  lemma {:induction false} ParsePrinted(v: Video, t: Tree, y: nat, x: nat, lw: nat, lh: nat, rest: Streams)
    requires ValidVideo(v) && Splittable(lw, lh) && Legal(v, t, y, x, lw, lh)
    ensures Parse(v, Printed(v.types, t, lw, lh, rest), y, x, lw, lh) == Parsed(t, rest)
    decreases t, 1
  {
    hide Parse, PrintBits, PrintBytes, PrintWords, LeafAllowed;
    SplitsNeverReachOnePixel(v.types, lw, lh);
    match t {
      case SplitRows(a, b) => ParsePrintedRows(v, t, y, x, lw, lh, rest);
      case SplitCols(a, b) => ParsePrintedCols(v, t, y, x, lw, lh, rest);
      case _ => ParsePrintedLeaf(v, t, y, x, lw, lh, rest);
    }
  }

  lemma {:induction false} ParsePrintedRows(v: Video, t: Tree, y: nat, x: nat, lw: nat, lh: nat, rest: Streams)
    requires ValidVideo(v) && Splittable(lw, lh) && t.SplitRows? && lh >= 1 && Splittable(lw, lh - 1)
    requires v.types[SizeIndex(lw, lh)][1] != []
    requires Legal(v, t.top, y, x, lw, lh - 1) && Legal(v, t.bottom, y + Pow2(lh - 1), x, lw, lh - 1)
    ensures Parse(v, Printed(v.types, t, lw, lh, rest), y, x, lw, lh) == Parsed(t, rest)
    decreases t, 0
  {
    hide Parse, ReadType, Legal, PrintBits, PrintBytes, PrintWords, GoodTables, SizeIndex;
    var r := Printed(v.types, t.bottom, lw, lh - 1, rest);
    var s := Printed(v.types, t, lw, lh, rest);
    ParsePrinted(v, t.top, y, x, lw, lh - 1, r);
    ParsePrinted(v, t.bottom, y + Pow2(lh - 1), x, lw, lh - 1, rest);
    ReadSplit(v.types, t, lw, lh, rest);
    ParseAtRows(v, s, y, x, lw, lh);
  }

  lemma {:induction false} ParsePrintedCols(v: Video, t: Tree, y: nat, x: nat, lw: nat, lh: nat, rest: Streams)
    requires ValidVideo(v) && Splittable(lw, lh) && t.SplitCols? && lw >= 1 && Splittable(lw - 1, lh)
    requires v.types[SizeIndex(lw, lh)][2] != []
    requires Legal(v, t.left, y, x, lw - 1, lh) && Legal(v, t.right, y, x + Pow2(lw - 1), lw - 1, lh)
    ensures Parse(v, Printed(v.types, t, lw, lh, rest), y, x, lw, lh) == Parsed(t, rest)
    decreases t, 0
  {
    hide Parse, ReadType, Legal, PrintBits, PrintBytes, PrintWords, GoodTables, SizeIndex;
    var r := Printed(v.types, t.right, lw - 1, lh, rest);
    var s := Printed(v.types, t, lw, lh, rest);
    ParsePrinted(v, t.left, y, x, lw - 1, lh, r);
    ParsePrinted(v, t.right, y, x + Pow2(lw - 1), lw - 1, lh, rest);
    ReadSplit(v.types, t, lw, lh, rest);
    ParseAtCols(v, s, y, x, lw, lh);
  }

  lemma ReadTypePrints(words: seq<Bits>, bits: Bits) returns (k: nat)
    requires |words| == 7 && Complete(words)
    ensures var r := ReadType(words, bits); words[r.0] + r.1 == bits + Zeros(k) && (k > 0 ==> r.1 == [])
  {
    var padded, code := bits + Zeros(5), ReadType(words, bits).0;
    assert words[code] <= padded;
    if |words[code]| <= |bits| {
      k := 0;
      assert words[code] == bits[..|words[code]|];
    } else {
      k := |words[code]| - |bits|;
      assert words[code] == padded[..|words[code]|] == bits + Zeros(k);
    }
  }

  lemma LeafPrints(v: Video, code: nat, s: Streams)
    requires code <= 6 && ParseLeaf(v, code, s).Parsed?
    ensures var p := ParseLeaf(v, code, s);
            p.rest.bits == s.bits && s.bytes == PrintBytes(p.tree) + p.rest.bytes && s.words == PrintWords(p.tree) + p.rest.words
  {
    hide LowByte, HighByte, Le16;
    if code >= 4 {
      WordOfBytes(s.words[0], s.words[1]);
      assert s.words == [s.words[0], s.words[1]] + s.words[2..];
    }
    if code == 6 {
      WordOfBytes(s.words[2], s.words[3]);
      assert s.words == [s.words[0], s.words[1]] + [s.words[2], s.words[3]] + s.words[4..];
    }
  }

  lemma WordOfBytes(lo: Byte, hi: Byte)
    ensures LowByte(Le16(lo, hi)) == lo && HighByte(Le16(lo, hi)) == hi
  {
  }

  lemma ZerosAdd(m: nat, n: nat)
    ensures Zeros(m) + Zeros(n) == Zeros(m + n)
  {
  }

  /** If both halves were printed and the streams ran into the padding at most at the very end, so was the whole. */
  lemma HalvesPrint(word: Bits, s: Bits, u: Bits, a: Bits, r: Bits, b: Bits, q: Bits, k: nat, m: nat, n: nat)
    requires word + u == s + Zeros(k) && (k > 0 ==> u == [])
    requires a + r == u + Zeros(m) && b + q == r + Zeros(n)
    ensures (word + (a + b)) + q == s + Zeros(k + m + n)
  {
    calc {
      (word + (a + b)) + q;
      { assert (word + (a + b)) + q == word + (a + (b + q)); }
      word + (a + (r + Zeros(n)));
      { assert a + (r + Zeros(n)) == (a + r) + Zeros(n); }
      word + ((u + Zeros(m)) + Zeros(n));
      { assert word + ((u + Zeros(m)) + Zeros(n)) == (word + u) + (Zeros(m) + Zeros(n)); ZerosAdd(m, n); }
      (s + Zeros(k)) + Zeros(m + n);
      { assert (s + Zeros(k)) + Zeros(m + n) == s + (Zeros(k) + Zeros(m + n)); ZerosAdd(k, m + n); }
      s + Zeros(k + m + n);
    }
  }

  /**
   Every successful parse is the parse of a printed legal tree: streams are split with nothing lost, up to the zero
   padding.
   */
  ghost predicate WasPrinted(v: Video, s: Streams, y: nat, x: nat, lw: nat, lh: nat, t: Tree, rest: Streams, k: nat)
    requires ValidVideo(v) && Splittable(lw, lh)
  {
    Legal(v, t, y, x, lw, lh) && Printed(v.types, t, lw, lh, rest) == s.(bits := s.bits + Zeros(k))
  }

  /** The word of the next type, up to the zero padding. */
  ghost predicate TypePrinted(v: Video, s: Streams, lw: nat, lh: nat, k: nat)
    requires ValidVideo(v) && Splittable(lw, lh)
  {
    var u := Behind(v, s, lw, lh).bits;
    v.types[SizeIndex(lw, lh)][NextType(v, s, lw, lh)] + u == s.bits + Zeros(k) && (k > 0 ==> u == [])
  }

  lemma TypeWasPrinted(v: Video, s: Streams, lw: nat, lh: nat) returns (k: nat)
    requires ValidVideo(v) && Splittable(lw, lh)
    ensures TypePrinted(v, s, lw, lh, k)
  {
    hide ReadType;
    assert Complete(v.types[SizeIndex(lw, lh)]);
    hide Complete, Decodable;
    k := ReadTypePrints(v.types[SizeIndex(lw, lh)], s.bits);
  }

  /** Streams put in front of others. */
  function Append(a: Streams, rest: Streams): Streams {
    Streams(a.bits + rest.bits, a.bytes + rest.bytes, a.words + rest.words)
  }

  /** A type word and two halves, on the streams themselves. */
  lemma HalvesAppend(word: Bits, a: Streams, b: Streams, s: Streams, u: Streams, r: Streams, rest: Streams, k: nat,
                     m: nat, n: nat)
    requires u == s.(bits := u.bits) && word + u.bits == s.bits + Zeros(k) && (k > 0 ==> u.bits == [])
    requires Append(a, r) == u.(bits := u.bits + Zeros(m)) && Append(b, rest) == r.(bits := r.bits + Zeros(n))
    ensures Append(Streams(word + (a.bits + b.bits), a.bytes + b.bytes, a.words + b.words), rest)
         == s.(bits := s.bits + Zeros(k + m + n))
  {
    hide Zeros;
    HalvesPrint(word, s.bits, u.bits, a.bits, r.bits, b.bits, rest.bits, k, m, n);
    BytesAssociative(a.bytes, b.bytes, rest.bytes);
    BytesAssociative(a.words, b.words, rest.words);
  }

  function PrintedTree(types: seq<seq<Bits>>, t: Tree, lw: nat, lh: nat): Streams {
    Streams(PrintBits(types, t, lw, lh), PrintBytes(t), PrintWords(t))
  }

  lemma RowsWerePrinted(v: Video, s: Streams, y: nat, x: nat, lw: nat, lh: nat, t: Tree, r: Streams, rest: Streams,
                        k: nat, m: nat, n: nat)
    requires ValidVideo(v) && Splittable(lw, lh) && t.SplitRows? && lh >= 1 && Splittable(lw, lh - 1)
    requires TypePrinted(v, s, lw, lh, k) && NextType(v, s, lw, lh) == CodeOf(t)
    requires WasPrinted(v, Behind(v, s, lw, lh), y, x, lw, lh - 1, t.top, r, m)
    requires WasPrinted(v, r, y + Pow2(lh - 1), x, lw, lh - 1, t.bottom, rest, n)
    ensures WasPrinted(v, s, y, x, lw, lh, t, rest, k + m + n)
  {
    hide ReadType, LeafAllowed, Zeros, Complete, Decodable;
    HalvesAppend(v.types[SizeIndex(lw, lh)][CodeOf(t)], PrintedTree(v.types, t.top, lw, lh - 1),
                 PrintedTree(v.types, t.bottom, lw, lh - 1), s, Behind(v, s, lw, lh), r, rest, k, m, n);
  }

  lemma ColsWerePrinted(v: Video, s: Streams, y: nat, x: nat, lw: nat, lh: nat, t: Tree, r: Streams, rest: Streams,
                        k: nat, m: nat, n: nat)
    requires ValidVideo(v) && Splittable(lw, lh) && t.SplitCols? && lw >= 1 && Splittable(lw - 1, lh)
    requires TypePrinted(v, s, lw, lh, k) && NextType(v, s, lw, lh) == CodeOf(t)
    requires WasPrinted(v, Behind(v, s, lw, lh), y, x, lw - 1, lh, t.left, r, m)
    requires WasPrinted(v, r, y, x + Pow2(lw - 1), lw - 1, lh, t.right, rest, n)
    ensures WasPrinted(v, s, y, x, lw, lh, t, rest, k + m + n)
  {
    hide ReadType, LeafAllowed, Zeros, Complete, Decodable;
    HalvesAppend(v.types[SizeIndex(lw, lh)][CodeOf(t)], PrintedTree(v.types, t.left, lw - 1, lh),
                 PrintedTree(v.types, t.right, lw - 1, lh), s, Behind(v, s, lw, lh), r, rest, k, m, n);
  }

  lemma LeafWasPrinted(v: Video, s: Streams, y: nat, x: nat, lw: nat, lh: nat, t: Tree, rest: Streams, k: nat)
    requires ValidVideo(v) && Splittable(lw, lh) && NextType(v, s, lw, lh) !in {1, 2} && TypePrinted(v, s, lw, lh, k)
    requires CheckLeaf(v, ParseLeaf(v, NextType(v, s, lw, lh), Behind(v, s, lw, lh)), y, x, lw, lh) == Parsed(t, rest)
    ensures WasPrinted(v, s, y, x, lw, lh, t, rest, k)
  {
    hide Complete, Decodable, LeafAllowed, Parse, ReadType, Zeros;
    LeafPrints(v, NextType(v, s, lw, lh), Behind(v, s, lw, lh));
    var word := v.types[SizeIndex(lw, lh)][CodeOf(t)];
    assert PrintBits(v.types, t, lw, lh) == word + [] == word;
  }

  /** The converse of ParsePrinted. */
  lemma {:induction false} PrintParsed(v: Video, s: Streams, y: nat, x: nat, lw: nat, lh: nat) returns (k: nat)
    requires ValidVideo(v) && Splittable(lw, lh) && Parse(v, s, y, x, lw, lh).Parsed?
    ensures WasPrinted(v, s, y, x, lw, lh, Parse(v, s, y, x, lw, lh).tree, Parse(v, s, y, x, lw, lh).rest, k)
    decreases lw + lh
  {
    hide Parse, ReadType, Complete, Decodable, ParseLeaf, CheckLeaf, WasPrinted, TypePrinted, NextType, Behind;
    var p, u := Parse(v, s, y, x, lw, lh), Behind(v, s, lw, lh);
    SplitsNeverReachOnePixel(v.types, lw, lh);
    var k0 := TypeWasPrinted(v, s, lw, lh);
    match NextType(v, s, lw, lh) {
      case 1 =>
        ParseAtRows(v, s, y, x, lw, lh);
        var r := Parse(v, u, y, x, lw, lh - 1).rest;
        var m := PrintParsed(v, u, y, x, lw, lh - 1);
        var n := PrintParsed(v, r, y + Pow2(lh - 1), x, lw, lh - 1);
        RowsWerePrinted(v, s, y, x, lw, lh, p.tree, r, p.rest, k0, m, n);
        k := k0 + m + n;
      case 2 =>
        ParseAtCols(v, s, y, x, lw, lh);
        var r := Parse(v, u, y, x, lw - 1, lh).rest;
        var m := PrintParsed(v, u, y, x, lw - 1, lh);
        var n := PrintParsed(v, r, y, x + Pow2(lw - 1), lw - 1, lh);
        ColsWerePrinted(v, s, y, x, lw, lh, p.tree, r, p.rest, k0, m, n);
        k := k0 + m + n;
      case c =>
        ParseAtLeaf(v, s, y, x, lw, lh);
        LeafWasPrinted(v, s, y, x, lw, lh, p.tree, p.rest, k0);
        k := k0;
    }
  }
}
