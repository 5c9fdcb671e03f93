/**
 The first half of read_huffman_tables of the 4X Movie decoder: the weights are read from the packet, range by range,
 and the prefix stream begins at the next multiple of four.
 */
module HuffmanTables {
  import opened HuffmanForest
  import opened PrefixCodes
  import opened Bytes

  // ---------- reading the weights

  /** Packet buffers are followed by zero padding, which the reads before a length check may reach. */
  function ByteAt(buf: seq<Byte>, pos: nat): Byte {
    if pos < |buf| then buf[pos] else 0
  }

  function RangeSize(start: int, end: int): nat {
    if end - start + 1 > 0 then end - start + 1 else 0
  }

  /** `f` with the cells from `start` on replaced by `values`. */
  function Overwrite(f: seq<nat>, start: nat, values: seq<Byte>): (g: seq<nat>)
    requires start + |values| <= |f|
    ensures |g| == |f|
    ensures forall i :: 0 <= i < |f| ==> g[i] == if start <= i < start + |values| then values[i - start] else f[i]
  {
    f[..start] + values + f[start + |values|..]
  }

  /** Weights read so far and the bytes behind them. */
  datatype Weights = Weights(freq: seq<nat>, rest: seq<Byte>)

  /** The weight ranges: each must lie in the packet together with the byte after it. */
  function ParseRanges(s: seq<Byte>, start: Byte, end: Byte, f: seq<nat>): (r: Option<Weights>)
    requires |f| == NODES
    ensures r.Some? ==> |r.value.freq| == NODES && |r.value.rest| < |s| && r.value.rest == s[|s| - |r.value.rest|..]
    decreases |s|
  {
    var n := RangeSize(start, end);
    if |s| < n + 1 then None
    else
      var g := if n == 0 then f else Overwrite(f, start, s[..n]);
      if s[n] == 0 then Some(Weights(g, s[n + 1..]))
      else if |s| < n + 2 then None
      else ParseRanges(s[n + 2..], s[n], s[n + 1], g)
  }

  function NoWeights(): (f: seq<nat>)
    ensures |f| == NODES && forall i :: 0 <= i < NODES ==> f[i] == 0
  {
    seq(NODES, i => 0)
  }

  /** Bytes skipped to reach the next multiple of 4. */
  function Padding(pos: nat): (n: nat)
    ensures n < 4 && (pos + n) % 4 == 0
  {
    if pos % 4 == 0 then 0 else 4 - pos % 4
  }

  /** The end mark's weight, and the bytes skipped up to the next aligned position of a packet of `size` bytes. */
  function Finish(size: nat, r: Option<Weights>): (q: Option<Weights>)
    requires r.Some? ==> |r.value.freq| == NODES && |r.value.rest| <= size
    ensures q.Some? ==> r.Some? && q.value.freq == r.value.freq[256 := 1] && |q.value.rest| <= |r.value.rest|
  {
    if r == None then None
    else
      var n := Padding(size - |r.value.rest|);
      if n > |r.value.rest| then None else Some(Weights(r.value.freq[256 := 1], r.value.rest[n..]))
  }

  /**
   Weights of all nodes and the bytes from the next aligned position on; symbol 256, the end mark, always weighs 1.
   */
  function ParseWeights(buf: seq<Byte>): (r: Option<Weights>)
    ensures r.Some? ==> |r.value.freq| == NODES && |r.value.rest| <= |buf|
  {
    if |buf| < 2 then None else Finish(|buf|, ParseRanges(buf[2..], buf[0], buf[1], NoWeights()))
  }

  /** Weights a packet can give: one byte per symbol, the end mark 1, nothing beyond. */
  ghost predicate SymbolWeights(f: seq<nat>) {
    && |f| == NODES && f[256] == 1
    && (forall i :: 0 <= i < 256 ==> f[i] < 256)
    && (forall i :: SYMBOLS <= i < NODES ==> f[i] == 0)
  }

  /** Weights of symbols are bytes; the cells behind them are empty. */
  predicate ByteWeights(f: seq<nat>) {
    |f| == NODES && (forall i :: 0 <= i < 256 ==> f[i] < 256) && (forall i :: 256 <= i < NODES ==> f[i] == 0)
  }

  lemma OverwrittenAreBytes(f: seq<nat>, start: nat, values: seq<Byte>)
    requires ByteWeights(f) && start + |values| <= 256
    ensures ByteWeights(Overwrite(f, start, values))
  {
    hide Overwrite;
  }

  lemma {:induction false} ParsedRangesAreBytes(s: seq<Byte>, start: Byte, end: Byte, f: seq<nat>)
    requires ByteWeights(f)
    ensures ParseRanges(s, start, end, f).Some? ==> ByteWeights(ParseRanges(s, start, end, f).value.freq)
    decreases |s|
  {
    assert |f| == NODES;
    hide Overwrite, ByteWeights;
    var n := RangeSize(start, end);
    if |s| >= n + 1 {
      if n > 0 {
        OverwrittenAreBytes(f, start, s[..n]);
      }
      var g := if n == 0 then f else Overwrite(f, start, s[..n]);
      if |s| >= n + 2 && s[n] != 0 {
        ParsedRangesAreBytes(s[n + 2..], s[n], s[n + 1], g);
      }
    }
  }

  /** Whatever the packet, the weights it gives are of the right form. */
  lemma ParsedWeights(buf: seq<Byte>)
    ensures ParseWeights(buf).Some? ==> SymbolWeights(ParseWeights(buf).value.freq)
  {
    if |buf| >= 2 {
      ParsedRangesAreBytes(buf[2..], buf[0], buf[1], NoWeights());
    }
  }

  /** A weight range as an encoder writes it. */
  datatype Range = Range(start: Byte, end: Byte, weights: seq<Byte>)

  predicate Fits(r: Range) {
    |r.weights| == RangeSize(r.start, r.end)
  }

  function ApplyRange(f: seq<nat>, r: Range): (g: seq<nat>)
    requires |f| == NODES && Fits(r)
    ensures |g| == NODES
  {
    var end: Byte := r.end;
    Overwrite(f, r.start, r.weights)
  }

  ghost predicate Printable(rs: seq<Range>) {
    && rs != []
    && (forall i :: 0 <= i < |rs| ==> Fits(rs[i]))
    && (forall i :: 1 <= i < |rs| ==> rs[i].start != 0)
  }

  function PrintRanges(rs: seq<Range>): seq<Byte> {
    if rs == [] then [0] else [rs[0].start, rs[0].end] + rs[0].weights + PrintRanges(rs[1..])
  }

  /** What the ranges mean: later ones replace earlier ones. */
  function ApplyRanges(f: seq<nat>, rs: seq<Range>): (g: seq<nat>)
    requires |f| == NODES && forall i :: 0 <= i < |rs| ==> Fits(rs[i])
    ensures |g| == NODES
    decreases |rs|
  {
    if rs == [] then f else ApplyRanges(ApplyRange(f, rs[0]), rs[1..])
  }

  /** One range off the front. */
  lemma ParseOne(r: Range, more: seq<Byte>, f: seq<nat>)
    requires |f| == NODES && Fits(r) && |more| >= 1
    ensures ParseRanges(r.weights + more, r.start, r.end, f) ==
            if more[0] == 0 then Some(Weights(ApplyRange(f, r), more[1..]))
            else if |more| < 2 then None
            else ParseRanges(more[2..], more[0], more[1], ApplyRange(f, r))
  {
    var s, n := r.weights + more, |r.weights|;
    assert s[..n] == r.weights && s[n] == more[0] && s[n + 1..] == more[1..];
    assert n == 0 ==> ApplyRange(f, r) == f;
    if |more| >= 2 {
      assert s[n + 1] == more[1] && s[n + 2..] == more[2..];
    }
  }

  lemma PrintOne(rs: seq<Range>, rest: seq<Byte>)
    requires rs != []
    ensures (PrintRanges(rs) + rest)[2..] == rs[0].weights + (PrintRanges(rs[1..]) + rest)
    ensures |PrintRanges(rs)| >= 2 && PrintRanges(rs)[0] == rs[0].start && PrintRanges(rs)[1] == rs[0].end
  {
  }

  /** Printed ranges are read back, and nothing behind them is touched. */
  lemma {:induction false} RangesRoundTrip(rs: seq<Range>, rest: seq<Byte>, f: seq<nat>)
    requires Printable(rs) && |f| == NODES
    ensures ParseRanges((PrintRanges(rs) + rest)[2..], rs[0].start, rs[0].end, f)
         == Some(Weights(ApplyRanges(f, rs), rest))
    decreases |rs|
  {
    var more := PrintRanges(rs[1..]) + rest;
    PrintOne(rs, rest);
    ParseOne(rs[0], more, f);
    if |rs| == 1 {
      assert more == [0] + rest;
    } else {
      assert Printable(rs[1..]);
      PrintOne(rs[1..], rest);
      RangesRoundTrip(rs[1..], rest, ApplyRange(f, rs[0]));
    }
  }

  /** One range, byte by byte. */
  method ReadRange(buf: seq<Byte>, first: nat, start: Byte, end: Byte, frequency: array<nat>) returns (pos: nat)
    requires frequency.Length == NODES && first + RangeSize(start, end) <= |buf|
    modifies frequency
    ensures pos == first + RangeSize(start, end)
    ensures frequency[..] == if pos == first then old(frequency[..]) else Overwrite(old(frequency[..]), start, buf[first..pos])
  {
    pos := first;
    var i := start;
    while i <= end
      invariant start <= i && pos == first + (i - start) && (i <= end + 1 || (i == start && end < start))
      invariant forall k :: 0 <= k < NODES ==>
                  frequency[k] == if start <= k < i then buf[first + (k - start)] else old(frequency[k])
    {
      frequency[i] := buf[pos];
      pos := pos + 1;
      i := i + 1;
    }
  }

  /** What is left of the ranges when the loop is about to read one at `pos`. */
  function Ranges(buf: seq<Byte>, pos: nat, start: Byte, end: Byte, f: seq<nat>): Option<Weights>
    requires |f| == NODES
  {
    if pos <= |buf| then ParseRanges(buf[pos..], start, end, f) else None
  }

  function Ranged(buf: seq<Byte>, pos: nat, start: Byte, end: Byte, f: seq<nat>): (g: seq<nat>)
    requires |f| == NODES && pos + RangeSize(start, end) <= |buf|
    ensures |g| == NODES
  {
    if RangeSize(start, end) == 0 then f else Overwrite(f, start, buf[pos..pos + RangeSize(start, end)])
  }

  /** One turn of the loop. */
  lemma RangesStep(buf: seq<Byte>, pos: nat, start: Byte, end: Byte, f: seq<nat>)
    requires |f| == NODES
    ensures pos + RangeSize(start, end) + 1 > |buf| ==> Ranges(buf, pos, start, end, f) == None
    ensures pos + RangeSize(start, end) + 1 <= |buf| ==>
              var q, g := pos + RangeSize(start, end), Ranged(buf, pos, start, end, f);
              Ranges(buf, pos, start, end, f) ==
              if buf[q] == 0 then Some(Weights(g, buf[q + 1..])) else Ranges(buf, q + 2, buf[q], ByteAt(buf, q + 1), g)
  {
    hide Overwrite;
    if pos + RangeSize(start, end) + 1 <= |buf| {
      var s, n := buf[pos..], RangeSize(start, end);
      assert s[..n] == buf[pos..pos + n] && s[n] == buf[pos + n] && s[n + 1..] == buf[pos + n + 1..];
      if pos + n + 2 <= |buf| {
        assert s[n + 1] == buf[pos + n + 1] && s[n + 2..] == buf[pos + n + 2..];
      }
    }
  }

  lemma RangesFromStart(buf: seq<Byte>, start: Byte, end: Byte)
    ensures Ranges(buf, 2, start, end, NoWeights()) ==
            if |buf| < 2 then None else ParseRanges(buf[2..], start, end, NoWeights())
  {
  }

  /** The range loop, in place. */
  method ReadRanges(buf: seq<Byte>, frequency: array<nat>) returns (pos: int)
    requires frequency.Length == NODES && frequency[..] == NoWeights()
    modifies frequency
    ensures pos < 0 ==> |buf| < 2 || ParseRanges(buf[2..], buf[0], buf[1], NoWeights()) == None
    ensures pos >= 0 ==> 2 <= pos <= |buf|
    ensures pos >= 0 ==> ParseRanges(buf[2..], buf[0], buf[1], NoWeights()) == Some(Weights(frequency[..], buf[pos..]))
  {
    hide ParseRanges, NoWeights, Overwrite, Ranges;
    var start, end := ByteAt(buf, 0), ByteAt(buf, 1);
    ghost var whole := Ranges(buf, 2, start, end, NoWeights());
    RangesFromStart(buf, start, end);
    pos := 2;
    while true
      invariant 2 <= pos && Ranges(buf, pos, start, end, frequency[..]) == whole
      decreases |buf| - pos
    {
      RangesStep(buf, pos, start, end, frequency[..]);
      if |buf| - pos < RangeSize(start, end) + 1 {
        return -1;
      }
      pos := ReadRange(buf, pos, start, end, frequency);
      start := buf[pos];
      pos := pos + 1;
      if start == 0 {
        return;
      }
      end := ByteAt(buf, pos);
      pos := pos + 1;
    }
  }

  /** The alignment loop. */
  method AlignTo4(start: nat) returns (pos: nat)
    ensures pos == start + Padding(start)
  {
    pos := start;
    while pos % 4 != 0
      invariant start <= pos && pos + Padding(pos) == start + Padding(start)
      decreases Padding(pos)
    {
      pos := pos + 1;
    }
  }

  lemma FinishAt(buf: seq<Byte>, end: nat, f: seq<nat>)
    requires end <= |buf| && |f| == NODES
    ensures var pos := end + Padding(end);
            Finish(|buf|, Some(Weights(f, buf[end..]))) ==
              if pos > |buf| then None else Some(Weights(f[256 := 1], buf[pos..]))
  {
    var pos := end + Padding(end);
    if pos <= |buf| {
      assert buf[end..][pos - end..] == buf[pos..];
    }
  }

  /** The whole table: ranges, the weight of the end mark, and the alignment of what follows. */
  method ReadWeights(buf: seq<Byte>, frequency: array<nat>) returns (pos: int)
    requires frequency.Length == NODES && frequency[..] == NoWeights()
    modifies frequency
    ensures pos >= 0 <==> ParseWeights(buf).Some?
    ensures pos >= 0 ==> pos <= |buf| && Weights(frequency[..], buf[pos..]) == ParseWeights(buf).value
  {
    var end := ReadRanges(buf, frequency);
    if end < 0 {
      return -1;
    }
    FinishAt(buf, end, frequency[..]);
    ghost var f := frequency[..];
    frequency[256] := 1;
    assert frequency[..] == f[256 := 1];
    pos := AlignTo4(end);
    if pos > |buf| {
      return -1;
    }
  }
}
