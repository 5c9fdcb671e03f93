/**
 output_packet of the transcoder: a packet, or the end of the stream, is pushed through a chain of bitstream
 filters and whatever comes out goes to the muxer. A filter is any deterministic transducer behind the
 send/receive interface of the library: one buffered packet, an end flag, and a queue of finished outputs.
 */
module BsfChain {
  import opened Sums
  import opened PrefixCodes

  /** A packet without data counts as the end of the stream when it is sent. */
  datatype Packet = Packet(data: seq<int>)

  predicate Blank(p: Packet) { p.data == [] }

  /** What a filter makes of its next packet after given earlier ones, and of the end of the stream. */
  datatype Transducer = Transducer(step: (seq<Packet>, Packet) -> seq<Packet>, flush: seq<Packet> -> seq<Packet>)

  /** Filters never emit blank packets. */
  ghost predicate Proper(t: Transducer) {
    && (forall h: seq<Packet>, p: Packet, i: nat :: i < |t.step(h, p)| ==> !Blank(t.step(h, p)[i]))
    && (forall h: seq<Packet>, i: nat :: i < |t.flush(h)| ==> !Blank(t.flush(h)[i]))
  }

  /** Packets seen, the buffered one, outputs not yet fetched, and the end flag with whether it was acted on. */
  datatype Filter = Filter(hist: seq<Packet>, buffer: Option<Packet>, pending: seq<Packet>, eof: bool, flushed: bool)

  datatype Sent = Accepted | Refused

  /**
   av_bsf_send_packet: no packet or a blank one marks the end; a packet is refused after the end or while one is
   buffered.
   */
  function Send(f: Filter, p: Option<Packet>): (r: (Filter, Sent)) {
    if p.None? || Blank(p.value) then (f.(eof := true), Accepted)
    else if f.eof || f.buffer.Some? then (f, Refused)
    else (f.(buffer := p), Accepted)
  }

  datatype Received = Got(packet: Packet) | Again | Ended

  function Fetch(f: Filter, otherwise: Received): (Filter, Received) {
    if f.pending != [] then (f.(pending := f.pending[1..]), Got(f.pending[0])) else (f, otherwise)
  }

  /** av_bsf_receive_packet: finished outputs first, then the end of the stream, then the buffered packet. */
  function Receive(t: Transducer, f: Filter): (Filter, Received) {
    if f.pending != [] then Fetch(f, Again)
    else if f.eof then
      if f.flushed then (f, Ended) else Fetch(f.(flushed := true, pending := t.flush(f.hist)), Ended)
    else if f.buffer.Some? then
      Fetch(Filter(f.hist + [f.buffer.value], None, t.step(f.hist, f.buffer.value), f.eof, f.flushed), Again)
    else (f, Again)
  }

  // ---------- the composition of the filters

  /** All a filter makes of a history of packets. */
  function Made(t: Transducer, h: seq<Packet>): seq<Packet> {
    if h == [] then [] else Made(t, h[..|h| - 1]) + t.step(h[..|h| - 1], h[|h| - 1])
  }

  function Output(t: Transducer, h: seq<Packet>, ended: bool): seq<Packet> {
    Made(t, h) + if ended then t.flush(h) else []
  }

  /** The composed transduction of filters from index `k` on. */
  function Through(ts: seq<Transducer>, k: nat, xs: seq<Packet>, ended: bool): seq<Packet>
    requires k <= |ts|
    decreases |ts| - k
  {
    if k == |ts| then xs else Through(ts, k + 1, Output(ts[k], xs, ended), ended)
  }

  // ---------- the chain

  datatype Chain = Chain(fs: seq<Filter>, muxed: seq<Packet>)

  function Buffered(f: Filter): seq<Packet> {
    if f.buffer.Some? then [f.buffer.value] else []
  }

  /** All that has been sent to filter `k`; behind the last filter, to the muxer. */
  function Arrived(c: Chain, k: nat): seq<Packet>
    requires k <= |c.fs|
  {
    if k < |c.fs| then c.fs[k].hist + Buffered(c.fs[k]) else c.muxed
  }

  predicate Idle(f: Filter) {
    f.buffer.None? && f.pending == [] && !f.eof && !f.flushed
  }

  predicate Finished(f: Filter) {
    f.buffer.None? && f.pending == [] && f.eof && f.flushed
  }

  /**
   While filter `idx - 1` is asked, all later ones are idle and all earlier ones hold no unprocessed packet; the end
   has come exactly as far as it may.
   */
  ghost predicate At(c: Chain, idx: nat) {
    && idx <= |c.fs|
    && (forall k :: idx <= k < |c.fs| ==> Idle(c.fs[k]))
    && (forall k :: 0 <= k < idx - 1 ==> c.fs[k].buffer.None?)
    && (forall k :: 0 <= k < |c.fs| - 1 && c.fs[k + 1].eof ==> Finished(c.fs[k]))
  }

  // ---------- single steps

  /** What a filter made so far is its output handed on, `a`, and what is pending. */
  ghost predicate Accounts(t: Transducer, f: Filter, a: seq<Packet>) {
    && Output(t, f.hist, f.flushed) == a + f.pending
    && (f.flushed ==> f.eof) && (f.eof ==> f.buffer.None?) && (f.buffer.Some? ==> f.pending == [])
    && forall i :: 0 <= i < |f.pending| ==> !Blank(f.pending[i])
  }

  lemma MadeOneMore(t: Transducer, h: seq<Packet>, p: Packet)
    ensures Made(t, h + [p]) == Made(t, h) + t.step(h, p)
  {
    assert (h + [p])[..|h|] == h;
  }

  lemma FetchAccounts(t: Transducer, f: Filter, a: seq<Packet>)
    requires Accounts(t, f, a) && f.pending != []
    ensures Accounts(t, f.(pending := f.pending[1..]), a + [f.pending[0]]) && !Blank(f.pending[0])
  {
    assert a + f.pending == (a + [f.pending[0]]) + f.pending[1..];
  }

  lemma NothingPending(t: Transducer, f: Filter, a: seq<Packet>)
    requires Accounts(t, f, a) && f.pending == [] && !f.flushed
    ensures Made(t, f.hist) == a
  {
    assert Output(t, f.hist, false) == Made(t, f.hist);
    assert a + [] == a;
  }

  /** Asking a filter loses nothing: it hands out its next output, says it needs more, or is finished. */
  lemma ReceiveAccounts(t: Transducer, f: Filter, a: seq<Packet>)
    requires Proper(t) && Accounts(t, f, a)
    ensures var (g, r) := Receive(t, f);
            g.eof == f.eof && g.buffer.None? && g.hist + Buffered(g) == f.hist + Buffered(f) &&
            match r
            case Got(p) => !Blank(p) && Accounts(t, g, a + [p])
            case Again => Accounts(t, g, a) && Idle(g)
            case Ended => Accounts(t, g, a) && Finished(g)
  {
    if f.pending != [] {
      FetchAccounts(t, f, a);
    } else if f.eof {
      if !f.flushed {
        var g := f.(flushed := true, pending := t.flush(f.hist));
        assert Made(t, f.hist) == a by { NothingPending(t, f, a); }
        if g.pending != [] {
          FetchAccounts(t, g, a);
        }
      }
    } else if f.buffer.Some? {
      var p := f.buffer.value;
      var g := Filter(f.hist + [p], None, t.step(f.hist, p), f.eof, f.flushed);
      MadeOneMore(t, f.hist, p);
      NothingPending(t, f, a);
      assert Output(t, g.hist, false) == Made(t, g.hist);
      if g.pending != [] {
        FetchAccounts(t, g, a);
      }
    }
  }

  /**
   Nothing is lost or reordered between neighbours: what a filter made is what its successor was sent, then what is
   pending.
   */
  ghost predicate Linked(ts: seq<Transducer>, c: Chain) {
    && |ts| == |c.fs|
    && (forall k :: 0 <= k < |ts| ==> Proper(ts[k]))
    && (forall k :: 0 <= k < |ts| ==> Accounts(ts[k], c.fs[k], Arrived(c, k + 1)))
  }

  /** The end of the stream has come no further than behind finished filters. */
  ghost predicate EndInOrder(c: Chain) {
    forall k :: 0 <= k < |c.fs| - 1 && c.fs[k + 1].eof ==> Finished(c.fs[k])
  }

  /** While filter `idx - 1` is asked, all later ones are idle. */
  ghost predicate IdleFrom(c: Chain, idx: nat) {
    idx <= |c.fs| && forall k :: idx <= k < |c.fs| ==> Idle(c.fs[k])
  }

  /** The chain after filter `idx - 1` was asked and, if a packet came, after it was passed on. */
  function Pass(ts: seq<Transducer>, c: Chain, idx: nat): (r: (Chain, Received))
    requires 0 < idx <= |c.fs| == |ts|
    ensures |r.0.fs| == |c.fs|
  {
    var (g, r) := Receive(ts[idx - 1], c.fs[idx - 1]);
    var fs := c.fs[idx - 1 := g];
    match r
    case Got(p) =>
      if idx < |fs| then (Chain(fs[idx := Send(fs[idx], Some(p)).0], c.muxed), r) else (Chain(fs, c.muxed + [p]), r)
    case Again => (Chain(fs, c.muxed), r)
    case Ended => (Chain(if idx < |fs| then fs[idx := Send(fs[idx], None).0] else fs, c.muxed), r)
  }

  lemma Stage(ts: seq<Transducer>, c: Chain, k: nat)
    requires Linked(ts, c) && k < |ts|
    ensures |c.fs| == |ts| && Proper(ts[k]) && Accounts(ts[k], c.fs[k], Arrived(c, k + 1))
  {
    hide Accounts, Proper, Arrived;
  }

  /** What asking filter `idx - 1` gives, and the idle filter behind it. */
  lemma Asked(ts: seq<Transducer>, c: Chain, idx: nat)
    requires Linked(ts, c) && 0 < idx && IdleFrom(c, idx)
    ensures idx <= |c.fs| == |ts|
    ensures var (g, r) := Receive(ts[idx - 1], c.fs[idx - 1]);
            g.eof == c.fs[idx - 1].eof && g.hist + Buffered(g) == c.fs[idx - 1].hist + Buffered(c.fs[idx - 1]) &&
            (r.Got? ==> !Blank(r.packet)) && (c.fs[idx - 1].eof ==> g.hist == c.fs[idx - 1].hist)
    ensures idx < |c.fs| ==> Idle(c.fs[idx])
  {
    Stage(ts, c, idx - 1);
    ReceiveAccounts(ts[idx - 1], c.fs[idx - 1], Arrived(c, idx));
    hide Receive, Proper, Arrived, Linked;
    if c.fs[idx - 1].eof {
      EndedTakesNothing(ts[idx - 1], c.fs[idx - 1], Arrived(c, idx));
    }
  }

  /** Exactly the packet fetched is added to what has arrived at the next stage; nothing else moves. */
  lemma PassArrived(ts: seq<Transducer>, c: Chain, idx: nat, k: nat)
    requires Linked(ts, c) && 0 < idx && IdleFrom(c, idx) && k <= |c.fs|
    ensures var (d, r) := Pass(ts, c, idx);
            Arrived(d, k) == if r.Got? && k == idx then Arrived(c, k) + [r.packet] else Arrived(c, k)
  {
    hide Receive, Linked, IdleFrom;
    Asked(ts, c, idx);
  }

  /**
   The end flags after a round: only the next filter's may be raised; a filter already told of the end takes in
   nothing more.
   */
  lemma PassFlags(ts: seq<Transducer>, c: Chain, idx: nat, k: nat)
    requires Linked(ts, c) && 0 < idx && IdleFrom(c, idx) && k < |c.fs|
    ensures var (d, r) := Pass(ts, c, idx);
            (d.fs[k].eof <==> c.fs[k].eof || (k == idx && r.Ended?)) &&
            (k == idx ==> !c.fs[k].eof && Arrived(c, k) == d.fs[k].hist) &&
            (c.fs[k].eof ==> d.fs[k].hist == c.fs[k].hist)
  {
    hide Receive, Linked, IdleFrom;
    Asked(ts, c, idx);
    if k == idx {
      assert c.fs[k].hist + [] == c.fs[k].hist;
    }
  }

  lemma EndedTakesNothing(t: Transducer, f: Filter, a: seq<Packet>)
    requires Accounts(t, f, a) && f.eof
    ensures Receive(t, f).0.hist == f.hist
  {
    hide Output;
  }

  /** A filter that is sent something while idle keeps its books. */
  lemma SendAccounts(t: Transducer, f: Filter, p: Option<Packet>, a: seq<Packet>)
    requires Accounts(t, f, a) && Idle(f) && (p.Some? ==> !Blank(p.value))
    ensures Accounts(t, Send(f, p).0, a) && Send(f, p).1 == Accepted
  {
    hide Output;
  }

  lemma PassAccounts(ts: seq<Transducer>, c: Chain, idx: nat, k: nat)
    requires Linked(ts, c) && 0 < idx && IdleFrom(c, idx) && k < |c.fs|
    ensures Accounts(ts[k], Pass(ts, c, idx).0.fs[k], Arrived(Pass(ts, c, idx).0, k + 1))
  {
    hide Receive, Accounts, Arrived, Proper, Send;
    var d := Pass(ts, c, idx).0;
    assert Accounts(ts[idx - 1], c.fs[idx - 1], Arrived(c, idx));
    assert Accounts(ts[k], c.fs[k], Arrived(c, k + 1));
    ReceiveAccounts(ts[idx - 1], c.fs[idx - 1], Arrived(c, idx));
    PassArrived(ts, c, idx, k + 1);
    var (g, r) := Receive(ts[idx - 1], c.fs[idx - 1]);
    if k == idx {
      assert Idle(c.fs[k]);
      if !r.Again? {
        SendAccounts(ts[k], c.fs[k], if r.Got? then Some(r.packet) else None, Arrived(c, k + 1));
      }
    }
  }

  /** Passing on never meets a filter that would refuse, and keeps the chain linked with the end in order. */
  lemma PassKeepsLinked(ts: seq<Transducer>, c: Chain, idx: nat)
    requires Linked(ts, c) && EndInOrder(c) && 0 < idx && IdleFrom(c, idx)
    ensures var (d, r) := Pass(ts, c, idx);
            Linked(ts, d) && EndInOrder(d) &&
            match r
            case Got(p) => !Blank(p) && IdleFrom(d, if idx < |c.fs| then idx + 1 else idx)
            case Again => IdleFrom(d, idx - 1)
            case Ended => IdleFrom(d, if idx < |c.fs| then idx + 1 else idx) && Finished(d.fs[idx - 1])
  {
    hide Receive, Accounts, Arrived, Proper;
    var (d, r) := Pass(ts, c, idx);
    forall k | 0 <= k < |ts| ensures Accounts(ts[k], d.fs[k], Arrived(d, k + 1)) {
      PassAccounts(ts, c, idx, k);
    }
    assert Accounts(ts[idx - 1], c.fs[idx - 1], Arrived(c, idx));
    ReceiveAccounts(ts[idx - 1], c.fs[idx - 1], Arrived(c, idx));
    assert idx < |c.fs| ==> Idle(c.fs[idx]);
  }

  // ---------- where the loop is heading

  /** What will have arrived at stage `k` when everything is drained. */
  ghost function Goal(ts: seq<Transducer>, xs: seq<Packet>, ended: bool, k: nat): seq<Packet>
    requires k <= |ts|
  {
    if k == 0 then xs else Output(ts[k - 1], Goal(ts, xs, ended, k - 1), ended)
  }

  /** What is to arrive at the muxer is the composition of the filters from any stage on. */
  lemma {:induction false} GoalIsComposition(ts: seq<Transducer>, xs: seq<Packet>, ended: bool, k: nat)
    requires k <= |ts|
    ensures Through(ts, k, Goal(ts, xs, ended, k), ended) == Goal(ts, xs, ended, |ts|)
    decreases |ts| - k
  {
    hide Output;
    if k < |ts| {
      GoalIsComposition(ts, xs, ended, k + 1);
    }
  }

  /** The input is fixed, and a filter that was told of the end has seen all it will ever see. */
  ghost predicate Toward(ts: seq<Transducer>, c: Chain, xs: seq<Packet>, ended: bool)
    requires |ts| == |c.fs|
  {
    && Arrived(c, 0) == xs
    && forall k :: 0 <= k < |c.fs| && c.fs[k].eof ==> ended && c.fs[k].hist == Goal(ts, xs, ended, k)
  }

  lemma {:induction false} MadeMonotone(t: Transducer, h: seq<Packet>, g: seq<Packet>)
    requires h <= g
    ensures Made(t, h) <= Made(t, g)
    decreases |g|
  {
    if |h| < |g| {
      MadeMonotone(t, h, g[..|g| - 1]);
    } else {
      assert h == g;
    }
  }

  lemma OutputMonotone(t: Transducer, f: Filter, a: seq<Packet>, goal: seq<Packet>, ended: bool)
    requires Accounts(t, f, a) && f.hist <= goal && (f.flushed ==> ended && f.hist == goal)
    ensures a <= Output(t, goal, ended)
  {
    MadeMonotone(t, f.hist, goal);
    assert a <= a + f.pending;
    if f.flushed {
      assert a + f.pending == Output(t, goal, ended);
    } else {
      assert a <= Made(t, f.hist) + [];
      assert Made(t, f.hist) + [] == Made(t, f.hist);
    }
  }

  lemma GoalStep(ts: seq<Transducer>, xs: seq<Packet>, ended: bool, k: nat)
    requires 0 < k <= |ts|
    ensures Goal(ts, xs, ended, k) == Output(ts[k - 1], Goal(ts, xs, ended, k - 1), ended)
  {
  }

  lemma HistArrived(c: Chain, k: nat)
    requires k < |c.fs|
    ensures c.fs[k].hist <= Arrived(c, k)
    ensures c.fs[k].buffer.None? ==> c.fs[k].hist == Arrived(c, k)
  {
    assert c.fs[k].hist + [] == c.fs[k].hist;
  }

  lemma FlushedIsComplete(ts: seq<Transducer>, c: Chain, xs: seq<Packet>, ended: bool, k: nat)
    requires Linked(ts, c) && Toward(ts, c, xs, ended) && k < |ts|
    ensures c.fs[k].flushed ==> ended && c.fs[k].hist == Goal(ts, xs, ended, k)
  {
    Stage(ts, c, k);
    hide Linked, Proper, Output, Goal, Arrived;
  }

  /** At every stage only a prefix of what will arrive has arrived. */
  lemma {:induction false} ArrivedIsPrefix(ts: seq<Transducer>, c: Chain, xs: seq<Packet>, ended: bool, k: nat)
    requires Linked(ts, c) && Toward(ts, c, xs, ended) && k <= |ts|
    ensures Arrived(c, k) <= Goal(ts, xs, ended, k)
  {
    hide Linked, Accounts, Proper, Output, Made;
    if k > 0 {
      Stage(ts, c, k - 1);
      FlushedIsComplete(ts, c, xs, ended, k - 1);
      ArrivedIsPrefix(ts, c, xs, ended, k - 1);
      HistArrived(c, k - 1);
      GoalStep(ts, xs, ended, k);
      hide Goal, Arrived, Toward;
      var goal := Goal(ts, xs, ended, k - 1);
      assert c.fs[k - 1].hist <= goal by { PrefixTransitive(c.fs[k - 1].hist, Arrived(c, k - 1), goal); }
      OutputMonotone(ts[k - 1], c.fs[k - 1], Arrived(c, k), goal, ended);
    }
  }

  lemma PrefixTransitive(a: seq<Packet>, b: seq<Packet>, c: seq<Packet>)
    requires a <= b && b <= c
    ensures a <= c
  {
  }

  /** A filter with nothing pending has handed on all it made. */
  lemma DrainedOutput(t: Transducer, f: Filter, a: seq<Packet>)
    requires Accounts(t, f, a) && f.pending == []
    ensures a == Output(t, f.hist, f.flushed)
  {
    hide Output;
    assert a + [] == a;
  }

  /** An idle filter, or a finished one, has handed on all it made: with everything drained the goals are reached. */
  lemma {:induction false} DrainedReachesGoal(ts: seq<Transducer>, c: Chain, xs: seq<Packet>, ended: bool, k: nat)
    requires Linked(ts, c) && Arrived(c, 0) == xs && k <= |ts|
    requires forall i :: 0 <= i < |c.fs| ==> if ended then Finished(c.fs[i]) else Idle(c.fs[i])
    ensures Arrived(c, k) == Goal(ts, xs, ended, k)
  {
    hide Linked, Accounts, Proper, Output, Made;
    if k > 0 {
      DrainedReachesGoal(ts, c, xs, ended, k - 1);
      Stage(ts, c, k - 1);
      HistArrived(c, k - 1);
      GoalStep(ts, xs, ended, k);
      hide Goal, Arrived;
      DrainedOutput(ts[k - 1], c.fs[k - 1], Arrived(c, k));
    }
  }

  lemma PassKeepsToward(ts: seq<Transducer>, c: Chain, idx: nat, xs: seq<Packet>, ended: bool)
    requires Linked(ts, c) && 0 < idx && IdleFrom(c, idx) && Toward(ts, c, xs, ended)
    ensures Toward(ts, Pass(ts, c, idx).0, xs, ended)
  {
    var (d, r) := Pass(ts, c, idx);
    hide Pass, Receive, Output, Proper, Linked;
    PassArrived(ts, c, idx, 0);
    forall k | 0 <= k < |d.fs| && d.fs[k].eof ensures ended && d.fs[k].hist == Goal(ts, xs, ended, k) {
      PassFlags(ts, c, idx, k);
      if k == idx {
        EndReachesGoal(ts, c, idx, xs, ended);
      }
    }
  }

  /** When a filter is found finished, all it will ever make has arrived at the next stage. */
  lemma EndReachesGoal(ts: seq<Transducer>, c: Chain, idx: nat, xs: seq<Packet>, ended: bool)
    requires Linked(ts, c) && 0 < idx && IdleFrom(c, idx) && Toward(ts, c, xs, ended)
    requires Receive(ts[idx - 1], c.fs[idx - 1]).1.Ended?
    ensures ended && Arrived(c, idx) == Goal(ts, xs, ended, idx)
  {
    hide Receive, Output, Proper;
    var f := c.fs[idx - 1];
    assert Accounts(ts[idx - 1], f, Arrived(c, idx));
    ReceiveAccounts(ts[idx - 1], f, Arrived(c, idx));
    EndedTakesNothing(ts[idx - 1], f, Arrived(c, idx));
    assert Arrived(c, idx) + [] == Arrived(c, idx);
  }

  /** What the muxer has received is never revised: more packets, or the end, only add to it. */
  lemma {:induction false} ThroughExtends(ts: seq<Transducer>, k: nat, xs: seq<Packet>, ys: seq<Packet>, ended: bool)
    requires k <= |ts| && xs <= ys
    ensures Through(ts, k, xs, false) <= Through(ts, k, ys, ended)
    decreases |ts| - k
  {
    if k < |ts| {
      MadeMonotone(ts[k], xs, ys);
      assert Output(ts[k], xs, false) == Made(ts[k], xs);
      assert Output(ts[k], xs, false) <= Output(ts[k], ys, ended);
      ThroughExtends(ts, k + 1, Output(ts[k], xs, false), Output(ts[k], ys, ended), ended);
    }
  }

  // ---------- termination

  ghost function MissingTerms(ts: seq<Transducer>, c: Chain, xs: seq<Packet>, ended: bool): (t: seq<int>)
    requires |ts| == |c.fs|
    ensures |t| == |ts| + 1
  {
    seq(|ts| + 1, k requires 0 <= k <= |ts| => |Goal(ts, xs, ended, k)| - |Arrived(c, k)|)
  }

  /** Packets that still have to arrive somewhere. */
  ghost function Missing(ts: seq<Transducer>, c: Chain, xs: seq<Packet>, ended: bool): int
    requires |ts| == |c.fs|
  {
    Sum(MissingTerms(ts, c, xs, ended))
  }

  ghost function OpenTerms(c: Chain): (t: seq<int>)
    ensures |t| == |c.fs|
  {
    seq(|c.fs|, k requires 0 <= k < |c.fs| => if c.fs[k].eof then 0 else 1)
  }

  /** Filters not yet told of the end. */
  ghost function Open(c: Chain): int { Sum(OpenTerms(c)) }

  lemma SumNotNegative(t: seq<int>)
    requires forall k :: 0 <= k < |t| ==> t[k] >= 0
    ensures Sum(t) >= 0
  {
    SumZero(seq(|t|, k => 0));
    SumMonotone(seq(|t|, k => 0), t);
  }

  lemma MeasuresBounded(ts: seq<Transducer>, c: Chain, xs: seq<Packet>, ended: bool)
    requires Linked(ts, c) && Toward(ts, c, xs, ended)
    ensures Missing(ts, c, xs, ended) >= 0 && Open(c) >= 0
  {
    forall k | 0 <= k <= |ts| ensures MissingTerms(ts, c, xs, ended)[k] >= 0 {
      ArrivedIsPrefix(ts, c, xs, ended, k);
    }
    SumNotNegative(MissingTerms(ts, c, xs, ended));
    SumNotNegative(OpenTerms(c));
  }

  /**
   Each round brings a packet one stage further, or tells one more filter of the end, or steps back to an earlier
   filter.
   */
  lemma PassMakesProgress(ts: seq<Transducer>, c: Chain, idx: nat, xs: seq<Packet>, ended: bool)
    requires Linked(ts, c) && 0 < idx && IdleFrom(c, idx)
    ensures var (d, r) := Pass(ts, c, idx);
            Missing(ts, d, xs, ended) == Missing(ts, c, xs, ended) - (if r.Got? then 1 else 0) &&
            Open(d) == Open(c) - (if r.Ended? && idx < |c.fs| then 1 else 0)
  {
    hide Receive, Proper, Goal, Arrived;
    var (d, r) := Pass(ts, c, idx);
    var m := MissingTerms(ts, c, xs, ended);
    forall k | 0 <= k <= |ts| ensures MissingTerms(ts, d, xs, ended)[k] == if r.Got? && k == idx then m[k] - 1 else m[k] {
      PassArrived(ts, c, idx, k);
    }
    if r.Got? {
      SumUpdate(m, idx, m[idx] - 1);
      assert MissingTerms(ts, d, xs, ended) == m[idx := m[idx] - 1];
    } else {
      assert MissingTerms(ts, d, xs, ended) == m;
    }
    PassOpens(ts, c, idx);
  }

  lemma PassOpens(ts: seq<Transducer>, c: Chain, idx: nat)
    requires Linked(ts, c) && 0 < idx && IdleFrom(c, idx)
    ensures var (d, r) := Pass(ts, c, idx); Open(d) == Open(c) - (if r.Ended? && idx < |c.fs| then 1 else 0)
  {
    Sizes(ts, c, idx);
    hide Pass, Linked, IdleFrom;
    PassMovesFlags(ts, c, idx);
    FlagsOpen(c, Pass(ts, c, idx).0, idx, Pass(ts, c, idx).1);
  }

  lemma FlagsOpen(c: Chain, d: Chain, idx: nat, r: Received)
    requires FlagsMoved(c, d, idx, r)
    ensures Open(d) == Open(c) - (if r.Ended? && idx < |c.fs| then 1 else 0)
  {
    var o := OpenTerms(c);
    if r.Ended? && idx < |c.fs| {
      SumUpdate(o, idx, 0);
      assert OpenTerms(d) == o[idx := 0];
    } else {
      assert OpenTerms(d) == o;
    }
  }

  // ---------- the transcoder's loop

  class OutputStream {
    const ts: seq<Transducer>
    const ctx: array<Filter>
    var muxed: seq<Packet>
    ghost var ends: seq<nat>   // how often each filter was told of the end

    ghost function Now(): Chain
      reads this, ctx
    {
      Chain(ctx[..], muxed)
    }

    ghost predicate Valid()
      reads this, ctx
    {
      Linked(ts, Now()) && |ends| == |ts| == ctx.Length
    }

    /** Between calls, before the end: every filter is idle. */
    ghost predicate Quiet()
      reads this, ctx
    {
      forall k :: 0 <= k < ctx.Length ==> Idle(ctx[k])
    }

    /** All packets ever given to the chain. */
    ghost function Input(): seq<Packet>
      reads this, ctx
    {
      Arrived(Now(), 0)
    }

    constructor (ts: seq<Transducer>)
      requires forall k :: 0 <= k < |ts| ==> Proper(ts[k])
      ensures Valid() && Quiet() && fresh(ctx) && this.ts == ts && Input() == [] && muxed == []
      ensures forall k :: 0 <= k < |ts| ==> ends[k] == 0
    {
      this.ts := ts;
      ctx := new Filter[|ts|](i => Filter([], None, [], false, false));
      muxed := [];
      ends := seq(|ts|, i => 0);
    }

    /** av_bsf_send_packet on a context; `ends` counts the end marks sent. */
    method SendPacket(k: nat, p: Option<Packet>) returns (r: Sent)
      requires k < ctx.Length == |ends|
      modifies ctx, this`ends
      ensures (ctx[k], r) == Send(old(ctx[k]), p) && ctx[..] == old(ctx[..])[k := ctx[k]]
      ensures ends == if p.None? || Blank(p.value) then old(ends)[k := old(ends)[k] + 1] else old(ends)
    {
      if p.None? || Blank(p.value) {
        ctx[k] := ctx[k].(eof := true);
        ends := ends[k := ends[k] + 1];
        return Accepted;
      }
      if ctx[k].eof || ctx[k].buffer.Some? {
        return Refused;
      }
      ctx[k] := ctx[k].(buffer := p);
      r := Accepted;
    }

    /** av_bsf_receive_packet on a context. */
    method ReceivePacket(k: nat) returns (r: Received)
      requires k < ctx.Length == |ts|
      modifies ctx
      ensures (ctx[k], r) == Receive(ts[k], old(ctx[k])) && ctx[..] == old(ctx[..])[k := ctx[k]]
    {
      var f := ctx[k];
      r := Again;
      if f.pending == [] && f.eof {
        r := Ended;
        if !f.flushed {
          f := f.(flushed := true, pending := ts[k].flush(f.hist));
        }
      } else if f.pending == [] && f.buffer.Some? {
        f := f.(pending := ts[k].step(f.hist, f.buffer.value), hist := f.hist + [f.buffer.value], buffer := None);
      }
      if f.pending != [] {
        r := Got(f.pending[0]);
        f := f.(pending := f.pending[1..]);
      }
      ctx[k] := f;
    }

    /** One round: ask filter `idx - 1`, hand what came to the next filter or the muxer. */
    method Round(idx: nat) returns (next: nat, r: Received, failed: bool)
      requires Valid() && EndInOrder(Now()) && 0 < idx && IdleFrom(Now(), idx)
      modifies ctx, this`muxed, this`ends
      ensures (Now(), r) == Pass(ts, old(Now()), idx) && !failed && |ends| == |ts|
      ensures next == if r.Again? then idx - 1 else if idx < ctx.Length then idx + 1 else idx
      ensures ends == CountEnd(old(ends), idx, r)
    {
      hide Linked, EndInOrder, Accounts, Receive;
      failed := false;
      ghost var c := Now();
      Asked(ts, c, idx);
      r := ReceivePacket(idx - 1);
      next := idx;
      match r {
        case Again =>
          next := idx - 1;
        case Got(p) =>
          if idx < ctx.Length {
            var s := SendPacket(idx, Some(p));
            failed := s == Refused;
            next := idx + 1;
          } else {
            muxed := muxed + [p];
          }
        case Ended =>
          if idx < ctx.Length {
            var s := SendPacket(idx, None);
            failed := s == Refused;
            next := idx + 1;
          }
      }
    }

    /** The state of a call in progress: filter `idx - 1` is asked next, or all is done. */
    ghost predicate Draining(idx: nat, done: bool, xs: seq<Packet>, eof: bool, before: seq<nat>)
      reads this, ctx
    {
      ctx.Length > 0 && Going(ts, Now(), idx, done, xs, eof, before, ends)
    }

    /** A round with the books kept; `m` and `l` measure what is left to do before and after it. */
    method Step(idx: nat, ghost xs: seq<Packet>, ghost eof: bool, ghost before: seq<nat>, ghost m: (int, int))
      returns (next: nat, done: bool, failed: bool, ghost l: (int, int))
      requires idx > 0 && Draining(idx, false, xs, eof, before) && m == Work(ts, Now(), xs, eof)
      modifies ctx, this`muxed, this`ends
      ensures !failed && Draining(next, done, xs, eof, before) && l == Work(ts, Now(), xs, eof)
      ensures m.0 >= 0 && m.1 >= 0 && Smaller(l, next, done, m, idx)
    {
      Facts(idx, xs, eof, before);
      hide Going, Pass, Work, Smaller, Linked, EndInOrder, IdleFrom, CountEnd;
      ghost var c, ends0 := Now(), ends;
      var last := idx == ctx.Length;
      var r;
      next, r, failed := Round(idx);
      done := r.Ended? && last;
      GoingOn(ts, c, idx, xs, eof, before, ends0, ends);
      l := Work(ts, Now(), xs, eof);
    }

    lemma Facts(idx: nat, xs: seq<Packet>, eof: bool, before: seq<nat>)
      requires idx > 0 && Draining(idx, false, xs, eof, before)
      ensures Valid() && EndInOrder(Now()) && IdleFrom(Now(), idx) && idx <= ctx.Length
    {
      Sizes(ts, Now(), idx);
      hide Linked, EndInOrder, IdleFrom, Toward;
    }

    /** output_packet: the whole chain is drained into the muxer. */
    method OutputPacket(pkt: Packet, eof: bool) returns (failed: bool)
      requires Valid() && Quiet() && (!eof ==> !Blank(pkt))
      modifies ctx, this`muxed, this`ends
      ensures !failed && Valid()
      ensures Input() == if eof then old(Input()) else old(Input()) + [pkt]
      ensures muxed == Through(ts, 0, Input(), eof)
      ensures !eof ==> Quiet() && ends == old(ends)
      ensures eof ==> forall k :: 0 <= k < ctx.Length ==> Finished(ctx[k]) && ends[k] == old(ends)[k] + 1
    {
      if ctx.Length == 0 {
        if !eof {
          muxed := muxed + [pkt];
        }
        return false;
      }
      ghost var before := ends;
      ghost var xs := if eof then Input() else Input() + [pkt];
      FirstSend(ts, Now(), if eof then None else Some(pkt), eof);
      var s := SendPacket(0, if eof then None else Some(pkt));
      failed := s == Refused;
      assert Draining(1, false, xs, eof, before);
      var idx, done := 1, false;
      ghost var work := Work(ts, Now(), xs, eof);
      while idx != 0 && !done
        invariant !failed && Draining(idx, done, xs, eof, before) && work == Work(ts, Now(), xs, eof)
        decreases work.0, work.1, !done, idx
      {
        hide Going, Work;
        idx, done, failed, work := Step(idx, xs, eof, before, work);
      }
      Drained(idx, done, xs, eof, before);
    }

    /** The loop ends only when every filter is idle again, or all are finished: then all goals are reached. */
    lemma Drained(idx: nat, done: bool, xs: seq<Packet>, eof: bool, before: seq<nat>)
      requires Draining(idx, done, xs, eof, before) && (idx == 0 || done)
      ensures Input() == xs && muxed == Through(ts, 0, xs, eof)
      ensures !eof ==> Quiet() && ends == before
      ensures eof ==> forall k :: 0 <= k < ctx.Length ==> Finished(ctx[k]) && ends[k] == before[k] + 1
    {
      ghost var c := Now();
      hide Accounts, Proper;
      if done {
        AllFinished(c, |c.fs| - 1);
      }
      assert forall k :: 0 <= k < |c.fs| ==> if eof then Finished(c.fs[k]) else Idle(c.fs[k]);
      DrainedReachesGoal(ts, c, xs, eof, |ts|);
      GoalIsComposition(ts, xs, eof, 0);
    }
  }

  /** A call in progress, with `ends` counting from `before` how often each filter was told of the end. */
  ghost predicate Going(ts: seq<Transducer>, c: Chain, idx: nat, done: bool, xs: seq<Packet>, eof: bool,
                        before: seq<nat>, ends: seq<nat>) {
    && |c.fs| > 0 && Linked(ts, c) && EndInOrder(c) && IdleFrom(c, idx) && Toward(ts, c, xs, eof) && c.fs[0].eof == eof
    && (done ==> idx == |c.fs| && Finished(c.fs[idx - 1]))
    && |before| == |ends| == |c.fs| && forall k :: 0 <= k < |ends| ==> ends[k] == before[k] + if c.fs[k].eof then 1 else 0
  }

  /** Packets on the way and filters to tell of the end. */
  ghost function Work(ts: seq<Transducer>, c: Chain, xs: seq<Packet>, eof: bool): (int, int) {
    if |ts| == |c.fs| then (Missing(ts, c, xs, eof), Open(c)) else (0, 0)
  }

  /**
   Fewer packets on the way, or as many and fewer filters to tell of the end, or neither and the loop one filter
   further back.
   */
  predicate Smaller(l: (int, int), next: nat, done: bool, m: (int, int), idx: nat) {
    l.0 < m.0 || (l.0 == m.0 && (l.1 < m.1 || (l.1 == m.1 && (done || next < idx))))
  }

  lemma GoingOn(ts: seq<Transducer>, c: Chain, idx: nat, xs: seq<Packet>, eof: bool, before: seq<nat>, ends: seq<nat>,
                after: seq<nat>)
    requires Going(ts, c, idx, false, xs, eof, before, ends) && 0 < idx <= |c.fs| == |ts|
    requires after == CountEnd(ends, idx, Pass(ts, c, idx).1)
    ensures var (d, r) := Pass(ts, c, idx);
            var next, done := if r.Again? then idx - 1 else if idx < |c.fs| then idx + 1 else idx, r.Ended? && idx == |c.fs|;
            Going(ts, d, next, done, xs, eof, before, after) &&
            Work(ts, c, xs, eof).0 >= 0 && Work(ts, c, xs, eof).1 >= 0 &&
            Smaller(Work(ts, d, xs, eof), next, done, Work(ts, c, xs, eof), idx)
  {
    hide Linked, EndInOrder, IdleFrom, Toward, Missing, Open, Pass, FlagsMoved, Finished;
    PassStep(ts, c, idx, xs, eof);
    CountEnds(c, Pass(ts, c, idx).0, idx, Pass(ts, c, idx).1, before, ends, after);
  }

  /** All that a round keeps. */
  lemma PassStep(ts: seq<Transducer>, c: Chain, idx: nat, xs: seq<Packet>, ended: bool)
    requires Linked(ts, c) && EndInOrder(c) && 0 < idx && IdleFrom(c, idx) && Toward(ts, c, xs, ended)
    ensures Missing(ts, c, xs, ended) >= 0 && Open(c) >= 0
    ensures var (d, r) := Pass(ts, c, idx);
            Linked(ts, d) && EndInOrder(d) && Toward(ts, d, xs, ended) && FlagsMoved(c, d, idx, r) &&
            IdleFrom(d, if r.Again? then idx - 1 else if idx < |c.fs| then idx + 1 else idx) &&
            (r.Ended? ==> Finished(d.fs[idx - 1])) &&
            Missing(ts, d, xs, ended) == Missing(ts, c, xs, ended) - (if r.Got? then 1 else 0) &&
            Open(d) == Open(c) - (if r.Ended? && idx < |c.fs| then 1 else 0)
  {
    Sizes(ts, c, idx);
    hide Linked, EndInOrder, IdleFrom, Toward, Missing, Open, Pass, FlagsMoved, Finished;
    PassKeepsLinked(ts, c, idx);
    PassKeepsToward(ts, c, idx, xs, ended);
    PassMakesProgress(ts, c, idx, xs, ended);
    MeasuresBounded(ts, c, xs, ended);
    PassMovesFlags(ts, c, idx);
  }

  lemma Sizes(ts: seq<Transducer>, c: Chain, idx: nat)
    requires Linked(ts, c) && IdleFrom(c, idx)
    ensures idx <= |c.fs| == |ts|
  {
    hide Accounts, Proper, Idle;
  }

  lemma PassMovesFlags(ts: seq<Transducer>, c: Chain, idx: nat)
    requires Linked(ts, c) && 0 < idx && IdleFrom(c, idx)
    ensures FlagsMoved(c, Pass(ts, c, idx).0, idx, Pass(ts, c, idx).1)
  {
    Sizes(ts, c, idx);
    hide Linked, IdleFrom, Pass;
    var (d, r) := Pass(ts, c, idx);
    forall k | 0 <= k < |c.fs|
      ensures (d.fs[k].eof <==> c.fs[k].eof || (k == idx && r.Ended?)) && (k == idx ==> !c.fs[k].eof)
    {
      PassFlags(ts, c, idx, k);
    }
  }

  /** One more for filter `idx`, if the filter before it has ended. */
  ghost function CountEnd(ends: seq<nat>, idx: nat, r: Received): (e: seq<nat>)
    ensures |e| == |ends|
  {
    if r.Ended? && idx < |ends| then ends[idx := ends[idx] + 1] else ends
  }

  /** The end flags after a round that gave `r` at filter `idx - 1`. */
  ghost predicate FlagsMoved(c: Chain, d: Chain, idx: nat, r: Received) {
    |c.fs| == |d.fs| && forall k :: 0 <= k < |c.fs| ==>
      (d.fs[k].eof <==> c.fs[k].eof || (k == idx && r.Ended?)) && (k == idx ==> !c.fs[k].eof)
  }

  lemma CountEnds(c: Chain, d: Chain, idx: nat, r: Received, before: seq<nat>, ends: seq<nat>, after: seq<nat>)
    requires 0 < idx <= |c.fs| && FlagsMoved(c, d, idx, r) && |before| == |ends| == |c.fs|
    requires forall k :: 0 <= k < |ends| ==> ends[k] == before[k] + if c.fs[k].eof then 1 else 0
    requires after == CountEnd(ends, idx, r)
    ensures |after| == |c.fs| && forall k :: 0 <= k < |after| ==> after[k] == before[k] + if d.fs[k].eof then 1 else 0
    ensures d.fs[0].eof == c.fs[0].eof
  {
  }

  lemma {:induction false} AllFinished(c: Chain, n: nat)
    requires n < |c.fs| && EndInOrder(c) && Finished(c.fs[n])
    ensures forall k :: 0 <= k <= n ==> Finished(c.fs[k])
  {
    if n > 0 {
      AllFinished(c, n - 1);
    }
  }

  /** The call's own send is accepted by an idle chain. */
  lemma FirstSend(ts: seq<Transducer>, c: Chain, p: Option<Packet>, eof: bool)
    requires Linked(ts, c) && |ts| > 0 && IdleFrom(c, 0) && (p.Some? ==> !Blank(p.value)) && eof == p.None?
    ensures var d := Chain(c.fs[0 := Send(c.fs[0], p).0], c.muxed);
            Linked(ts, d) && EndInOrder(d) && IdleFrom(d, 1) && Send(c.fs[0], p).1 == Accepted &&
            Toward(ts, d, Arrived(c, 0) + (if eof then [] else [p.value]), eof)
  {
    var d := Chain(c.fs[0 := Send(c.fs[0], p).0], c.muxed);
    assert Idle(c.fs[0]);
    Stage(ts, c, 0);
    SendAccounts(ts[0], c.fs[0], p, Arrived(c, 1));
    forall k | 0 <= k < |ts| ensures Proper(ts[k]) && Accounts(ts[k], d.fs[k], Arrived(d, k + 1)) {
      Stage(ts, c, k);
    }
    assert c.fs[0].hist + [] == c.fs[0].hist;
  }
}
