/** The duplicate and drop accounting of do_video_out, over whole runs on several streams. */
module VideoAccounts {
  import opened PrefixCodes
  import opened VideoSync

  // ---------- one call

  /** Frames encoded less duplicates, plus drops, counting a frame held back as encoded. */
  function Balance(s: Stream, c: Counters): int {
    s.encoded - c.dup + c.drop + Flag(s.lastDropped)
  }

  /** A call conserves frames if the balance rises by the frame received. */
  ghost predicate Conserves(s: Stream, c: Counters, r: Result, next: Option<Frame>) {
    Balance(r.stream, r.counters) == Balance(s, c) + Flag(next.Some?)
  }

  /** The accounting rules, case by case. */
  lemma PlanBalances(s: Stream, c: Counters, d: Decision, next: Option<Frame>)
    requires d.nb >= 0 && d.nb0 <= d.nb && (next.None? ==> d.nb0 == d.nb) && d.nb0 >= 0
    ensures var dups := if Duplicates(s, d) > 0 then Duplicates(s, d) else 0;
            var drops := CountDrop(c, s, d).drop - c.drop;
            d.nb - dups + drops + Flag(d.nb == d.nb0 && next.Some?) - Flag(s.lastDropped) == Flag(next.Some?)
  {
  }

  /** Pending frames and limits as every run keeps them. */
  ghost predicate Sane(s: Stream) {
    s.frameNumber <= s.maxFrames && s.lastNb0.0 >= 0 && s.lastNb0.1 >= 0 && s.lastNb0.2 >= 0
  }

  /** Repeats are part of the frames planned, and these stay within the limit. */
  lemma PlannedRange(cfg: Config, s: Stream, next: Option<Frame>, ipts: real, duration: real)
    requires Sane(s)
    ensures var d := Planned(cfg, s, next, ipts, duration);
            0 <= d.nb0 <= d.nb <= s.maxFrames - s.frameNumber &&
            (next.None? ==> d.nb0 == d.nb && d.syncOpts == s.syncOpts)
  {
  }

  /** Whether the call stops with too many duplicates. */
  predicate Oversize(cfg: Config, s: Stream, d: Decision) {
    Duplicates(s, d) > 0 && d.nb as real > cfg.errorThreshold * 30.0
  }

  /** How many of the planned frames can be encoded: there must be a picture, and the recording must not be over. */
  function Encodable(cfg: Config, s: Stream, d: Decision, next: Option<Frame>): int {
    if next.None? && s.lastFrame.None? then 0
    else if cfg.recordEnd.None? || d.syncOpts + d.nb <= cfg.recordEnd.value then d.nb
    else if d.syncOpts <= cfg.recordEnd.value then cfg.recordEnd.value - d.syncOpts
    else 0
  }

  /** The emit loop encodes exactly as many frames. */
  lemma {:induction false} EmitsEncodable(cfg: Config, s: Stream, nb: int, nb0: int, next: Option<Frame>, i: nat)
    requires i <= nb && (next.None? ==> nb0 == nb)
    ensures |Emit(cfg, s, nb, nb0, next, i).out| == Encodable(cfg, s, Decision(nb - i, nb0, s.syncOpts), next)
    decreases nb - i
  {
    var t := s.(encoded := s.encoded + 1, syncOpts := s.syncOpts + 1, frameNumber := s.frameNumber + 1);
    if i < nb {
      EmitsEncodable(cfg, t, nb, nb0, next, i + 1);
    }
  }

  /** Frames a call leaves unaccounted for, told from its inputs; negative if it counts one too many. */
  function Lost(cfg: Config, s: Stream, next: Option<Frame>, ipts: real, duration: real): int {
    var d := Planned(cfg, s, next, ipts, duration);
    if Oversize(cfg, s, d) then Flag(next.Some?) - 1 - Flag(d.nb0 == 0 && s.lastDropped)
    else d.nb - Encodable(cfg, s, d, next)
  }

  /** The balance of any call, however it ends. */
  lemma CallBalances(cfg: Config, s: Stream, c: Counters, next: Option<Frame>, ipts: real, duration: real)
    requires Sane(s)
    ensures var r := Call(cfg, s, c, next, ipts, duration);
            Sane(r.stream) &&
            Balance(r.stream, r.counters) == Balance(s, c) + Flag(next.Some?) - Lost(cfg, s, next, ipts, duration)
  {
    hide Planned, Emit, Encodable;
    var d := Planned(cfg, s, next, ipts, duration);
    PlannedRange(cfg, s, next, ipts, duration);
    PlanBalances(s, c, d, next);
    LoopEncodes(cfg, s, d, next);
  }

  /** The emit loop as the call starts it. */
  lemma LoopEncodes(cfg: Config, s: Stream, d: Decision, next: Option<Frame>)
    requires 0 <= d.nb && (next.None? ==> d.nb0 == d.nb)
    ensures var s1 := s.(syncOpts := d.syncOpts, lastNb0 := (d.nb0, s.lastNb0.0, s.lastNb0.1),
                         lastDropped := d.nb == d.nb0 && next.Some?);
            var e := Emit(cfg, s1, d.nb, d.nb0, next, 0);
            |e.out| == Encodable(cfg, s, d, next) <= d.nb &&
            e.stream == s1.(encoded := s1.encoded + |e.out|, syncOpts := s1.syncOpts + |e.out|, frameNumber := s1.frameNumber + |e.out|) &&
            (e.ending == Complete <==> |e.out| >= d.nb)
  {
    hide Emit;
    var s1 := s.(syncOpts := d.syncOpts, lastNb0 := (d.nb0, s.lastNb0.0, s.lastNb0.1),
                 lastDropped := d.nb == d.nb0 && next.Some?);
    EmitCounts(cfg, s1, d.nb, d.nb0, next, 0);
    EmitsEncodable(cfg, s1, d.nb, d.nb0, next, 0);
  }

  /**
   Frames are conserved exactly when none is planned, or there is a picture and all of them end before the recording
   does; on the early return for too many duplicates, exactly when a frame came in and no held-back frame was counted
   as dropped on the way.
   */
  lemma ConservesIff(cfg: Config, s: Stream, c: Counters, next: Option<Frame>, ipts: real, duration: real)
    requires Sane(s)
    ensures var d := Planned(cfg, s, next, ipts, duration);
            Conserves(s, c, Call(cfg, s, c, next, ipts, duration), next) <==>
            if Oversize(cfg, s, d) then next.Some? && !(d.nb0 == 0 && s.lastDropped)
            else d.nb == 0 || ((next.Some? || s.lastFrame.Some?) &&
                               (cfg.recordEnd.None? || d.syncOpts + d.nb <= cfg.recordEnd.value))
  {
    CallBalances(cfg, s, c, next, ipts, duration);
    PlannedRange(cfg, s, next, ipts, duration);
    hide Planned, Call;
  }

  // ---------- runs over several streams

  /** A call for one of the streams. */
  datatype Event = Event(stream: nat, next: Option<Frame>, ipts: real, duration: real)

  datatype World = World(streams: seq<Stream>, counters: Counters)

  /** All calls are for streams there are. */
  predicate ForStreams(es: seq<Event>, n: nat) {
    forall i :: 0 <= i < |es| ==> es[i].stream < n
  }

  function Apply(cfg: Config, w: World, e: Event): World
    requires e.stream < |w.streams|
  {
    var r := Call(cfg, w.streams[e.stream], w.counters, e.next, e.ipts, e.duration);
    World(w.streams[e.stream := r.stream], r.counters)
  }

  function TotalEncoded(ss: seq<Stream>): int {
    if ss == [] then 0 else TotalEncoded(ss[..|ss| - 1]) + ss[|ss| - 1].encoded
  }

  /** Frames held back at the end of the run, one flag per stream. */
  function TotalHeld(ss: seq<Stream>): int {
    if ss == [] then 0 else TotalHeld(ss[..|ss| - 1]) + Flag(ss[|ss| - 1].lastDropped)
  }

  lemma {:induction false} TotalsUpdate(ss: seq<Stream>, i: nat, s: Stream)
    requires i < |ss|
    ensures TotalEncoded(ss[i := s]) == TotalEncoded(ss) - ss[i].encoded + s.encoded
    ensures TotalHeld(ss[i := s]) == TotalHeld(ss) - Flag(ss[i].lastDropped) + Flag(s.lastDropped)
  {
    var n := |ss| - 1;
    if i == n {
      assert ss[i := s][..n] == ss[..n];
    } else {
      assert ss[i := s][..n] == ss[..n][i := s];
      TotalsUpdate(ss[..n], i, s);
    }
  }

  function Received(es: seq<Event>): int {
    if es == [] then 0 else Received(es[..|es| - 1]) + Flag(es[|es| - 1].next.Some?)
  }

  /** The state after a run of calls, however each of them ends. */
  function After(cfg: Config, w: World, es: seq<Event>): (v: World)
    requires ForStreams(es, |w.streams|)
    ensures |v.streams| == |w.streams|
  {
    if es == [] then w else Apply(cfg, After(cfg, w, es[..|es| - 1]), es[|es| - 1])
  }

  /** What the calls of a run leave unaccounted for. */
  function LostInRun(cfg: Config, w: World, es: seq<Event>): int
    requires ForStreams(es, |w.streams|)
  {
    if es == [] then 0
    else
      var v, e := After(cfg, w, es[..|es| - 1]), es[|es| - 1];
      LostInRun(cfg, w, es[..|es| - 1]) + Lost(cfg, v.streams[e.stream], e.next, e.ipts, e.duration)
  }

  ghost predicate AllSane(w: World) {
    forall i :: 0 <= i < |w.streams| ==> Sane(w.streams[i])
  }

  ghost function WorldBalance(w: World): int {
    TotalEncoded(w.streams) - w.counters.dup + w.counters.drop + TotalHeld(w.streams)
  }

  /**
   Over any run of calls on any streams, flushes, cut-short loops and early returns included: encoded = received +
   duplicates - drops - held back - lost.
   */
  lemma {:induction false} RunConserves(cfg: Config, w: World, es: seq<Event>)
    requires AllSane(w) && ForStreams(es, |w.streams|)
    ensures AllSane(After(cfg, w, es))
    ensures WorldBalance(After(cfg, w, es)) == WorldBalance(w) + Received(es) - LostInRun(cfg, w, es)
  {
    if es != [] {
      var e := es[|es| - 1];
      RunConserves(cfg, w, es[..|es| - 1]);
      var v := After(cfg, w, es[..|es| - 1]);
      var s := v.streams[e.stream];
      CallBalances(cfg, s, v.counters, e.next, e.ipts, e.duration);
      TotalsUpdate(v.streams, e.stream, Call(cfg, s, v.counters, e.next, e.ipts, e.duration).stream);
      hide Call, Lost, TotalEncoded, TotalHeld;
    }
  }

  /** A call that runs its emit loop to the end loses nothing. */
  lemma CompleteLosesNothing(cfg: Config, s: Stream, c: Counters, next: Option<Frame>, ipts: real, duration: real)
    requires Sane(s) && Call(cfg, s, c, next, ipts, duration).ending == Complete
    ensures Lost(cfg, s, next, ipts, duration) == 0
  {
    var d := Planned(cfg, s, next, ipts, duration);
    PlannedRange(cfg, s, next, ipts, duration);
    LoopEncodes(cfg, s, d, next);
    hide Planned, Emit, Encodable;
  }

  /** Every call of a run runs its emit loop to the end. */
  predicate AllComplete(cfg: Config, w: World, es: seq<Event>)
    requires ForStreams(es, |w.streams|)
  {
    es == [] ||
    var v, e := After(cfg, w, es[..|es| - 1]), es[|es| - 1];
    AllComplete(cfg, w, es[..|es| - 1]) &&
    Call(cfg, v.streams[e.stream], v.counters, e.next, e.ipts, e.duration).ending == Complete
  }

  lemma {:induction false} CompleteRunLosesNothing(cfg: Config, w: World, es: seq<Event>)
    requires AllSane(w) && ForStreams(es, |w.streams|) && AllComplete(cfg, w, es)
    ensures LostInRun(cfg, w, es) == 0
  {
    if es != [] {
      var v, e := After(cfg, w, es[..|es| - 1]), es[|es| - 1];
      RunConserves(cfg, w, es[..|es| - 1]);
      CompleteRunLosesNothing(cfg, w, es[..|es| - 1]);
      CompleteLosesNothing(cfg, v.streams[e.stream], v.counters, e.next, e.ipts, e.duration);
      hide Call, Lost;
    }
  }

  /** The last report counts every frame still held back as dropped. */
  function FinalDrops(ss: seq<Stream>, c: Counters): Counters {
    if ss == [] then c
    else
      var d := FinalDrops(ss[..|ss| - 1], c);
      d.(drop := d.drop + Flag(ss[|ss| - 1].lastDropped))
  }

  lemma {:induction false} FinalDropsAddHeld(ss: seq<Stream>, c: Counters)
    ensures FinalDrops(ss, c) == c.(drop := c.drop + TotalHeld(ss))
  {
    if ss != [] {
      FinalDropsAddHeld(ss[..|ss| - 1], c);
    }
  }

  /**
   From a fresh start to the final report only lost frames are unaccounted for: encoded = received + duplicates -
   drops - lost.
   */
  lemma FinalReportBalances(cfg: Config, w: World, es: seq<Event>)
    requires AllSane(w) && ForStreams(es, |w.streams|) && w.counters == Counters(0, 0)
    requires TotalEncoded(w.streams) == 0 && TotalHeld(w.streams) == 0
    ensures var v := After(cfg, w, es);
            var c := FinalDrops(v.streams, v.counters);
            TotalEncoded(v.streams) == Received(es) + c.dup - c.drop - LostInRun(cfg, w, es)
  {
    RunConserves(cfg, w, es);
    FinalDropsAddHeld(After(cfg, w, es).streams, After(cfg, w, es).counters);
  }
}
