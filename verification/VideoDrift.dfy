/** Drift, order and place of the frames do_video_out encodes, over whole runs. */
module VideoDrift {
  import opened PrefixCodes
  import opened VideoSync

  // ---------- drift at a constant rate

  datatype Input = Input(frame: Frame, ipts: real, duration: real)

  /** End of an input frame as seen from the next output pts. */
  function Drift(s: Stream, i: Input): real {
    i.ipts + i.duration - s.syncOpts as real
  }

  /** A run of frames that meets neither the frame limit nor any early end; `pts` collects what was encoded. */
  datatype Track = Track(stream: Stream, counters: Counters, pts: seq<int>)

  function Pts(out: seq<(Frame, int)>): (p: seq<int>)
    ensures |p| == |out| && forall k :: 0 <= k < |out| ==> p[k] == out[k].1
  {
    seq(|out|, k requires 0 <= k < |out| => out[k].1)
  }

  function Follow(cfg: Config, s: Stream, c: Counters, ins: seq<Input>): Option<Track> {
    if ins == [] then Some(Track(s, c, []))
    else
      var t, i := Follow(cfg, s, c, ins[..|ins| - 1]), ins[|ins| - 1];
      if t.None? || Decide(cfg, t.value.stream, i.ipts, i.duration).nb > t.value.stream.maxFrames - t.value.stream.frameNumber then None
      else
        var r := Call(cfg, t.value.stream, t.value.counters, Some(i.frame), i.ipts, i.duration);
        if r.ending == Complete then Some(Track(r.stream, r.counters, t.value.pts + Pts(r.out))) else None
  }

  function Larger(x: real, y: real): real { if x < y then y else x }

  /**
   The rule leaves a drift between -2.1 and 0.5, or the drop threshold if that is larger, whatever it was before, as long
   as that was not below -2.1.
   */
  lemma DecideCfrDrift(threshold: real, frameNumber: int, syncOpts: int, delta0: real, delta: real)
    requires delta >= -2.1
    ensures var d := DecideCfr(threshold, frameNumber, syncOpts, delta0, delta);
            d.syncOpts == syncOpts && d.nb >= 0 &&
            -2.1 <= delta - d.nb as real <= (if frameNumber == 0 then 0.5 else Larger(0.5, threshold))
  {
  }

  /** Both methods that the transcoder calls constant-rate. */
  predicate ConstantRate(sync: Method) {
    sync in {Cfr, Vscfr}
  }

  /** Only the first frame of the variable-start method may move the next output pts. */
  predicate MayJump(cfg: Config, s: Stream) {
    cfg.sync == Vscfr && s.frameNumber == 0
  }

  /**
   One decision leaves a drift between -2.1 and 0.5, or the threshold for dropping frames if that is larger; where the
   next output pts may jump forward to the frame's own time, it leaves one between -2.1 and 1, and it jumps only if the
   frame is encoded.
   */
  lemma DecideDrift(cfg: Config, s: Stream, ipts: real, duration: real)
    requires ConstantRate(cfg.sync)
    requires ipts + duration - s.syncOpts as real >= -2.1 && (MayJump(cfg, s) ==> duration >= 0.0)
    ensures var d := Decide(cfg, s, ipts, duration);
            var after := ipts + duration - (d.syncOpts + d.nb) as real;
            d.nb >= 0 && d.syncOpts >= s.syncOpts &&
            -2.1 <= after <= (if MayJump(cfg, s) then 1.0 else Larger(0.5, cfg.dropThreshold)) &&
            (d.syncOpts > s.syncOpts ==> MayJump(cfg, s) && d.nb >= 1)
  {
    var delta := ipts + duration - s.syncOpts as real;
    var (start, length) := Clip(cfg.sync, s.syncOpts, ipts, duration);
    var delta0 := start - s.syncOpts as real;
    DecideCfrDrift(cfg.dropThreshold, s.frameNumber, s.syncOpts, delta0, delta);
    if MayJump(cfg, s) && delta0 >= 0.5 {
      DecideCfrDrift(cfg.dropThreshold, 0, Rint(start), 0.0, length);
    }
  }

  /** The stream as the emit loop finds it. */
  function Decided(s: Stream, d: Decision, next: Option<Frame>): Stream {
    s.(syncOpts := d.syncOpts, lastNb0 := (d.nb0, s.lastNb0.0, s.lastNb0.1), lastDropped := d.nb == d.nb0 && next.Some?)
  }

  /** A complete call within the limit encodes exactly the frames decided on, from the pts decided on. */
  lemma CompleteCall(cfg: Config, s: Stream, c: Counters, i: Input)
    requires Decide(cfg, s, i.ipts, i.duration).nb <= s.maxFrames - s.frameNumber
    requires Decide(cfg, s, i.ipts, i.duration).nb >= 0
    requires Call(cfg, s, c, Some(i.frame), i.ipts, i.duration).ending == Complete
    ensures var d, r := Decide(cfg, s, i.ipts, i.duration), Call(cfg, s, c, Some(i.frame), i.ipts, i.duration);
            |r.out| == d.nb && r.stream.syncOpts == d.syncOpts + d.nb && r.stream.frameNumber == s.frameNumber + d.nb &&
            forall k :: 0 <= k < |r.out| ==> r.out[k].1 == d.syncOpts + k
  {
    var d := Planned(cfg, s, Some(i.frame), i.ipts, i.duration);
    EmitCounts(cfg, Decided(s, d, Some(i.frame)), d.nb, d.nb0, Some(i.frame), 0);
    hide Decide, Emit;
  }

  ghost predicate NonDecreasingEnds(ins: seq<Input>) {
    forall i, j :: 0 <= i < j < |ins| ==> ins[i].ipts + ins[i].duration <= ins[j].ipts + ins[j].duration
  }

  ghost predicate Consecutive(pts: seq<int>, first: int) {
    forall k :: 0 <= k < |pts| ==> pts[k] == first + k
  }

  /** What a run at a constant rate starts from. */
  ghost predicate Followable(cfg: Config, s: Stream, ins: seq<Input>) {
    ConstantRate(cfg.sync) && s.frameNumber >= 0 &&
    ins != [] && NonDecreasingEnds(ins) && Drift(s, ins[0]) >= -2.1 &&
    (MayJump(cfg, s) ==> forall k :: 0 <= k < |ins| ==> ins[k].duration >= 0.0)
  }

  /** The first output pts of a run, or the next one if nothing has been encoded yet. */
  function First(s: Stream, pts: seq<int>): int {
    if pts == [] then s.syncOpts else pts[0]
  }

  /** How far ahead the input may get: half a frame or the drop threshold, or one frame right after a jump. */
  function Slack(cfg: Config, s: Stream, encodedBefore: nat): real {
    if MayJump(cfg, s) && encodedBefore == 0 then 1.0 else Larger(0.5, cfg.dropThreshold)
  }

  /** What holds after a run: `encodedBefore` frames were encoded before its last input frame. */
  ghost predicate Steady(cfg: Config, s: Stream, t: Track, last: Input, encodedBefore: nat) {
    var first := First(s, t.pts);
    Consecutive(t.pts, first) && first >= s.syncOpts && (!MayJump(cfg, s) ==> first == s.syncOpts) &&
    t.stream.syncOpts == first + |t.pts| && t.stream.frameNumber == s.frameNumber + |t.pts| &&
    -2.1 <= Drift(t.stream, last) <= Slack(cfg, s, encodedBefore)
  }

  /** One more input frame. */
  lemma SteadyStep(cfg: Config, s: Stream, t: Track, i: Input)
    requires ConstantRate(cfg.sync) && s.frameNumber >= 0 && Drift(t.stream, i) >= -2.1
    requires MayJump(cfg, s) ==> i.duration >= 0.0
    requires Consecutive(t.pts, First(s, t.pts)) && First(s, t.pts) >= s.syncOpts
    requires !MayJump(cfg, s) ==> First(s, t.pts) == s.syncOpts
    requires t.stream.syncOpts == First(s, t.pts) + |t.pts| && t.stream.frameNumber == s.frameNumber + |t.pts|
    requires Decide(cfg, t.stream, i.ipts, i.duration).nb <= t.stream.maxFrames - t.stream.frameNumber
    requires Call(cfg, t.stream, t.counters, Some(i.frame), i.ipts, i.duration).ending == Complete
    ensures var r := Call(cfg, t.stream, t.counters, Some(i.frame), i.ipts, i.duration);
            Steady(cfg, s, Track(r.stream, r.counters, t.pts + Pts(r.out)), i, |t.pts|)
  {
    hide Decide, Call;
    DecideDrift(cfg, t.stream, i.ipts, i.duration);
    CompleteCall(cfg, t.stream, t.counters, i);
    var r := Call(cfg, t.stream, t.counters, Some(i.frame), i.ipts, i.duration);
    var d, all := Decide(cfg, t.stream, i.ipts, i.duration), t.pts + Pts(r.out);
    assert First(s, all) == if t.pts == [] then d.syncOpts else t.pts[0];
  }

  /**
   Over any run at a constant rate, with or without variable start, the output pts are consecutive integers, from the
   next one on unless the first frame jumps forward, and the drift after every frame stays between -2.1 and 0.5 or the
   drop threshold, or 1 right after a jump.
   */
  lemma {:induction false} DriftStaysBounded(cfg: Config, s: Stream, c: Counters, ins: seq<Input>)
    requires Followable(cfg, s, ins) && Follow(cfg, s, c, ins).Some?
    ensures Follow(cfg, s, c, ins[..|ins| - 1]).Some?
    ensures Steady(cfg, s, Follow(cfg, s, c, ins).value, ins[|ins| - 1], |Follow(cfg, s, c, ins[..|ins| - 1]).value.pts|)
  {
    hide Decide, Call, Steady;
    var n := |ins| - 1;
    var i := ins[n];
    var before := Follow(cfg, s, c, ins[..n]).value;
    if n > 0 {
      assert Followable(cfg, s, ins[..n]);
      DriftStaysBounded(cfg, s, c, ins[..n]);
      assert ins[..n][n - 1] == ins[n - 1] && ins[n - 1].ipts + ins[n - 1].duration <= i.ipts + i.duration;
      SteadyMeans(cfg, s, before, ins[n - 1], |Follow(cfg, s, c, ins[..n][..n - 1]).value.pts|);
    } else {
      assert ins[..0] == [];
    }
    SteadyStep(cfg, s, before, i);
  }

  lemma SteadyMeans(cfg: Config, s: Stream, t: Track, last: Input, encodedBefore: nat)
    requires Steady(cfg, s, t, last, encodedBefore)
    ensures Consecutive(t.pts, First(s, t.pts)) && First(s, t.pts) >= s.syncOpts
    ensures !MayJump(cfg, s) ==> First(s, t.pts) == s.syncOpts
    ensures t.stream.syncOpts == First(s, t.pts) + |t.pts| && t.stream.frameNumber == s.frameNumber + |t.pts|
    ensures -2.1 <= Drift(t.stream, last) <= Slack(cfg, s, encodedBefore)
  {
  }

  /** So the number of frames encoded is the input time covered since the first of them, to within 2.1 frames. */
  lemma OutputTracksInput(cfg: Config, s: Stream, c: Counters, ins: seq<Input>)
    requires Followable(cfg, s, ins) && Follow(cfg, s, c, ins).Some?
    ensures var p, last := Follow(cfg, s, c, ins).value.pts, ins[|ins| - 1];
            var covered := last.ipts + last.duration - First(s, p) as real;
            covered - Larger(if MayJump(cfg, s) then 1.0 else 0.5, cfg.dropThreshold) <= |p| as real <= covered + 2.1
  {
    DriftStaysBounded(cfg, s, c, ins);
    hide Follow;
  }

  // ---------- order and place of what is encoded

  /** Only the methods that pass timestamps through let the next output pts move back. */
  lemma PlanNeverGoesBack(cfg: Config, s: Stream, next: Option<Frame>, ipts: real, duration: real)
    requires cfg.sync in {Cfr, Vscfr, Vfr}
    ensures Planned(cfg, s, next, ipts, duration).syncOpts >= s.syncOpts
  {
    if next.Some? && cfg.sync == Vfr {
      var start := Clip(cfg.sync, s.syncOpts, ipts, duration).0;
      assert ipts + duration - s.syncOpts as real > 0.6 ==> start >= s.syncOpts as real && Rint(start) >= s.syncOpts;
    }
  }

  /** The frames of a call carry consecutive pts from the one decided on, and the next pts follows them. */
  lemma CallPts(cfg: Config, s: Stream, c: Counters, next: Option<Frame>, ipts: real, duration: real)
    ensures var d, r := Planned(cfg, s, next, ipts, duration), Call(cfg, s, c, next, ipts, duration);
            r.stream.syncOpts == d.syncOpts + |r.out| && forall k :: 0 <= k < |r.out| ==> r.out[k].1 == d.syncOpts + k
  {
    var d := Planned(cfg, s, next, ipts, duration);
    EmitCounts(cfg, Decided(s, d, next), d.nb, d.nb0, next, 0);
    hide Planned, Emit;
  }

  /** A call for a given stream, or a flush. */
  datatype Visit = Visit(next: Option<Frame>, ipts: real, duration: real)

  /** The pts of all frames encoded in a run of calls, however each of them ends. */
  function PtsOfRun(cfg: Config, s: Stream, c: Counters, vs: seq<Visit>): seq<int>
    decreases |vs|
  {
    if vs == [] then []
    else
      var r := Call(cfg, s, c, vs[0].next, vs[0].ipts, vs[0].duration);
      Pts(r.out) + PtsOfRun(cfg, r.stream, r.counters, vs[1..])
  }

  ghost predicate IncreasingFrom(p: seq<int>, first: int) {
    (forall k :: 0 <= k < |p| ==> p[k] >= first) && forall j, k :: 0 <= j < k < |p| ==> p[j] < p[k]
  }

  lemma IncreasingJoined(a: seq<int>, b: seq<int>, low: int, first: int)
    requires low <= first && (forall k :: 0 <= k < |a| ==> a[k] == first + k) && IncreasingFrom(b, first + |a|)
    ensures IncreasingFrom(a + b, low)
  {
  }

  /**
   Whatever times and lengths the input frames have, and wherever a loop is cut short, output pts strictly increase.
   */
  lemma {:induction false} PtsStrictlyIncrease(cfg: Config, s: Stream, c: Counters, vs: seq<Visit>)
    requires cfg.sync in {Cfr, Vscfr, Vfr}
    ensures IncreasingFrom(PtsOfRun(cfg, s, c, vs), s.syncOpts)
    decreases |vs|
  {
    hide Planned, Call;
    if vs != [] {
      var v := vs[0];
      PlanNeverGoesBack(cfg, s, v.next, v.ipts, v.duration);
      CallPts(cfg, s, c, v.next, v.ipts, v.duration);
      var r := Call(cfg, s, c, v.next, v.ipts, v.duration);
      PtsStrictlyIncrease(cfg, r.stream, r.counters, vs[1..]);
      IncreasingJoined(Pts(r.out), PtsOfRun(cfg, r.stream, r.counters, vs[1..]), s.syncOpts,
                       Planned(cfg, s, v.next, v.ipts, v.duration).syncOpts);
    }
  }

  /** At a constant rate a frame is left out exactly if it ends too early, and else lasts as long as it should. */
  lemma ConstantRateCounts(cfg: Config, s: Stream, ipts: real, duration: real)
    requires ConstantRate(cfg.sync) && s.frameNumber >= 0 && duration >= 0.0
    ensures var d, delta := Decide(cfg, s, ipts, duration), ipts + duration - s.syncOpts as real;
            var late := delta < -1.1 || (s.frameNumber > 0 && cfg.dropThreshold != 0.0 && delta < cfg.dropThreshold);
            && (d.nb == 0 <==> late)
            && (!late && d.syncOpts == s.syncOpts ==>
                  if delta > 1.1 && !Jumps(cfg, s, ipts, duration) then -0.5 <= delta - d.nb as real <= 0.5
                  else !Jumps(cfg, s, ipts, duration) ==> d.nb == 1)
  {
  }

  /** The frame comes first, with variable start, and begins half a frame or more behind the next output pts. */
  predicate Jumps(cfg: Config, s: Stream, ipts: real, duration: real) {
    MayJump(cfg, s) && Clip(cfg.sync, s.syncOpts, ipts, duration).0 - s.syncOpts as real >= 0.5
  }

  /** Such a frame goes out at its own time, unrepeated before it; no other moves the next pts. */
  lemma FirstFrameJumps(cfg: Config, s: Stream, ipts: real, duration: real)
    requires ConstantRate(cfg.sync) && duration >= 0.0
    ensures var d := Decide(cfg, s, ipts, duration);
            if Jumps(cfg, s, ipts, duration) then
              -0.5 <= d.syncOpts as real - ipts <= 0.5 && d.nb0 == 0 && d.nb >= 1 &&
              (if duration > 1.1 then -0.5 <= d.nb as real - duration <= 0.5 else d.nb == 1)
            else d.syncOpts == s.syncOpts
  {
  }

  /** The later of a frame's own time and the next output pts. */
  function Due(s: Stream, ipts: real): real {
    if ipts > s.syncOpts as real then ipts else s.syncOpts as real
  }

  /** At a variable rate a frame is left out exactly if it ends 0.6 or more before its turn, and else goes out when due. */
  lemma VariableRatePlaces(cfg: Config, s: Stream, ipts: real, duration: real)
    requires cfg.sync == Vfr && duration >= 0.0
    ensures var d, delta := Decide(cfg, s, ipts, duration), ipts + duration - s.syncOpts as real;
            && d.nb0 == 0 && d.nb == (if delta <= -0.6 then 0 else 1)
            && (d.nb == 1 ==> -0.6 <= d.syncOpts as real - Due(s, ipts) <= 0.6)
            && (delta > 0.6 ==> -0.5 <= d.syncOpts as real - Due(s, ipts) <= 0.5)
  {
  }

  /** Passed through, every frame goes out once, at its own time. */
  lemma PassedThrough(cfg: Config, s: Stream, ipts: real, duration: real)
    requires cfg.sync in {Passthrough, DropTimestamps}
    ensures var d := Decide(cfg, s, ipts, duration);
            d.nb == 1 && d.nb0 == 0 && -0.5 <= d.syncOpts as real - ipts <= 0.5
  {
  }

  /** Without a frame limit or an end of the recording in the way. */
  predicate Unlimited(cfg: Config, s: Stream) {
    cfg.recordEnd.None? && s.maxFrames > s.frameNumber
  }

  /** So with these methods a call encodes the picture it was given, when due, or nothing. */
  lemma PictureGoesOut(cfg: Config, s: Stream, c: Counters, f: Frame, ipts: real, duration: real)
    requires cfg.sync in {Vfr, Passthrough, DropTimestamps} && Unlimited(cfg, s) && duration >= 0.0
    ensures var out := Call(cfg, s, c, Some(f), ipts, duration).out;
            if cfg.sync == Vfr && ipts + duration - s.syncOpts as real <= -0.6 then out == []
            else |out| == 1 && out[0].0 == f &&
                 (if cfg.sync == Vfr then -0.6 <= out[0].1 as real - Due(s, ipts) <= 0.6
                  else -0.5 <= out[0].1 as real - ipts <= 0.5)
  {
    var d := Decide(cfg, s, ipts, duration);
    if cfg.sync == Vfr {
      VariableRatePlaces(cfg, s, ipts, duration);
    } else {
      PassedThrough(cfg, s, ipts, duration);
    }
    hide Decide;
    assert Planned(cfg, s, Some(f), ipts, duration) == d;
    OneAtMost(cfg, s, c, f, ipts, duration, d);
  }

  lemma OneAtMost(cfg: Config, s: Stream, c: Counters, f: Frame, ipts: real, duration: real, d: Decision)
    requires Unlimited(cfg, s) && Planned(cfg, s, Some(f), ipts, duration) == d && d.nb in {0, 1} && d.nb0 == 0
    ensures Call(cfg, s, c, Some(f), ipts, duration).out == if d.nb == 0 then [] else [(f, d.syncOpts)]
  {
    hide Planned;
  }

  // ---------- what repeats show, and what a flush repeats

  /** Repeats show the picture of the call before, the other frames the new one. */
  lemma RepeatsShowPrevious(cfg: Config, s: Stream, c: Counters, f: Frame, ipts: real, duration: real, v: Visit, k: nat)
    requires Call(cfg, s, c, Some(f), ipts, duration).ending == Complete
    requires var r := Call(cfg, s, c, Some(f), ipts, duration);
             k < |Call(cfg, r.stream, r.counters, v.next, v.ipts, v.duration).out|
    ensures var r := Call(cfg, s, c, Some(f), ipts, duration);
            Some(Call(cfg, r.stream, r.counters, v.next, v.ipts, v.duration).out[k].0) ==
            if k < Planned(cfg, r.stream, v.next, v.ipts, v.duration).nb0 then Some(f) else v.next
  {
    var r := Call(cfg, s, c, Some(f), ipts, duration);
    LastIsRemembered(cfg, s, c, Some(f), ipts, duration);
    hide Planned;
    PicturesOfCall(cfg, r.stream, r.counters, v.next, v.ipts, v.duration, k);
    hide Call;
  }

  lemma LastIsRemembered(cfg: Config, s: Stream, c: Counters, next: Option<Frame>, ipts: real, duration: real)
    ensures var r := Call(cfg, s, c, next, ipts, duration);
            r.stream.lastFrame == (if r.ending == Complete then next else s.lastFrame) &&
            r.stream.lastNb0 == (Planned(cfg, s, next, ipts, duration).nb0, s.lastNb0.0, s.lastNb0.1)
  {
    var d := Planned(cfg, s, next, ipts, duration);
    EmitCounts(cfg, Decided(s, d, next), d.nb, d.nb0, next, 0);
    hide Planned, Emit;
  }

  lemma PicturesOfCall(cfg: Config, s: Stream, c: Counters, next: Option<Frame>, ipts: real, duration: real, k: nat)
    requires k < |Call(cfg, s, c, next, ipts, duration).out|
    ensures Some(Call(cfg, s, c, next, ipts, duration).out[k].0) ==
            if k < Planned(cfg, s, next, ipts, duration).nb0 && s.lastFrame.Some? then s.lastFrame else next
  {
    var d := Planned(cfg, s, next, ipts, duration);
    hide Planned, Emit;
    EmitPictures(cfg, Decided(s, d, next), d.nb, d.nb0, next, 0, k);
  }

  /** A flush after three calls repeats as many frames as the median of their repeats, within the limit. */
  lemma FlushRepeatsMedian(cfg: Config, s: Stream, c: Counters, v1: Visit, v2: Visit, v3: Visit, m: int)
    requires var s1 := Call(cfg, s, c, v1.next, v1.ipts, v1.duration);
             var s2 := Call(cfg, s1.stream, s1.counters, v2.next, v2.ipts, v2.duration);
             IsMedian(m, Planned(cfg, s, v1.next, v1.ipts, v1.duration).nb0,
                      Planned(cfg, s1.stream, v2.next, v2.ipts, v2.duration).nb0,
                      Planned(cfg, s2.stream, v3.next, v3.ipts, v3.duration).nb0)
    ensures var s1 := Call(cfg, s, c, v1.next, v1.ipts, v1.duration);
            var s2 := Call(cfg, s1.stream, s1.counters, v2.next, v2.ipts, v2.duration);
            var t := Call(cfg, s2.stream, s2.counters, v3.next, v3.ipts, v3.duration).stream;
            var n := Min(m, t.maxFrames - t.frameNumber);
            forall ipts, duration :: Planned(cfg, t, None, ipts, duration) == Decision(n, n, t.syncOpts)
  {
    var s1 := Call(cfg, s, c, v1.next, v1.ipts, v1.duration);
    var s2 := Call(cfg, s1.stream, s1.counters, v2.next, v2.ipts, v2.duration);
    LastIsRemembered(cfg, s, c, v1.next, v1.ipts, v1.duration);
    LastIsRemembered(cfg, s1.stream, s1.counters, v2.next, v2.ipts, v2.duration);
    LastIsRemembered(cfg, s2.stream, s2.counters, v3.next, v3.ipts, v3.duration);
    var t := Call(cfg, s2.stream, s2.counters, v3.next, v3.ipts, v3.duration).stream;
    hide Call, Decide, MidPred, IsMedian;
    MidPredIsMedian(m, t.lastNb0.2, t.lastNb0.1, t.lastNb0.0);
    MidPredIsMedian(MidPred(t.lastNb0.0, t.lastNb0.1, t.lastNb0.2), t.lastNb0.0, t.lastNb0.1, t.lastNb0.2);
    MedianAnyOrder(m, t.lastNb0.2, t.lastNb0.1, t.lastNb0.0);
  }

  lemma MedianAnyOrder(m: int, a: int, b: int, c: int)
    ensures IsMedian(m, a, b, c) ==> m == MidPred(c, b, a)
  {
  }

  /** A call encodes no more frames than the error threshold allows, or two, and stops exactly where it would. */
  lemma DuplicatesAreLimited(cfg: Config, s: Stream, c: Counters, next: Option<Frame>, ipts: real, duration: real)
    ensures var d, r := Planned(cfg, s, next, ipts, duration), Call(cfg, s, c, next, ipts, duration);
            (d.nb > 2 ==> (r.ending == TooManyDuplicates <==> d.nb as real > cfg.errorThreshold * 30.0)) &&
            |r.out| as real <= Larger(2.0, cfg.errorThreshold * 30.0)
  {
    var d := Planned(cfg, s, next, ipts, duration);
    EmitCounts(cfg, Decided(s, d, next), d.nb, d.nb0, next, 0);
    hide Planned, Emit;
  }

  /**
   At a constant rate, with or without variable start, a new picture is first shown at most 1.1 before its time, and
   repeats of the old one stop at least 0.1 before it.
   */
  lemma RepeatsFillTheGap(cfg: Config, s: Stream, ipts: real, duration: real)
    requires ConstantRate(cfg.sync) && duration >= 0.0
    ensures var d, start := Decide(cfg, s, ipts, duration), Clip(cfg.sync, s.syncOpts, ipts, duration).0;
            var shown := (d.syncOpts + d.nb0) as real;
            d.nb > d.nb0 ==> shown >= start - 1.1 && (d.nb0 > 0 ==> shown <= start - 0.1)
  {
  }
}
