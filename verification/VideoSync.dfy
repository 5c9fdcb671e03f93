/**
 Frame rate conversion of the transcoder: do_video_out decides how often a frame is encoded, drops or duplicates
 to follow the input clock, and keeps account. Timestamps are reals in units of the encoder's time base.
 */
module VideoSync {
  import opened PrefixCodes

  datatype Frame = Frame(id: int)

  datatype Method = Cfr | Vscfr | Vfr | Passthrough | DropTimestamps

  /**
   Options in force: the method once resolved, the drop and error thresholds, and the first pts past the recording
   time.
   */
  datatype Config = Config(sync: Method, dropThreshold: real, errorThreshold: real, recordEnd: Option<int>)

  /** Fields of an output stream. */
  datatype Stream = Stream(
    syncOpts: int, frameNumber: int, maxFrames: int, lastDropped: bool, lastNb0: (int, int, int),
    encoded: int, lastFrame: Option<Frame>)

  /** Counters shared by all streams. */
  datatype Counters = Counters(dup: int, drop: int)

  // ---------- rounding

  /** Round to nearest, halves to even. */
  function Rint(x: real): (n: int)
    ensures -0.5 <= x - n as real <= 0.5
  {
    var f := x.Floor;
    var d := x - f as real;
    if d < 0.5 then f else if d > 0.5 then f + 1 else if f % 2 == 0 then f else f + 1
  }

  function MidPred(a: int, b: int, c: int): int {
    if a > b then (if c > b then (if c > a then a else c) else b)
    else (if b > c then (if c > a then c else a) else b)
  }

  /** `m` is one of three numbers, at least two of them no larger and at least two no smaller. */
  predicate IsMedian(m: int, a: int, b: int, c: int) {
    m in {a, b, c} && Flag(a <= m) + Flag(b <= m) + Flag(c <= m) >= 2 && Flag(a >= m) + Flag(b >= m) + Flag(c >= m) >= 2
  }

  lemma MidPredIsMedian(m: int, a: int, b: int, c: int)
    ensures IsMedian(m, a, b, c) <==> m == MidPred(a, b, c)
  {
  }

  function Min(a: int, b: int): int { if a < b then a else b }

  function Flag(b: bool): int { if b then 1 else 0 }

  // ---------- length of a frame and choice of the method

  /**
   What the length of a frame is told from: the encoder's time base in seconds, the rate of the filter's output and
   the one asked for, if any, whether there is an input stream, whether it has started, whether filters were asked
   for, and the input's time base.
   */
  datatype Clock = Clock(tick: real, sinkRate: Option<real>, forcedRate: Option<real>, hasInput: bool, started: bool,
                         filtered: bool, inputTick: real)

  /** Rates and time bases are positive. */
  predicate ValidClock(k: Clock) {
    k.tick > 0.0 && k.inputTick > 0.0 && (k.sinkRate.Some? ==> k.sinkRate.value > 0.0) &&
    (k.forcedRate.Some? ==> k.forcedRate.value > 0.0)
  }

  function Ticks(rate: real, tick: real): (r: real)
    requires rate > 0.0 && tick > 0.0
    ensures r > 0.0
  {
    PositiveProduct(rate, tick);
    1.0 / (rate * tick)
  }

  /** One period of the rate takes as many ticks. */
  lemma TicksOfRate(rate: real, tick: real)
    requires rate > 0.0 && tick > 0.0
    ensures Ticks(rate, tick) * (rate * tick) == 1.0
  {
    PositiveProduct(rate, tick);
    InverseTimes(rate * tick);
  }

  lemma InverseTimes(p: real)
    requires p > 0.0
    ensures (1.0 / p) * p == 1.0
  {
  }

  lemma HigherRateIsShorter(a: real, b: real, tick: real)
    requires a > 0.0 && b > 0.0 && tick > 0.0
    ensures Ticks(a, tick) < Ticks(b, tick) <==> a > b
  {
    TicksOfRate(a, tick);
    TicksOfRate(b, tick);
    var x, y, p, q := Ticks(a, tick), Ticks(b, tick), a * tick, b * tick;
    hide Ticks;
    PositiveProduct(a, tick);
    PositiveProduct(b, tick);
    ScaleOrder(b, a, tick);
    InverseOrder(x, y, p, q);
  }

  lemma ScaleOrder(a: real, b: real, t: real)
    requires t > 0.0
    ensures a < b <==> a * t < b * t
  {
    assert (b - a) * t == b * t - a * t;
    if a < b { PositiveProduct(b - a, t); } else if a > b { PositiveProduct(a - b, t); }
  }

  lemma InverseOrder(x: real, y: real, p: real, q: real)
    requires p > 0.0 && q > 0.0 && x > 0.0 && y > 0.0 && x * p == 1.0 && y * q == 1.0
    ensures x < y <==> q < p
  {
    ScaleOrder(x, y, p);
    ScaleOrder(q, p, y);
    assert y * p == p * y && y * q == q * y;
  }

  lemma PositiveProduct(a: real, b: real)
    requires a > 0.0 && b > 0.0
    ensures a * b > 0.0
  {
  }

  function Seconds(length: int, tick: real): real {
    length as real * tick
  }

  /** Seconds in ticks. */
  function Rescaled(seconds: real, tick: real): real
    requires tick > 0.0
  {
    seconds / tick
  }

  /** A packet's length, rounded to the encoder's time base. */
  function PacketTicks(k: Clock, length: int): int
    requires ValidClock(k)
  {
    Rint(Rescaled(Seconds(length, k.inputTick), k.tick))
  }

  /** The length of a frame in the encoder's time base; `packetLength` is that of the packet it came from. */
  function FrameLength(k: Clock, packetLength: Option<int>): (r: real)
    requires ValidClock(k)
    ensures r >= 0.0
  {
    var bySink := if k.sinkRate.Some? then Ticks(k.sinkRate.value, k.tick) else 0.0;
    var byRate :=
      if k.hasInput && k.started && k.forcedRate.Some? && Ticks(k.forcedRate.value, k.tick) < bySink
      then Ticks(k.forcedRate.value, k.tick) else bySink;
    if !k.filtered && k.hasInput && packetLength.Some? && PacketTicks(k, packetLength.value) > 0
    then PacketTicks(k, packetLength.value) as real
    else byRate
  }

  /** A packet's length and its rounded form differ by at most half a tick. */
  lemma PacketTicksAreNear(k: Clock, length: int)
    requires ValidClock(k)
    ensures -0.5 * k.tick <= PacketTicks(k, length) as real * k.tick - Seconds(length, k.inputTick) <= 0.5 * k.tick
  {
    var x := Seconds(length, k.inputTick);
    hide Rint, Rescaled, Seconds;
    RoundedNear(x, k.tick, PacketTicks(k, length) as real);
  }

  function Times(x: real, y: real): real { x * y }

  lemma RoundedNear(x: real, t: real, n: real)
    requires t > 0.0 && -0.5 <= Rescaled(x, t) - n <= 0.5
    ensures -0.5 * t <= n * t - x <= 0.5 * t
  {
    QuotientTimes(x, t);
    var q := Rescaled(x, t);
    hide Rescaled;
    NearTimes(q, t, n);
    SameProducts(n, t);
    hide Times;
  }

  lemma SameProducts(n: real, t: real)
    ensures Times(n, t) == n * t
  {
  }

  lemma QuotientTimes(x: real, t: real)
    requires t > 0.0
    ensures Times(Rescaled(x, t), t) == x
  {
  }

  lemma NearTimes(q: real, t: real, n: real)
    requires t > 0.0 && -0.5 <= q - n <= 0.5
    ensures -0.5 * t <= Times(n, t) - Times(q, t) <= 0.5 * t
  {
    assert (0.5 + (q - n)) * t == 0.5 * t + q * t - n * t;
    assert (0.5 - (q - n)) * t == 0.5 * t - q * t + n * t;
    NotNegative(0.5 + (q - n), t);
    NotNegative(0.5 - (q - n), t);
  }

  lemma NotNegative(a: real, b: real)
    requires a >= 0.0 && b >= 0.0
    ensures a * b >= 0.0
  {
  }

  /** The rate a length follows: the filter's, or the one asked for if that is higher and the input has started. */
  function RateInForce(k: Clock): real
    requires k.sinkRate.Some?
  {
    if k.hasInput && k.started && k.forcedRate.Some? && k.forcedRate.value > k.sinkRate.value then k.forcedRate.value
    else k.sinkRate.value
  }

  /**
   A packet that tells its own length, to at least half a tick, decides; else the length is one period of the rate in
   force, or 0 without a rate.
   */
  lemma LengthIsPeriod(k: Clock, packetLength: Option<int>)
    requires ValidClock(k)
    ensures var r := FrameLength(k, packetLength);
            if !k.filtered && k.hasInput && packetLength.Some? && PacketTicks(k, packetLength.value) > 0 then
              -0.5 * k.tick <= r * k.tick - packetLength.value as real * k.inputTick <= 0.5 * k.tick
            else if k.sinkRate.Some? then r * (RateInForce(k) * k.tick) == 1.0
            else r == 0.0
  {
    hide PacketTicks, Ticks;
    if !k.filtered && k.hasInput && packetLength.Some? && PacketTicks(k, packetLength.value) > 0 {
      PacketTicksAreNear(k, packetLength.value);
    } else if k.sinkRate.Some? {
      TicksOfRate(RateInForce(k), k.tick);
      if k.forcedRate.Some? {
        HigherRateIsShorter(k.forcedRate.value, k.sinkRate.value, k.tick);
      }
    }
  }

  /** A length is 0 only if neither the filter's output rate nor the packet tells one. */
  lemma LengthIsKnownIff(k: Clock, packetLength: Option<int>)
    requires ValidClock(k)
    ensures FrameLength(k, packetLength) > 0.0 <==>
              k.sinkRate.Some? || (!k.filtered && k.hasInput && packetLength.Some? &&
                                   PacketTicks(k, packetLength.value) > 0)
  {
    hide PacketTicks;
  }

  /** The container's name and flags, whether the input is its file's only stream and not shifted, and copied timestamps. */
  datatype Container = Container(avi: bool, variableFps: bool, noTimestamps: bool, hasInput: bool, alone: bool, copyTs: bool)

  /** The method in force; `None` is automatic. */
  function Resolve(chosen: Option<Method>, o: Container): Method {
    if chosen.Some? then chosen.value
    else
      var byFormat := if o.avi then Vfr else if o.variableFps then (if o.noTimestamps then Passthrough else Vfr) else Cfr;
      if byFormat == Cfr && ((o.hasInput && o.alone) || o.copyTs) then Vscfr else byFormat
  }

  /**
   Automatic choice is a constant-rate method exactly for containers that need one, and then lets the start vary exactly
   for unshifted inputs that are alone in their file and for copied timestamps.
   */
  lemma AutomaticChoice(o: Container)
    ensures Resolve(None, o) in {Cfr, Vscfr} <==> !o.avi && !o.variableFps
    ensures Resolve(None, o) == Cfr <==> !o.avi && !o.variableFps && !o.copyTs && !(o.hasInput && o.alone)
    ensures Resolve(None, o) == Passthrough <==> !o.avi && o.variableFps && o.noTimestamps
    ensures Resolve(None, o) != DropTimestamps
    ensures forall m :: Resolve(Some(m), o) == m
  {
  }

  // ---------- the decision

  /** How often to encode: `nb` frames, the first `nb0` of them repeats of the previous one; and the next pts. */
  datatype Decision = Decision(nb: int, nb0: int, syncOpts: int)

  /** Start and length of a frame after clipping what lies before the next output pts. */
  function Clip(sync: Method, syncOpts: int, ipts: real, duration: real): (r: (real, real))
    ensures r.0 + r.1 == ipts + duration
  {
    var delta0 := ipts - syncOpts as real;
    if delta0 < 0.0 && delta0 + duration > 0.0 && sync != Passthrough && sync != DropTimestamps
    then (syncOpts as real, duration + delta0)
    else (ipts, duration)
  }

  /** The constant-rate rule. */
  function DecideCfr(threshold: real, frameNumber: int, syncOpts: int, delta0: real, delta: real): Decision {
    if threshold != 0.0 && delta < threshold && frameNumber != 0 then Decision(0, 0, syncOpts)
    else if delta < -1.1 then Decision(0, 0, syncOpts)
    else if delta > 1.1 then Decision(Rint(delta), if delta0 > 1.1 then Rint(delta0 - 0.6) else 0, syncOpts)
    else Decision(1, 0, syncOpts)
  }

  function Decide(cfg: Config, s: Stream, ipts: real, duration: real): Decision {
    var delta := ipts + duration - s.syncOpts as real;
    var (start, length) := Clip(cfg.sync, s.syncOpts, ipts, duration);
    var delta0 := start - s.syncOpts as real;
    match cfg.sync
    case Cfr => DecideCfr(cfg.dropThreshold, s.frameNumber, s.syncOpts, delta0, delta)
    case Vscfr =>
      if s.frameNumber == 0 && delta0 >= 0.5 then DecideCfr(cfg.dropThreshold, s.frameNumber, Rint(start), 0.0, length)
      else DecideCfr(cfg.dropThreshold, s.frameNumber, s.syncOpts, delta0, delta)
    case Vfr =>
      if delta <= -0.6 then Decision(0, 0, s.syncOpts)
      else if delta > 0.6 then Decision(1, 0, Rint(start))
      else Decision(1, 0, s.syncOpts)
    case _ => Decision(1, 0, Rint(start))
  }

  // ---------- one call

  datatype Ending = Complete | TooManyDuplicates | NoPicture | PastRecordingTime

  /** The emit loop from round `i` on; `out` collects frames with their pts. */
  datatype Emission = Emission(stream: Stream, out: seq<(Frame, int)>, ending: Ending)

  function Emit(cfg: Config, s: Stream, nb: int, nb0: int, next: Option<Frame>, i: nat): (e: Emission)
    ensures e.ending != TooManyDuplicates
    decreases nb - i
  {
    if i >= nb then Emission(s, [], Complete)
    else
      var picture := if i < nb0 && s.lastFrame.Some? then s.lastFrame else next;
      if picture.None? then Emission(s, [], NoPicture)
      else if cfg.recordEnd.Some? && s.syncOpts >= cfg.recordEnd.value then Emission(s, [], PastRecordingTime)
      else
        var t := s.(encoded := s.encoded + 1, syncOpts := s.syncOpts + 1, frameNumber := s.frameNumber + 1);
        var e := Emit(cfg, t, nb, nb0, next, i + 1);
        Emission(e.stream, [(picture.value, s.syncOpts)] + e.out, e.ending)
  }

  /** What the frame limit leaves of a decision. */
  function Limit(s: Stream, d: Decision): Decision {
    var nb := Min(d.nb, s.maxFrames - s.frameNumber);
    Decision(nb, Min(d.nb0, nb), d.syncOpts)
  }

  function Planned(cfg: Config, s: Stream, next: Option<Frame>, ipts: real, duration: real): Decision {
    if next.None? then
      var n := MidPred(s.lastNb0.0, s.lastNb0.1, s.lastNb0.2);
      Limit(s, Decision(n, n, s.syncOpts))
    else Limit(s, Decide(cfg, s, ipts, duration))
  }

  /** Frames of a call that are neither the new picture nor a belated previous one. */
  function Duplicates(s: Stream, d: Decision): int {
    d.nb - Flag(d.nb0 != 0 && s.lastDropped) - Flag(d.nb > d.nb0)
  }

  function CountDrop(c: Counters, s: Stream, d: Decision): Counters {
    if d.nb0 == 0 && s.lastDropped then c.(drop := c.drop + 1) else c
  }

  datatype Result = Result(stream: Stream, counters: Counters, out: seq<(Frame, int)>, ending: Ending)

  /** do_video_out on values. */
  function Call(cfg: Config, s: Stream, c: Counters, next: Option<Frame>, ipts: real, duration: real): Result {
    var d := Planned(cfg, s, next, ipts, duration);
    var s1 := s.(syncOpts := d.syncOpts, lastNb0 := (d.nb0, s.lastNb0.0, s.lastNb0.1));
    var c1 := CountDrop(c, s, d);
    if Duplicates(s, d) > 0 && d.nb as real > cfg.errorThreshold * 30.0 then
      Result(s1, c1.(drop := c1.drop + 1), [], TooManyDuplicates)
    else
      var c2 := if Duplicates(s, d) > 0 then c1.(dup := c1.dup + Duplicates(s, d)) else c1;
      var e := Emit(cfg, s1.(lastDropped := d.nb == d.nb0 && next.Some?), d.nb, d.nb0, next, 0);
      Result(if e.ending == Complete then e.stream.(lastFrame := next) else e.stream, c2, e.out, e.ending)
  }

  // ---------- what the emit loop does

  /** As many consecutive pts as frames; the limit counter, the encoder count and the pts advance together. */
  lemma {:induction false} EmitCounts(cfg: Config, s: Stream, nb: int, nb0: int, next: Option<Frame>, i: nat)
    ensures var e := Emit(cfg, s, nb, nb0, next, i);
            e.stream == s.(encoded := s.encoded + |e.out|, syncOpts := s.syncOpts + |e.out|, frameNumber := s.frameNumber + |e.out|) &&
            (forall k :: 0 <= k < |e.out| ==> e.out[k].1 == s.syncOpts + k) &&
            (if i <= nb then |e.out| <= nb - i else e.out == []) &&
            (e.ending == Complete <==> i + |e.out| >= nb)
    decreases nb - i
  {
    if i < nb {
      var picture := if i < nb0 && s.lastFrame.Some? then s.lastFrame else next;
      if picture.Some? && !(cfg.recordEnd.Some? && s.syncOpts >= cfg.recordEnd.value) {
        var t := s.(encoded := s.encoded + 1, syncOpts := s.syncOpts + 1, frameNumber := s.frameNumber + 1);
        EmitCounts(cfg, t, nb, nb0, next, i + 1);
      }
    }
  }

  /** The first `nb0` pictures repeat the previous frame if there is one, the others show the new one. */
  lemma {:induction false} EmitPictures(cfg: Config, s: Stream, nb: int, nb0: int, next: Option<Frame>, i: nat, k: nat)
    requires k < |Emit(cfg, s, nb, nb0, next, i).out|
    ensures Some(Emit(cfg, s, nb, nb0, next, i).out[k].0) == if i + k < nb0 && s.lastFrame.Some? then s.lastFrame else next
    decreases nb - i
  {
    var t := s.(encoded := s.encoded + 1, syncOpts := s.syncOpts + 1, frameNumber := s.frameNumber + 1);
    if k > 0 {
      EmitPictures(cfg, t, nb, nb0, next, i + 1, k - 1);
    }
  }

  // ---------- one turn of the emit loop, seen from the function

  function Prepend(out: seq<(Frame, int)>, e: Emission): Emission {
    e.(out := out + e.out)
  }

  lemma EmitTurn(cfg: Config, s: Stream, nb: int, nb0: int, next: Option<Frame>, i: nat, out: seq<(Frame, int)>)
    ensures var picture := if i < nb0 && s.lastFrame.Some? then s.lastFrame else next;
            Prepend(out, Emit(cfg, s, nb, nb0, next, i)) ==
            if i >= nb then Emission(s, out, Complete)
            else if picture.None? then Emission(s, out, NoPicture)
            else if cfg.recordEnd.Some? && s.syncOpts >= cfg.recordEnd.value then Emission(s, out, PastRecordingTime)
            else Prepend(out + [(picture.value, s.syncOpts)],
                         Emit(cfg, s.(encoded := s.encoded + 1, syncOpts := s.syncOpts + 1, frameNumber := s.frameNumber + 1), nb, nb0,
                              next, i + 1))
  {
    var e := Emit(cfg, s, nb, nb0, next, i);
    if e.out == [] {
      assert out + [] == out;
    } else {
      assert out + e.out == (out + [e.out[0]]) + e.out[1..];
    }
  }

  // ---------- the method

  class SharedCounters {
    var dup: int
    var drop: int
  }

  class OutputStream {
    var syncOpts: int
    var frameNumber: int
    var maxFrames: int
    var lastDropped: bool
    var lastNb0: array<int>
    var framesEncoded: int
    var lastFrame: Option<Frame>

    ghost predicate Valid()
      reads this
    {
      lastNb0.Length == 3
    }

    ghost function View(): Stream
      requires Valid()
      reads this, lastNb0
    {
      Stream(syncOpts, frameNumber, maxFrames, lastDropped, (lastNb0[0], lastNb0[1], lastNb0[2]), framesEncoded, lastFrame)
    }

    /** The emit loop. */
    method EmitFrames(cfg: Config, nb: int, nb0: int, next: Option<Frame>) returns (out: seq<(Frame, int)>,
                      ending: Ending)
      requires Valid()
      modifies this`syncOpts, this`frameNumber, this`framesEncoded
      ensures Emission(View(), out, ending) == Emit(cfg, old(View()), nb, nb0, next, 0)
    {
      hide Emit;
      out := [];
      var i := 0;
      assert [] + Emit(cfg, View(), nb, nb0, next, 0).out == Emit(cfg, View(), nb, nb0, next, 0).out;
      while i < nb
        invariant 0 <= i
        invariant Prepend(out, Emit(cfg, View(), nb, nb0, next, i)) == Emit(cfg, old(View()), nb, nb0, next, 0)
      {
        EmitTurn(cfg, View(), nb, nb0, next, i, out);
        var picture := if i < nb0 && lastFrame.Some? then lastFrame else next;
        if picture.None? {
          ending := NoPicture;
          return;
        }
        if cfg.recordEnd.Some? && syncOpts >= cfg.recordEnd.value {
          ending := PastRecordingTime;
          return;
        }
        out := out + [(picture.value, syncOpts)];
        framesEncoded := framesEncoded + 1;
        syncOpts := syncOpts + 1;
        frameNumber := frameNumber + 1;
        i := i + 1;
      }
      EmitTurn(cfg, View(), nb, nb0, next, i, out);
      ending := Complete;
    }

    /** The first half of do_video_out: the length of the frame. */
    method ComputeLength(k: Clock, packetLength: Option<int>) returns (duration: real)
      requires ValidClock(k)
      ensures duration == FrameLength(k, packetLength)
    {
      hide PacketTicks, Ticks;
      duration := 0.0;
      if k.sinkRate.Some? {
        duration := Ticks(k.sinkRate.value, k.tick);
      }
      if k.hasInput && k.started && k.forcedRate.Some? {
        var forced := Ticks(k.forcedRate.value, k.tick);
        if forced < duration {
          duration := forced;
        }
      }
      if !k.filtered && packetLength.Some? && k.hasInput {
        var rounded := PacketTicks(k, packetLength.value);
        if rounded > 0 {
          duration := rounded as real;
        }
      }
    }

    /** The choice of a method. */
    method ChooseSync(chosen: Option<Method>, o: Container) returns (sync: Method)
      ensures sync == Resolve(chosen, o)
    {
      if chosen.Some? {
        return chosen.value;
      }
      if o.avi {
        sync := Vfr;
      } else {
        sync := if o.variableFps then (if o.noTimestamps then Passthrough else Vfr) else Cfr;
      }
      if o.hasInput && sync == Cfr && o.alone {
        sync := Vscfr;
      }
      if sync == Cfr && o.copyTs {
        sync := Vscfr;
      }
    }

    /** The switch over the methods; the variable start falls through to the constant rate. */
    method DecideInPlace(cfg: Config, ipts: real, length: real) returns (nb: int, nb0: int)
      requires Valid()
      modifies this`syncOpts
      ensures Decision(nb, nb0, syncOpts) == Decide(cfg, old(View()), ipts, length)
      ensures View() == old(View()).(syncOpts := syncOpts)
    {
      hide Rint;
      var start, duration := ipts, length;
      var delta0 := start - syncOpts as real;
      var delta := delta0 + duration;
      nb0, nb := 0, 1;
      if delta0 < 0.0 && delta > 0.0 && cfg.sync != Passthrough && cfg.sync != DropTimestamps {
        start := syncOpts as real;
        duration := duration + delta0;
        delta0 := 0.0;
      }
      if cfg.sync == Vscfr && frameNumber == 0 && delta0 >= 0.5 {
        delta := duration;
        delta0 := 0.0;
        syncOpts := Rint(start);
      }
      match cfg.sync
      case Vscfr | Cfr =>
        if cfg.dropThreshold != 0.0 && delta < cfg.dropThreshold && frameNumber != 0 {
          nb := 0;
        } else if delta < -1.1 {
          nb := 0;
        } else if delta > 1.1 {
          nb := Rint(delta);
          if delta0 > 1.1 {
            nb0 := Rint(delta0 - 0.6);
          }
        }
      case Vfr =>
        if delta <= -0.6 {
          nb := 0;
        } else if delta > 0.6 {
          syncOpts := Rint(start);
        }
      case _ =>
        syncOpts := Rint(start);
    }

    /** How many frames, within the limit; the decision is remembered for the flush. */
    method PlanFrames(cfg: Config, next: Option<Frame>, ipts: real, duration: real) returns (nb: int, nb0: int)
      requires Valid()
      modifies this`syncOpts, lastNb0
      ensures var s, d := old(View()), Planned(cfg, old(View()), next, ipts, duration);
              nb == d.nb && nb0 == d.nb0 &&
              View() == s.(syncOpts := d.syncOpts, lastNb0 := (d.nb0, s.lastNb0.0, s.lastNb0.1))
    {
      hide Decide, MidPred;
      if next.None? {
        nb := MidPred(lastNb0[0], lastNb0[1], lastNb0[2]);
        nb0 := nb;
      } else {
        nb, nb0 := DecideInPlace(cfg, ipts, duration);
      }
      nb := Min(nb, maxFrames - frameNumber);
      nb0 := Min(nb0, nb);
      lastNb0[2] := lastNb0[1];
      lastNb0[1] := lastNb0[0];
      lastNb0[0] := nb0;
    }

    /** From the decision on; the encoder is represented by the pictures and pts it is given. */
    method Convert(cfg: Config, shared: SharedCounters, next: Option<Frame>, ipts: real, duration: real)
      returns (out: seq<(Frame, int)>, ending: Ending)
      requires Valid()
      modifies this, lastNb0, shared
      ensures Valid() && lastNb0 == old(lastNb0)
      ensures Result(View(), Counters(shared.dup, shared.drop), out, ending)
           == Call(cfg, old(View()), old(Counters(shared.dup, shared.drop)), next, ipts, duration)
    {
      hide Planned, Emit;
      var nb, nb0 := PlanFrames(cfg, next, ipts, duration);
      if nb0 == 0 && lastDropped {
        shared.drop := shared.drop + 1;
      }
      var dups := nb - Flag(nb0 != 0 && lastDropped) - Flag(nb > nb0);
      if dups > 0 {
        if nb as real > cfg.errorThreshold * 30.0 {
          shared.drop := shared.drop + 1;
          return [], TooManyDuplicates;
        }
        shared.dup := shared.dup + dups;
      }
      lastDropped := nb == nb0 && next.Some?;
      out, ending := EmitFrames(cfg, nb, nb0, next);
      if ending == Complete {
        lastFrame := next;
      }
    }

    /** do_video_out. */
    method DoVideoOut(chosen: Option<Method>, o: Container, k: Clock, cfg: Config, shared: SharedCounters,
                      next: Option<Frame>, packetLength: int, ipts: real)
      returns (out: seq<(Frame, int)>, ending: Ending)
      requires Valid() && ValidClock(k)
      modifies this, lastNb0, shared
      ensures Valid() && lastNb0 == old(lastNb0)
      ensures Result(View(), Counters(shared.dup, shared.drop), out, ending)
           == Call(cfg.(sync := Resolve(chosen, o)), old(View()), old(Counters(shared.dup, shared.drop)), next, ipts,
                   FrameLength(k, if next.Some? then Some(packetLength) else None))
    {
      hide Call, FrameLength, Resolve;
      var duration := ComputeLength(k, if next.Some? then Some(packetLength) else None);
      var sync := ChooseSync(chosen, o);
      out, ending := Convert(cfg.(sync := sync), shared, next, ipts, duration);
    }
  }
}
