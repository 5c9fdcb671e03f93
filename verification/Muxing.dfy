/**
 write_packet and the flush of check_init_output_file: packets of a stream are counted, queued until the header
 is written, and have their timestamps repaired on the way to the muxer.
 */
module Muxing {
  import opened PrefixCodes

  const NOPTS: int := -0x8000_0000_0000_0000

  datatype Kind = Video | Audio | Subtitle | Data

  /** A packet whose timestamps are already in the stream's time base. */
  datatype Packet = Packet(id: int, pts: int, dts: int)

  /**
   Of the stream: its kind, whether it is encoded here, whether it is copied VP9, frame limit and queue limit in
   packets.
   */
  datatype StreamConfig = StreamConfig(kind: Kind, encoding: bool, copiedVp9: bool, maxFrames: int, maxQueue: nat)

  /** Of the run and the muxer: sync methods that strip timestamps, muxer flags, and whether errors end the program. */
  datatype Format = Format(dropVideoTs: bool, dropAudioTs: bool, noTimestamps: bool, nonStrict: bool, exitOnError: bool)

  // ---------- timestamp repair

  function Min3(a: int, b: int, c: int): int {
    if a <= b && a <= c then a else if b <= c then b else c
  }

  function Max3(a: int, b: int, c: int): int {
    if a >= b && a >= c then a else if b >= c then b else c
  }

  /** The guess that replaces crossed timestamps. */
  function Guess(pts: int, dts: int, last: int): int {
    pts + dts + (last + 1) - Min3(pts, dts, last + 1) - Max3(pts, dts, last + 1)
  }

  /** The expression is the median of the two timestamps and the first one still free. */
  lemma GuessIsMedian(pts: int, dts: int, last: int)
    ensures var m, f := Guess(pts, dts, last), last + 1;
            m in {pts, dts, f} && Min3(pts, dts, f) <= m <= Max3(pts, dts, f) &&
            multiset{Min3(pts, dts, f), m, Max3(pts, dts, f)} == multiset{pts, dts, f}
  {
  }

  /** Streams whose decoding times the transcoder keeps in order. */
  predicate Guarded(cfg: StreamConfig, fmt: Format) {
    cfg.kind != Data && !cfg.copiedVp9 && !fmt.noTimestamps
  }

  predicate Stripped(cfg: StreamConfig, fmt: Format) {
    (cfg.kind == Video && fmt.dropVideoTs) || (cfg.kind == Audio && fmt.dropAudioTs)
  }

  /** First: no decoding time after its presentation time. */
  function Uncross(fmt: Format, p: Packet, last: int): Packet {
    if !fmt.noTimestamps && p.dts != NOPTS && p.pts != NOPTS && p.dts > p.pts then
      var g := Guess(p.pts, p.dts, last);
      p.(pts := g, dts := g)
    else p
  }

  /** The least decoding time allowed after `last`. */
  function Floor(fmt: Format, last: int): int {
    last + if fmt.nonStrict then 0 else 1
  }

  function Behind(cfg: StreamConfig, fmt: Format, p: Packet, last: int): bool {
    Guarded(cfg, fmt) && p.dts != NOPTS && last != NOPTS && p.dts < Floor(fmt, last)
  }

  /** Then: no decoding time before its predecessor's. */
  function Raise(p: Packet, floor: int): Packet {
    Packet(p.id, if p.pts >= p.dts && floor > p.pts then floor else p.pts, floor)
  }

  /** The whole repair; none if the program ends over it. */
  function Repair(cfg: StreamConfig, fmt: Format, q: Packet, last: int): Option<Packet> {
    var p := Uncross(fmt, if Stripped(cfg, fmt) then q.(pts := NOPTS, dts := NOPTS) else q, last);
    if !Behind(cfg, fmt, p, last) then Some(p)
    else if fmt.exitOnError then None
    else Some(Raise(p, Floor(fmt, last)))
  }

  /** Timestamps are integers with one least value that stands for none. */
  ghost predicate Stamp(t: int) {
    NOPTS <= t
  }

  ghost predicate Stamped(p: Packet) {
    Stamp(p.pts) && Stamp(p.dts)
  }

  /** A repaired packet is after its predecessor, not presented before it is decoded, and still the same packet. */
  lemma RepairOrders(cfg: StreamConfig, fmt: Format, q: Packet, last: int)
    requires cfg.kind in {Video, Audio, Subtitle} && !cfg.copiedVp9 && !fmt.noTimestamps
    requires !(cfg.kind == Video && fmt.dropVideoTs) && !(cfg.kind == Audio && fmt.dropAudioTs)
    requires Stamped(q) && Stamp(last) && q.dts != NOPTS
    requires Repair(cfg, fmt, q, last).Some?
    ensures var p := Repair(cfg, fmt, q, last).value;
            p.id == q.id && p.dts > NOPTS && (p.pts == NOPTS <==> q.pts == NOPTS) &&
            (last != NOPTS ==> p.dts >= Floor(fmt, last)) &&
            (p.pts != NOPTS ==> p.pts >= p.dts)
  {
  }

  /** Exactly the packets already in order pass unchanged. */
  lemma UnchangedIffInOrder(cfg: StreamConfig, fmt: Format, q: Packet, last: int)
    requires cfg.kind in {Video, Audio, Subtitle} && !cfg.copiedVp9 && !fmt.noTimestamps
    requires !(cfg.kind == Video && fmt.dropVideoTs) && !(cfg.kind == Audio && fmt.dropAudioTs)
    requires Stamped(q) && Stamp(last) && q.dts != NOPTS
    ensures Repair(cfg, fmt, q, last) == Some(q) <==>
              (q.pts == NOPTS || q.dts <= q.pts) && (last == NOPTS || q.dts >= Floor(fmt, last))
  {
  }

  /** Crossed timestamps both become the median of the two and the next free one, raised to that if it lies below it. */
  lemma CrossedBecomeMedian(cfg: StreamConfig, fmt: Format, q: Packet, last: int)
    requires cfg.kind in {Video, Audio, Subtitle} && !cfg.copiedVp9 && !fmt.noTimestamps
    requires !(cfg.kind == Video && fmt.dropVideoTs) && !(cfg.kind == Audio && fmt.dropAudioTs)
    requires Stamped(q) && Stamp(last)
    requires NOPTS < q.pts < q.dts && Repair(cfg, fmt, q, last).Some?
    ensures var p, g := Repair(cfg, fmt, q, last).value, Guess(q.pts, q.dts, last);
            p.pts == p.dts == (if last != NOPTS && g < Floor(fmt, last) then Floor(fmt, last) else g) &&
            q.pts <= g <= q.dts
  {
  }

  /** A packet in time but behind its predecessor ends the program, or goes out at the first time still free. */
  lemma LateIsRaised(cfg: StreamConfig, fmt: Format, q: Packet, last: int)
    requires cfg.kind in {Video, Audio, Subtitle} && !cfg.copiedVp9 && !fmt.noTimestamps
    requires !(cfg.kind == Video && fmt.dropVideoTs) && !(cfg.kind == Audio && fmt.dropAudioTs)
    requires Stamped(q) && q.dts != NOPTS && (q.pts == NOPTS || q.dts <= q.pts) && last != NOPTS
    requires q.dts < last || (q.dts == last && !fmt.nonStrict)
    ensures var free := if fmt.nonStrict then last else last + 1;
            Repair(cfg, fmt, q, last) ==
            if fmt.exitOnError then None
            else Some(Packet(q.id, if q.pts == NOPTS || q.pts >= free then q.pts else free, free))
  {
  }

  /** Only a packet behind its predecessor ends the program, and only if errors are to. */
  lemma AbortsIff(cfg: StreamConfig, fmt: Format, q: Packet, last: int)
    requires cfg.kind in {Video, Audio, Subtitle} && !cfg.copiedVp9 && !fmt.noTimestamps
    requires !(cfg.kind == Video && fmt.dropVideoTs) && !(cfg.kind == Audio && fmt.dropAudioTs)
    requires Stamped(q)
    ensures Repair(cfg, fmt, q, last) == None <==>
              fmt.exitOnError && q.dts != NOPTS && last != NOPTS && (q.dts < last || (q.dts == last && !fmt.nonStrict))
  {
  }

  /** All other packets: no timestamps if the method strips them; none changed that the muxer does not want ... */
  lemma StrippedOrUnwanted(cfg: StreamConfig, fmt: Format, q: Packet, last: int)
    ensures (cfg.kind == Video && fmt.dropVideoTs) || (cfg.kind == Audio && fmt.dropAudioTs) ==>
              Repair(cfg, fmt, q, last) == Some(Packet(q.id, NOPTS, NOPTS))
    ensures fmt.noTimestamps && !(cfg.kind == Video && fmt.dropVideoTs) && !(cfg.kind == Audio && fmt.dropAudioTs) ==>
              Repair(cfg, fmt, q, last) == Some(q)
  {
  }

  /** ... and of data and copied VP9 only crossed ones are changed, to their median with the first one free. */
  lemma UnguardedOnlyUncrosses(cfg: StreamConfig, fmt: Format, q: Packet, last: int)
    requires (cfg.kind == Data || cfg.copiedVp9) && !fmt.noTimestamps
    requires !(cfg.kind == Video && fmt.dropVideoTs) && !(cfg.kind == Audio && fmt.dropAudioTs)
    ensures Repair(cfg, fmt, q, last) ==
            if q.pts != NOPTS && q.dts != NOPTS && q.pts < q.dts then
              Some(Packet(q.id, Guess(q.pts, q.dts, last), Guess(q.pts, q.dts, last)))
            else Some(q)
  {
  }

  /** The packets that go to the muxer one after the other, from a given last decoding time. */
  function RepairAll(cfg: StreamConfig, fmt: Format, qs: seq<Packet>, last: int): (r: Option<seq<Packet>>)
    ensures r.Some? ==> |r.value| == |qs|
    decreases |qs|
  {
    if qs == [] then Some([])
    else
      match Repair(cfg, fmt, qs[0], last)
      case None => None
      case Some(p) =>
        match RepairAll(cfg, fmt, qs[1..], p.dts)
        case None => None
        case Some(ps) => Some([p] + ps)
  }

  /**
   Over any run of packets carrying decoding times, these strictly increase, or never decrease for a lenient muxer.
   */
  lemma {:induction false} RunIsOrdered(cfg: StreamConfig, fmt: Format, qs: seq<Packet>, last: int)
    requires cfg.kind in {Video, Audio, Subtitle} && !cfg.copiedVp9 && !fmt.noTimestamps
    requires !(cfg.kind == Video && fmt.dropVideoTs) && !(cfg.kind == Audio && fmt.dropAudioTs)
    requires Stamp(last)
    requires forall i :: 0 <= i < |qs| ==> Stamped(qs[i]) && qs[i].dts != NOPTS
    requires RepairAll(cfg, fmt, qs, last).Some?
    ensures var ps := RepairAll(cfg, fmt, qs, last).value;
            (forall i, j :: 0 <= i < j < |ps| ==> if fmt.nonStrict then ps[i].dts <= ps[j].dts else ps[i].dts < ps[j].dts) &&
            (forall i :: 0 <= i < |ps| ==> ps[i].id == qs[i].id && (ps[i].pts != NOPTS ==> ps[i].pts >= ps[i].dts)) &&
            (forall i :: 0 <= i < |ps| && last != NOPTS ==> if fmt.nonStrict then last <= ps[i].dts else last < ps[i].dts)
    decreases |qs|
  {
    if qs != [] {
      RepairOrders(cfg, fmt, qs[0], last);
      var p := Repair(cfg, fmt, qs[0], last).value;
      var rest := RepairAll(cfg, fmt, qs[1..], p.dts).value;
      RunIsOrdered(cfg, fmt, qs[1..], p.dts);
      hide Repair;
      OrderedBehind(fmt, qs, p, rest, last);
    }
  }

  /** A packet in order with the last decoding time, in front of packets in order with its own. */
  lemma OrderedBehind(fmt: Format, qs: seq<Packet>, p: Packet, rest: seq<Packet>, last: int)
    requires qs != [] && |rest| == |qs| - 1 && p.dts != NOPTS
    requires p.id == qs[0].id && (p.pts != NOPTS ==> p.pts >= p.dts) && (last != NOPTS ==> p.dts >= Floor(fmt, last))
    requires forall i, j :: 0 <= i < j < |rest| ==>
               if fmt.nonStrict then rest[i].dts <= rest[j].dts else rest[i].dts < rest[j].dts
    requires forall i :: 0 <= i < |rest| ==>
               rest[i].id == qs[1..][i].id && (rest[i].pts != NOPTS ==> rest[i].pts >= rest[i].dts)
    requires forall i :: 0 <= i < |rest| ==> if fmt.nonStrict then p.dts <= rest[i].dts else p.dts < rest[i].dts
    ensures var ps := [p] + rest;
            (forall i, j :: 0 <= i < j < |ps| ==> if fmt.nonStrict then ps[i].dts <= ps[j].dts else ps[i].dts < ps[j].dts) &&
            (forall i :: 0 <= i < |ps| ==> ps[i].id == qs[i].id && (ps[i].pts != NOPTS ==> ps[i].pts >= ps[i].dts)) &&
            (forall i :: 0 <= i < |ps| && last != NOPTS ==> if fmt.nonStrict then last <= ps[i].dts else last < ps[i].dts)
  {
    var ps := [p] + rest;
    assert forall i :: 0 < i < |ps| ==> ps[i] == rest[i - 1] && qs[i] == qs[1..][i - 1];
  }

  /** Nothing ends the program if errors are not to. */
  lemma {:induction false} NothingAborts(cfg: StreamConfig, fmt: Format, qs: seq<Packet>, last: int)
    requires !fmt.exitOnError
    ensures RepairAll(cfg, fmt, qs, last).Some?
    decreases |qs|
  {
    if qs != [] {
      NothingAborts(cfg, fmt, qs[1..], Repair(cfg, fmt, qs[0], last).value.dts);
    }
  }

  /** Runs that a muxer without timestamps, or of data and copied VP9, sees as they are. */
  lemma {:induction false} UnguardedRunPasses(cfg: StreamConfig, fmt: Format, qs: seq<Packet>, last: int)
    requires cfg.kind == Data || cfg.copiedVp9 || fmt.noTimestamps
    requires !(cfg.kind == Video && fmt.dropVideoTs) && !(cfg.kind == Audio && fmt.dropAudioTs)
    requires fmt.noTimestamps || forall q :: q in qs ==> q.pts == NOPTS || q.dts == NOPTS || q.dts <= q.pts
    ensures RepairAll(cfg, fmt, qs, last) == Some(qs)
    decreases |qs|
  {
    if qs != [] {
      UnguardedRunPasses(cfg, fmt, qs[1..], qs[0].dts);
      assert qs == [qs[0]] + qs[1..];
    }
  }

  // ---------- the queue that holds packets until the header is written

  const FIFO: nat := 8 // packets a new queue has room for

  /** What write_packet keeps of a stream; `muxed` is what the muxer has been handed. */
  datatype StreamState = StreamState(frameNumber: int, queue: seq<Packet>, capacity: nat, lastMuxDts: int, muxed: seq<Packet>)

  datatype Status = Dropped | Queued | Written | QueueFull | Aborted

  const Fresh: StreamState := StreamState(0, [], FIFO, NOPTS, [])

  /** Encoded video is counted where it is encoded, everything else here. */
  predicate Counted(cfg: StreamConfig) {
    !(cfg.kind == Video && cfg.encoding)
  }

  function Count(cfg: StreamConfig, s: StreamState, unqueue: bool): StreamState {
    if Counted(cfg) && !unqueue then s.(frameNumber := s.frameNumber + 1) else s
  }

  /** The size a full queue grows to. */
  function Grown(cfg: StreamConfig, s: StreamState): nat {
    if 2 * |s.queue| <= cfg.maxQueue then 2 * |s.queue| else cfg.maxQueue
  }

  function Enqueue(cfg: StreamConfig, s: StreamState, p: Packet): (StreamState, Status) {
    if |s.queue| < s.capacity then (s.(queue := s.queue + [p]), Queued)
    else if Grown(cfg, s) <= |s.queue| then (s, QueueFull)
    else (s.(capacity := Grown(cfg, s), queue := s.queue + [p]), Queued)
  }

  function Mux(cfg: StreamConfig, fmt: Format, s: StreamState, p: Packet): (StreamState, Status) {
    match Repair(cfg, fmt, p, s.lastMuxDts)
    case None => (s, Aborted)
    case Some(q) => (s.(lastMuxDts := q.dts, muxed := s.muxed + [q]), Written)
  }

  predicate OverLimit(cfg: StreamConfig, s: StreamState, unqueue: bool) {
    Counted(cfg) && !unqueue && s.frameNumber >= cfg.maxFrames
  }

  /** One call of write_packet. */
  function Write(cfg: StreamConfig, fmt: Format, header: bool, s: StreamState, p: Packet,
                 unqueue: bool): (StreamState, Status) {
    if OverLimit(cfg, s, unqueue) then (s, Dropped)
    else if !header then Enqueue(cfg, Count(cfg, s, unqueue), p)
    else Mux(cfg, fmt, Count(cfg, s, unqueue), p)
  }

  /** The flush of one stream's queue once the header is written; none if the program ends over it. */
  function Flush(cfg: StreamConfig, fmt: Format, s: StreamState): Option<StreamState>
    decreases |s.queue|
  {
    if s.queue == [] then Some(s)
    else
      var t := Mux(cfg, fmt, s.(queue := s.queue[1..]), s.queue[0]);
      if t.1 == Aborted then None else Flush(cfg, fmt, t.0)
  }

  // ---------- whole runs of one stream

  datatype Event = Arrives(packet: Packet) | HeaderWritten

  datatype RunState = RunState(header: bool, stream: StreamState)

  function Step(cfg: StreamConfig, fmt: Format, s: RunState, e: Event): Option<RunState> {
    match e
    case Arrives(p) =>
      var t := Write(cfg, fmt, s.header, s.stream, p, false);
      if t.1 in {QueueFull, Aborted} then None else Some(s.(stream := t.0))
    case HeaderWritten =>
      match Flush(cfg, fmt, s.stream)
      case None => None
      case Some(t) => Some(RunState(true, t))
  }

  /** The state after a run, or none if the program has ended. */
  function Run(cfg: StreamConfig, fmt: Format, events: seq<Event>): Option<RunState>
    decreases |events|
  {
    if events == [] then Some(RunState(false, Fresh))
    else
      match Run(cfg, fmt, events[..|events| - 1])
      case None => None
      case Some(s) => Step(cfg, fmt, s, events[|events| - 1])
  }

  /** The packets of a run, in the order they arrive. */
  function Arrivals(events: seq<Event>): seq<Packet>
    decreases |events|
  {
    if events == [] then []
    else
      var n := |events| - 1;
      Arrivals(events[..n]) + if events[n].Arrives? then [events[n].packet] else []
  }

  /** Those that arrive before the header is written. */
  function Early(events: seq<Event>): seq<Packet>
    decreases |events|
  {
    if events == [] then []
    else
      var n := |events| - 1;
      Early(events[..n]) + if events[n].Arrives? && HeaderWritten !in events then [events[n].packet] else []
  }

  /** The packets the frame limit lets through; it counts all but encoded video here. */
  function Accepted(cfg: StreamConfig, arrivals: seq<Packet>): seq<Packet> {
    if (cfg.kind == Video && cfg.encoding) || |arrivals| <= cfg.maxFrames then arrivals
    else if cfg.maxFrames <= 0 then []
    else arrivals[..cfg.maxFrames]
  }

  function QueueLimit(cfg: StreamConfig): nat {
    if cfg.maxQueue < 8 then 8 else cfg.maxQueue
  }

  /** The runs that do not end the program: few enough packets before the header, none behind time if that is fatal. */
  ghost predicate Survives(cfg: StreamConfig, fmt: Format, events: seq<Event>) {
    |Accepted(cfg, Early(events))| <= QueueLimit(cfg) &&
    (HeaderWritten in events ==> RepairAll(cfg, fmt, Accepted(cfg, Arrivals(events)), NOPTS).Some?)
  }

  /** The state a surviving run must be in, whenever its header was written. */
  ghost predicate Accounts(cfg: StreamConfig, fmt: Format, events: seq<Event>, s: RunState) {
    var accepted := Accepted(cfg, Arrivals(events));
    s.header == (HeaderWritten in events) &&
    s.stream.frameNumber == (if cfg.kind == Video && cfg.encoding then 0 else |accepted|) &&
    FIFO <= s.stream.capacity <= QueueLimit(cfg) && |s.stream.queue| <= s.stream.capacity &&
    (if s.header then Muxed(cfg, fmt, accepted, s.stream)
     else s.stream.queue == accepted && s.stream.muxed == [] && s.stream.lastMuxDts == NOPTS &&
          Early(events) == Arrivals(events))
  }

  /** Everything accepted has been muxed, in order and repaired. */
  ghost predicate Muxed(cfg: StreamConfig, fmt: Format, accepted: seq<Packet>, s: StreamState) {
    s.queue == [] && RepairAll(cfg, fmt, accepted, NOPTS) == Some(s.muxed) && s.lastMuxDts == LastDts(s.muxed, NOPTS)
  }

  function LastDts(ps: seq<Packet>, last: int): int {
    if ps == [] then last else ps[|ps| - 1].dts
  }

  /** Repairing a longer run continues from the last decoding time. */
  lemma {:induction false} RepairAppended(cfg: StreamConfig, fmt: Format, qs: seq<Packet>, q: Packet, last: int)
    ensures var r := RepairAll(cfg, fmt, qs, last);
            RepairAll(cfg, fmt, qs + [q], last) == Then(cfg, fmt, r, q, last)
    decreases |qs|
  {
    if qs == [] {
      assert [q][1..] == [] && [] + [q] == [q];
      var p := Repair(cfg, fmt, q, last);
      assert p.Some? ==> [p.value] + [] == [p.value] == [] + [p.value];
    } else {
      assert (qs + [q])[1..] == qs[1..] + [q];
      var p := Repair(cfg, fmt, qs[0], last);
      if p.Some? {
        RepairAppended(cfg, fmt, qs[1..], q, p.value.dts);
        var rest := RepairAll(cfg, fmt, qs[1..], p.value.dts);
        if rest.Some? {
          var q1 := Repair(cfg, fmt, q, LastDts(rest.value, p.value.dts));
          if q1.Some? {
            assert [p.value] + (rest.value + [q1.value]) == [p.value] + rest.value + [q1.value];
          }
        }
      }
    }
  }

  function Then(cfg: StreamConfig, fmt: Format, r: Option<seq<Packet>>, q: Packet, last: int): Option<seq<Packet>> {
    match r
    case None => None
    case Some(ps) =>
      match Repair(cfg, fmt, q, LastDts(ps, last))
      case None => None
      case Some(p) => Some(ps + [p])
  }

  /** The flush repairs and hands over the queue in order and leaves it empty. */
  lemma {:induction false} FlushRepairsQueue(cfg: StreamConfig, fmt: Format, s: StreamState)
    ensures var r := RepairAll(cfg, fmt, s.queue, s.lastMuxDts);
            Flush(cfg, fmt, s) == Flushed(s, r)
    decreases |s.queue|
  {
    if s.queue != [] {
      var t := Mux(cfg, fmt, s.(queue := s.queue[1..]), s.queue[0]);
      if t.1 != Aborted {
        FlushRepairsQueue(cfg, fmt, t.0);
        var r := RepairAll(cfg, fmt, s.queue[1..], t.0.lastMuxDts);
        if r.Some? {
          assert t.0.muxed + r.value == s.muxed + ([t.0.muxed[|s.muxed|]] + r.value);
        }
      }
    } else {
      assert s.muxed + [] == s.muxed;
    }
  }

  function Flushed(s: StreamState, r: Option<seq<Packet>>): Option<StreamState> {
    match r
    case None => None
    case Some(ps) => Some(s.(queue := [], muxed := s.muxed + ps, lastMuxDts := LastDts(ps, s.lastMuxDts)))
  }

  /** The queue overflows exactly when it holds the larger of eight and the limit. */
  lemma OverflowIff(cfg: StreamConfig, fmt: Format, s: StreamState, p: Packet, unqueue: bool)
    requires FIFO <= s.capacity <= QueueLimit(cfg) && |s.queue| <= s.capacity
    ensures Write(cfg, fmt, false, s, p, unqueue).1 == QueueFull <==>
              !OverLimit(cfg, s, unqueue) && |s.queue| == QueueLimit(cfg)
  {
  }

  /** Accepting one more packet. */
  lemma AcceptedAppended(cfg: StreamConfig, arrivals: seq<Packet>, p: Packet)
    ensures var a := Accepted(cfg, arrivals);
            Accepted(cfg, arrivals + [p]) == if Counted(cfg) && |a| >= cfg.maxFrames then a else a + [p]
    ensures |Accepted(cfg, arrivals)| <= |Accepted(cfg, arrivals + [p])|
  {
  }

  /**
   A run ends the program exactly when it must, and otherwise whatever the moment of the header, the accepted packets
   have all been handed to the muxer in order and repaired, or are all still queued; each is counted once.
   */
  lemma {:induction false} RunIsAccounted(cfg: StreamConfig, fmt: Format, events: seq<Event>)
    ensures Run(cfg, fmt, events).Some? <==> Survives(cfg, fmt, events)
    ensures Run(cfg, fmt, events).Some? ==> Accounts(cfg, fmt, events, Run(cfg, fmt, events).value)
    decreases |events|
  {
    if events != [] {
      var n := |events| - 1;
      var e, before := events[n], events[..n];
      assert events == before + [e];
      RunIsAccounted(cfg, fmt, before);
      SurvivalIsPrefixClosed(cfg, fmt, before, e);
      if Survives(cfg, fmt, before) {
        match e
        case Arrives(p) => ArrivalIsAccounted(cfg, fmt, before, p, Run(cfg, fmt, before).value);
        case HeaderWritten => HeaderIsAccounted(cfg, fmt, before, Run(cfg, fmt, before).value);
      }
    }
  }

  /** A run that has ended the program stays ended. */
  lemma SurvivalIsPrefixClosed(cfg: StreamConfig, fmt: Format, before: seq<Event>, e: Event)
    ensures Survives(cfg, fmt, before + [e]) ==> Survives(cfg, fmt, before)
  {
    assert (before + [e])[..|before|] == before;
    if e.Arrives? {
      var a, arrivals := Accepted(cfg, Arrivals(before)), Arrivals(before);
      assert Arrivals(before + [e]) == arrivals + [e.packet];
      AcceptedAppended(cfg, arrivals, e.packet);
      RepairAppended(cfg, fmt, a, e.packet, NOPTS);
    } else {
      assert Arrivals(before + [e]) == Arrivals(before) + [] == Arrivals(before);
    }
    EarlyAppended(before, e);
    AcceptedAppended(cfg, Early(before), if e.Arrives? then e.packet else Packet(0, 0, 0));
  }

  lemma EarlyAppended(before: seq<Event>, e: Event)
    ensures Early(before + [e]) ==
            if e.Arrives? && HeaderWritten !in before then Early(before) + [e.packet] else Early(before)
  {
    assert (before + [e])[..|before|] == before;
    assert Early(before) + [] == Early(before);
    assert HeaderWritten in before + [e] <==> HeaderWritten in before || e == HeaderWritten;
  }

  /** The lists of a run with one more arrival. */
  lemma ArrivalLists(cfg: StreamConfig, fmt: Format, before: seq<Event>, p: Packet, s: RunState)
    requires Accounts(cfg, fmt, before, s)
    ensures var after, a := before + [Arrives(p)], Accepted(cfg, Arrivals(before));
            (HeaderWritten in after <==> HeaderWritten in before) && Arrivals(after) == Arrivals(before) + [p] &&
            Early(after) == (if s.header then Early(before) else Arrivals(after)) &&
            Accepted(cfg, Arrivals(after)) == if OverLimit(cfg, s.stream, false) then a else a + [p]
  {
    hide RepairAll, Early;
    var after := before + [Arrives(p)];
    assert after[..|before|] == before;
    assert Arrivals(after) == Arrivals(before) + [p];
    AcceptedAppended(cfg, Arrivals(before), p);
    EarlyAppended(before, Arrives(p));
    hide Accepted;
  }

  lemma ArrivalIsMuxed(cfg: StreamConfig, fmt: Format, before: seq<Event>, p: Packet, s: RunState)
    requires Survives(cfg, fmt, before) && Accounts(cfg, fmt, before, s) && s.header
    ensures var after, t := before + [Arrives(p)], Step(cfg, fmt, s, Arrives(p));
            (t.Some? <==> Survives(cfg, fmt, after)) && (t.Some? ==> Accounts(cfg, fmt, after, t.value))
  {
    ArrivalLists(cfg, fmt, before, p, s);
    hide Repair, RepairAll, Accepted, Arrivals, Early, Enqueue;
    RepairAppended(cfg, fmt, Accepted(cfg, Arrivals(before)), p, NOPTS);
  }

  lemma ArrivalIsQueued(cfg: StreamConfig, fmt: Format, before: seq<Event>, p: Packet, s: RunState)
    requires Survives(cfg, fmt, before) && Accounts(cfg, fmt, before, s) && !s.header
    ensures var after, t := before + [Arrives(p)], Step(cfg, fmt, s, Arrives(p));
            (t.Some? <==> Survives(cfg, fmt, after)) && (t.Some? ==> Accounts(cfg, fmt, after, t.value))
  {
    ArrivalLists(cfg, fmt, before, p, s);
    hide Repair, RepairAll, Accepted, Arrivals, Early, Mux;
    OverflowIff(cfg, fmt, s.stream, p, false);
  }

  lemma ArrivalIsAccounted(cfg: StreamConfig, fmt: Format, before: seq<Event>, p: Packet, s: RunState)
    requires Survives(cfg, fmt, before) && Accounts(cfg, fmt, before, s)
    ensures var after, t := before + [Arrives(p)], Step(cfg, fmt, s, Arrives(p));
            (t.Some? <==> Survives(cfg, fmt, after)) && (t.Some? ==> Accounts(cfg, fmt, after, t.value))
  {
    if s.header {
      ArrivalIsMuxed(cfg, fmt, before, p, s);
    } else {
      ArrivalIsQueued(cfg, fmt, before, p, s);
    }
  }

  lemma HeaderIsAccounted(cfg: StreamConfig, fmt: Format, before: seq<Event>, s: RunState)
    requires Survives(cfg, fmt, before) && Accounts(cfg, fmt, before, s)
    ensures var after, t := before + [HeaderWritten], Step(cfg, fmt, s, HeaderWritten);
            (t.Some? <==> Survives(cfg, fmt, after)) && (t.Some? ==> Accounts(cfg, fmt, after, t.value))
  {
    hide Repair, Accepted;
    var after := before + [HeaderWritten];
    assert after[..|before|] == before && after[|before|] == HeaderWritten;
    assert Arrivals(after) == Arrivals(before) + [] == Arrivals(before);
    EarlyAppended(before, HeaderWritten);
    FlushRepairsQueue(cfg, fmt, s.stream);
    var r := RepairAll(cfg, fmt, s.stream.queue, s.stream.lastMuxDts);
    assert s.header ==> r == Some([]) && s.stream.muxed + [] == s.stream.muxed;
    assert !s.header && r.Some? ==> [] + r.value == r.value;
  }

  /** So the muxer sees the same packets whenever the header is written during a run. */
  lemma HeaderTimeDoesNotMatter(cfg: StreamConfig, fmt: Format, e1: seq<Event>, e2: seq<Event>)
    requires Arrivals(e1) == Arrivals(e2) && HeaderWritten in e1 && HeaderWritten in e2
    requires Run(cfg, fmt, e1).Some? && Run(cfg, fmt, e2).Some?
    ensures var s1, s2 := Run(cfg, fmt, e1).value.stream, Run(cfg, fmt, e2).value.stream;
            s1.muxed == s2.muxed && s1.frameNumber == s2.frameNumber && s1.lastMuxDts == s2.lastMuxDts
  {
    RunIsAccounted(cfg, fmt, e1);
    RunIsAccounted(cfg, fmt, e2);
  }

  /** And over any run of packets carrying decoding times, what the muxer sees is in order. */
  lemma MuxedInOrder(cfg: StreamConfig, fmt: Format, events: seq<Event>)
    requires cfg.kind in {Video, Audio, Subtitle} && !cfg.copiedVp9 && !fmt.noTimestamps
    requires !(cfg.kind == Video && fmt.dropVideoTs) && !(cfg.kind == Audio && fmt.dropAudioTs)
    requires Run(cfg, fmt, events).Some?
    requires forall p :: p in Arrivals(events) ==> Stamped(p) && p.dts != NOPTS
    ensures var ps := Run(cfg, fmt, events).value.stream.muxed;
            (forall i, j :: 0 <= i < j < |ps| ==> if fmt.nonStrict then ps[i].dts <= ps[j].dts else ps[i].dts < ps[j].dts) &&
            (forall i :: 0 <= i < |ps| && ps[i].pts != NOPTS ==> ps[i].pts >= ps[i].dts)
  {
    RunIsAccounted(cfg, fmt, events);
    if HeaderWritten in events {
      RunIsOrdered(cfg, fmt, Accepted(cfg, Arrivals(events)), NOPTS);
    }
  }

  // ---------- order across packets without a decoding time

  predicate InOrder(fmt: Format, a: int, b: int) {
    if fmt.nonStrict then a <= b else a < b
  }

  /** All decoding times there are, are in order. */
  ghost predicate AllInOrder(fmt: Format, ps: seq<Packet>) {
    forall i, j :: 0 <= i < j < |ps| && ps[i].dts != NOPTS && ps[j].dts != NOPTS ==> InOrder(fmt, ps[i].dts, ps[j].dts)
  }

  /** Packet `i` is the first with a decoding time behind a gap that `e` is the last with one before. */
  ghost predicate Gap(qs: seq<Packet>, e: nat, i: nat) {
    e + 1 < i < |qs| && qs[e].dts != NOPTS && qs[i].dts != NOPTS && forall k :: e < k < i ==> qs[k].dts == NOPTS
  }

  /** What a packet's decoding time becomes when the last one has been forgotten. */
  function Uncrossed(q: Packet): int {
    if q.pts != NOPTS && q.pts < q.dts then q.pts else q.dts
  }

  lemma RepairedAfterGap(cfg: StreamConfig, fmt: Format, q: Packet)
    requires Guarded(cfg, fmt) && !Stripped(cfg, fmt) && Stamped(q) && q.dts != NOPTS
    ensures Repair(cfg, fmt, q, NOPTS).Some? && Repair(cfg, fmt, q, NOPTS).value.dts == Uncrossed(q) != NOPTS
  {
  }

  /** A packet without a decoding time passes as it is. */
  lemma TimelessPasses(cfg: StreamConfig, fmt: Format, q: Packet, last: int)
    requires Guarded(cfg, fmt) && !Stripped(cfg, fmt) && q.dts == NOPTS
    ensures Repair(cfg, fmt, q, last) == Some(q)
  {
  }

  /** Each output has a decoding time exactly if its packet has, and never one less than none. */
  ghost predicate Matching(qs: seq<Packet>, ps: seq<Packet>) {
    |ps| == |qs| && forall i :: 0 <= i < |qs| ==> NOPTS <= ps[i].dts && (ps[i].dts != NOPTS <==> qs[i].dts != NOPTS)
  }

  /** Every decoding time behind a gap, uncrossed, is in order with the last one handed over before it. */
  ghost predicate GapsInOrder(fmt: Format, qs: seq<Packet>, ps: seq<Packet>)
    requires |ps| == |qs|
  {
    forall e: nat, i: nat :: Gap(qs, e, i) ==> InOrder(fmt, ps[e].dts, Uncrossed(qs[i]))
  }

  /** The last packet with a decoding time, if there is one. */
  ghost function LastTimed(qs: seq<Packet>): (e: Option<nat>)
    ensures e.Some? ==> e.value < |qs| && qs[e.value].dts != NOPTS && forall k :: e.value < k < |qs| ==> qs[k].dts == NOPTS
    ensures e.None? ==> forall k :: 0 <= k < |qs| ==> qs[k].dts == NOPTS
  {
    if qs == [] then None
    else if qs[|qs| - 1].dts != NOPTS then Some(|qs| - 1)
    else LastTimed(qs[..|qs| - 1])
  }

  /** One more packet is in order with all before it exactly if it is with the last timed one. */
  lemma OrderAppended(fmt: Format, qs: seq<Packet>, ps: seq<Packet>, p: Packet)
    requires Matching(qs, ps)
    ensures var e := LastTimed(qs);
            AllInOrder(fmt, ps + [p]) <==>
            AllInOrder(fmt, ps) && (p.dts != NOPTS && e.Some? ==> InOrder(fmt, ps[e.value].dts, p.dts))
  {
    var e, all := LastTimed(qs), ps + [p];
    assert forall i :: 0 <= i < |ps| ==> all[i] == ps[i];
    assert all[|ps|] == p;
    if AllInOrder(fmt, ps) && e.Some? && p.dts != NOPTS && InOrder(fmt, ps[e.value].dts, p.dts) {
      forall i, j | 0 <= i < j < |all| && all[i].dts != NOPTS && all[j].dts != NOPTS
        ensures InOrder(fmt, all[i].dts, all[j].dts)
      {
        if j == |ps| && i != e.value {
          assert InOrder(fmt, ps[i].dts, ps[e.value].dts);
        }
      }
    }
  }

  lemma GapKept(qs: seq<Packet>, q: Packet, d: nat, i: nat)
    requires i < |qs|
    ensures Gap(qs + [q], d, i) <==> Gap(qs, d, i)
  {
    assert forall k :: 0 <= k < |qs| ==> (qs + [q])[k] == qs[k];
  }

  lemma GapNew(qs: seq<Packet>, q: Packet, d: nat)
    ensures Gap(qs + [q], d, |qs|) <==> q.dts != NOPTS && LastTimed(qs) == Some(d) && d + 1 < |qs|
  {
    var all, e := qs + [q], LastTimed(qs);
    hide LastTimed;
    assert all[|qs|] == q && forall k :: 0 <= k < |qs| ==> all[k] == qs[k];
    if d + 1 < |qs| && e.Some? && Gap(all, d, |qs|) {
      assert all[d].dts != NOPTS && all[e.value].dts != NOPTS;
      assert !(d < e.value) && !(e.value < d);
    }
  }

  /** The gaps of a run with one more packet. */
  lemma GapsAppended(fmt: Format, qs: seq<Packet>, ps: seq<Packet>, q: Packet, p: Packet)
    requires |ps| == |qs|
    ensures var e := LastTimed(qs);
            GapsInOrder(fmt, qs + [q], ps + [p]) <==>
            GapsInOrder(fmt, qs, ps) &&
            (q.dts != NOPTS && e.Some? && e.value + 1 < |qs| ==> InOrder(fmt, ps[e.value].dts, Uncrossed(q)))
  {
    forall d: nat, i: nat | i < |qs| { GapKept(qs, q, d, i); }
    forall d: nat { GapNew(qs, q, d); }
    GapsInside(qs);
    GapsInside(qs + [q]);
    hide InOrder, Uncrossed, Gap, LastTimed;
    var e, all, out := LastTimed(qs), qs + [q], ps + [p];
    assert forall i :: 0 <= i < |qs| ==> all[i] == qs[i] && out[i] == ps[i];
    assert all[|qs|] == q;
    if q.dts != NOPTS && e.Some? && e.value + 1 < |qs| {
      assert Gap(all, e.value, |qs|);
    }
  }

  lemma GapsInside(qs: seq<Packet>)
    ensures forall d: nat, i: nat :: Gap(qs, d, i) ==> d < i < |qs|
  {
  }

  /** The last decoding time in force after a run: that of its last packet. */
  lemma {:induction false} RunMatches(cfg: StreamConfig, fmt: Format, qs: seq<Packet>)
    requires Guarded(cfg, fmt) && !Stripped(cfg, fmt) && forall i :: 0 <= i < |qs| ==> Stamped(qs[i])
    requires RepairAll(cfg, fmt, qs, NOPTS).Some?
    ensures Matching(qs, RepairAll(cfg, fmt, qs, NOPTS).value)
    decreases |qs|
  {
    hide Repair;
    if qs != [] {
      var n := |qs| - 1;
      assert qs == qs[..n] + [qs[n]];
      RepairAppended(cfg, fmt, qs[..n], qs[n], NOPTS);
      RunMatches(cfg, fmt, qs[..n]);
      var ps := RepairAll(cfg, fmt, qs[..n], NOPTS).value;
      if qs[n].dts == NOPTS {
        TimelessPasses(cfg, fmt, qs[n], LastDts(ps, NOPTS));
      } else {
        RepairOrders(cfg, fmt, qs[n], LastDts(ps, NOPTS));
      }
    }
  }

  /**
   Over any run of packets, with decoding times or without, those handed over are in order exactly if behind every gap
   the first decoding time, uncrossed, is in order with the last one handed over before the gap.
   */
  lemma {:induction false} OrderedIffGapsAre(cfg: StreamConfig, fmt: Format, qs: seq<Packet>)
    requires cfg.kind in {Video, Audio, Subtitle} && !cfg.copiedVp9 && !fmt.noTimestamps
    requires !(cfg.kind == Video && fmt.dropVideoTs) && !(cfg.kind == Audio && fmt.dropAudioTs)
    requires forall i :: 0 <= i < |qs| ==> Stamped(qs[i])
    requires RepairAll(cfg, fmt, qs, NOPTS).Some?
    ensures var ps := RepairAll(cfg, fmt, qs, NOPTS).value;
            AllInOrder(fmt, ps) <==> GapsInOrder(fmt, qs, ps)
    decreases |qs|
  {
    hide Repair, GapsInOrder, AllInOrder, Gap;
    if qs == [] {
      NothingIsInOrder(fmt);
    } else {
      var n := |qs| - 1;
      var q := qs[n];
      assert qs == qs[..n] + [q];
      RepairAppended(cfg, fmt, qs[..n], q, NOPTS);
      OrderedIffGapsAre(cfg, fmt, qs[..n]);
      RunMatches(cfg, fmt, qs[..n]);
      var ps := RepairAll(cfg, fmt, qs[..n], NOPTS).value;
      var p := Repair(cfg, fmt, q, LastDts(ps, NOPTS)).value;
      OrderAppended(fmt, qs[..n], ps, p);
      GapsAppended(fmt, qs[..n], ps, q, p);
      if q.dts == NOPTS {
        TimelessPasses(cfg, fmt, q, LastDts(ps, NOPTS));
      } else {
        RepairOrders(cfg, fmt, q, LastDts(ps, NOPTS));
        RepairedAfterGap(cfg, fmt, q);
      }
    }
  }

  lemma NothingIsInOrder(fmt: Format)
    ensures AllInOrder(fmt, []) && GapsInOrder(fmt, [], [])
  {
  }

  /** A run whose gap is not in order: the stream has forgotten 9 when 5 comes. */
  lemma GapLosesOrder(cfg: StreamConfig, fmt: Format)
    requires cfg.kind in {Video, Audio, Subtitle} && !cfg.copiedVp9 && !fmt.noTimestamps
    requires !(cfg.kind == Video && fmt.dropVideoTs) && !(cfg.kind == Audio && fmt.dropAudioTs)
    ensures var qs := [Packet(0, 9, 9), Packet(1, 9, NOPTS), Packet(2, 5, 5)];
            RepairAll(cfg, fmt, qs, NOPTS) == Some(qs) && !AllInOrder(fmt, qs)
  {
    var a, b, c := Packet(0, 9, 9), Packet(1, 9, NOPTS), Packet(2, 5, 5);
    assert [a, b, c][1..] == [b, c] && [b, c][1..] == [c] && [c][1..] == [];
    assert [c] + [] == [c] && [b] + [c] == [b, c] && [a] + [b, c] == [a, b, c];
    assert RepairAll(cfg, fmt, [], c.dts) == Some([]);
    assert RepairAll(cfg, fmt, [c], NOPTS) == Some([c]);
    assert RepairAll(cfg, fmt, [b, c], 9) == Some([b, c]);
    assert [a, b, c][0].dts == 9 && [a, b, c][2].dts == 5;
  }

  /** And over any run of write_packet, what the muxer sees is in order exactly if its gaps are. */
  lemma MuxedInOrderIff(cfg: StreamConfig, fmt: Format, events: seq<Event>)
    requires cfg.kind in {Video, Audio, Subtitle} && !cfg.copiedVp9 && !fmt.noTimestamps
    requires !(cfg.kind == Video && fmt.dropVideoTs) && !(cfg.kind == Audio && fmt.dropAudioTs)
    requires Run(cfg, fmt, events).Some?
    requires forall p :: p in Arrivals(events) ==> Stamped(p)
    ensures var ps := Run(cfg, fmt, events).value.stream.muxed;
            if HeaderWritten in events then
              |ps| == |Accepted(cfg, Arrivals(events))| &&
              (AllInOrder(fmt, ps) <==> GapsInOrder(fmt, Accepted(cfg, Arrivals(events)), ps))
            else ps == []
  {
    RunIsAccounted(cfg, fmt, events);
    if HeaderWritten in events {
      OrderedIffGapsAre(cfg, fmt, Accepted(cfg, Arrivals(events)));
    }
  }

  // ---------- the streams of a file, updated in place

  class OutputStream {
    const cfg: StreamConfig
    var initialized: bool
    var frameNumber: int
    var queue: seq<Packet>
    var capacity: nat
    var lastMuxDts: int
    var muxed: seq<Packet>

    constructor (cfg: StreamConfig)
      ensures this.cfg == cfg && !initialized && State() == Fresh
    {
      this.cfg := cfg;
      initialized, frameNumber, queue, capacity, lastMuxDts, muxed := false, 0, [], FIFO, NOPTS, [];
    }

    ghost function State(): StreamState
      reads this
    {
      StreamState(frameNumber, queue, capacity, lastMuxDts, muxed)
    }

    /** write_packet. */
    method WritePacket(fmt: Format, header: bool, pkt: Packet, unqueue: bool) returns (status: Status)
      modifies this
      ensures (State(), status) == Write(cfg, fmt, header, old(State()), pkt, unqueue)
      ensures initialized == old(initialized)
    {
      if !(cfg.kind == Video && cfg.encoding) && !unqueue {
        if frameNumber >= cfg.maxFrames {
          return Dropped;
        }
        frameNumber := frameNumber + 1;
      }
      if !header {
        if capacity - |queue| <= 0 {
          var newSize := if 2 * |queue| < cfg.maxQueue then 2 * |queue| else cfg.maxQueue;
          if newSize <= |queue| {
            return QueueFull;
          }
          capacity := newSize;
        }
        queue := queue + [pkt];
        return Queued;
      }
      status := MuxPacket(fmt, pkt);
    }

    /** The half of write_packet that repairs the timestamps and hands the packet over. */
    method MuxPacket(fmt: Format, pkt: Packet) returns (status: Status)
      modifies this
      ensures (State(), status) == Mux(cfg, fmt, old(State()), pkt)
      ensures initialized == old(initialized)
    {
      var pts, dts := pkt.pts, pkt.dts;
      if (cfg.kind == Video && fmt.dropVideoTs) || (cfg.kind == Audio && fmt.dropAudioTs) {
        pts, dts := NOPTS, NOPTS;
      }
      if !fmt.noTimestamps {
        if dts != NOPTS && pts != NOPTS && dts > pts {
          var guess := pts + dts + lastMuxDts + 1 - Min3(pts, dts, lastMuxDts + 1) - Max3(pts, dts, lastMuxDts + 1);
          pts, dts := guess, guess;
        }
        if cfg.kind != Data && dts != NOPTS && !cfg.copiedVp9 && lastMuxDts != NOPTS {
          var max := lastMuxDts + if fmt.nonStrict then 0 else 1;
          if dts < max {
            if fmt.exitOnError {
              return Aborted;
            }
            if pts >= dts && pts < max {
              pts := max;
            }
            dts := max;
          }
        }
      }
      lastMuxDts := dts;
      muxed := muxed + [Packet(pkt.id, pts, dts)];
      status := Written;
    }

    /** The loop that empties one queue. */
    method FlushQueue(fmt: Format) returns (ok: bool)
      modifies this
      ensures initialized == old(initialized)
      ensures ok == Flush(cfg, fmt, old(State())).Some?
      ensures ok ==> Flush(cfg, fmt, old(State())) == Some(State())
    {
      while queue != []
        invariant initialized == old(initialized)
        invariant Flush(cfg, fmt, State()) == Flush(cfg, fmt, old(State()))
        decreases |queue|
      {
        var pkt := queue[0];
        queue := queue[1..];
        var status := WritePacket(fmt, true, pkt, true);
        if status == Aborted {
          return false;
        }
      }
      ok := true;
    }
  }

  class OutputFile {
    const fmt: Format
    const streams: seq<OutputStream>
    var headerWritten: bool

    constructor (fmt: Format, streams: seq<OutputStream>)
      requires forall i, j :: 0 <= i < j < |streams| ==> streams[i] != streams[j]
      ensures Valid() && !headerWritten && this.fmt == fmt && this.streams == streams
    {
      this.fmt, this.streams, headerWritten := fmt, streams, false;
    }

    /** No two streams are the same object. */
    ghost predicate Valid() {
      forall i, j :: 0 <= i < j < |streams| ==> streams[i] != streams[j]
    }

    ghost predicate AllInitialized()
      reads streams
    {
      forall i :: 0 <= i < |streams| ==> streams[i].initialized
    }

    /** Waits for all streams; then, if the muxer took the header, empties every stream's queue. */
    method CheckInitOutputFile(writeHeader: int) returns (ret: int, ok: bool)
      requires Valid()
      modifies this, streams
      ensures !old(AllInitialized()) || writeHeader < 0 ==> ok && unchanged(this) && unchanged(streams)
      ensures ret == if old(AllInitialized()) && writeHeader < 0 then writeHeader else 0
      ensures old(AllInitialized()) && writeHeader >= 0 ==>
                headerWritten && (ok <==> forall i :: 0 <= i < |streams| ==> Flush(streams[i].cfg, fmt, old(streams[i].State())).Some?)
      ensures old(AllInitialized()) && writeHeader >= 0 && ok ==>
                forall i :: 0 <= i < |streams| ==> Flush(streams[i].cfg, fmt, old(streams[i].State())) == Some(streams[i].State())
    {
      ok := true;
      for i := 0 to |streams|
        invariant forall k :: 0 <= k < i ==> streams[k].initialized
      {
        if !streams[i].initialized {
          return 0, true;
        }
      }
      if writeHeader < 0 {
        return writeHeader, true;
      }
      headerWritten := true;
      ret := 0;
      for i := 0 to |streams|
        invariant headerWritten
        invariant forall k :: 0 <= k < i ==> Flush(streams[k].cfg, fmt, old(streams[k].State())) == Some(streams[k].State())
        invariant forall k :: i <= k < |streams| ==> streams[k].State() == old(streams[k].State())
      {
        ok := streams[i].FlushQueue(fmt);
        if !ok {
          return 0, false;
        }
      }
    }
  }
}
