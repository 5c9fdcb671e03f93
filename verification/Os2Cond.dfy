/**
 The condition variable that os2threads builds from two auto-reset event semaphores and a counter, as a machine
 of atomic steps of any number of threads. A post is remembered until one wait takes it; a post on a posted
 semaphore is lost.
 */
module Os2Cond {
  import opened PrefixCodes

  /** Who called signal: a plain caller holding the mutex, the loop of broadcast, or a caller without the mutex. */
  datatype Caller = Plain | Loop | Unlocked

  datatype Pc =
    | Idle                    // outside, mutex not held
    | Inside                  // outside the primitives, mutex held
    | Counted                 // wait: counter raised, mutex still held
    | Waiting                 // wait: mutex released, event not yet taken
    | Woken                   // wait: event taken, counter not yet lowered
    | Leaving                 // wait: counter lowered, acknowledgement not yet posted
    | Returning               // wait: acknowledged, asking for the mutex
    | LoopTest                // broadcast: about to test the counter
    | Test(caller: Caller)    // signal: about to test the counter
    | Post(caller: Caller)    // signal: counter was not 0, event not yet posted
    | Await(caller: Caller)   // signal: event posted, acknowledgement not yet taken

  datatype State = State(
    pcs: seq<Pc>, waitCount: int, event: bool, ack: bool, mutex: Option<nat>,
    posted: nat, woken: nat, signalled: nat)   // history: events posted, events taken, signals completed

  /** Where a call of signal returns to. */
  function After(c: Caller): Pc {
    match c
    case Plain => Inside
    case Loop => LoopTest
    case Unlocked => Idle
  }

  predicate Holds(p: Pc) {
    match p
    case Inside => true
    case Counted => true
    case LoopTest => true
    case Test(c) => c != Unlocked
    case Post(c) => c != Unlocked
    case Await(c) => c != Unlocked
    case _ => false
  }

  /** One atomic step of thread `t`; signalling without the mutex is possible only if `serialised` is false. */
  ghost predicate Step(serialised: bool, s: State, t: nat, r: State) {
    t < |s.pcs| &&
    match s.pcs[t]
    case Idle =>
      || (s.mutex == None && r == s.(pcs := s.pcs[t := Inside], mutex := Some(t)))
      || (!serialised && r == s.(pcs := s.pcs[t := Test(Unlocked)]))
    case Inside =>
      || r == s.(pcs := s.pcs[t := Idle], mutex := None)
      || r == s.(pcs := s.pcs[t := Counted], waitCount := s.waitCount + 1)
      || r == s.(pcs := s.pcs[t := Test(Plain)])
      || r == s.(pcs := s.pcs[t := LoopTest])
    case Counted => r == s.(pcs := s.pcs[t := Waiting], mutex := None)
    case Waiting => s.event && r == s.(pcs := s.pcs[t := Woken], event := false, woken := s.woken + 1)
    case Woken => r == s.(pcs := s.pcs[t := Leaving], waitCount := s.waitCount - 1)
    case Leaving => r == s.(pcs := s.pcs[t := Returning], ack := true)
    case Returning => s.mutex == None && r == s.(pcs := s.pcs[t := Inside], mutex := Some(t))
    case LoopTest => r == s.(pcs := s.pcs[t := if s.waitCount == 0 then Inside else Test(Loop)])
    case Test(c) => r == s.(pcs := s.pcs[t := if s.waitCount == 0 then After(c) else Post(c)])
    case Post(c) => r == s.(pcs := s.pcs[t := Await(c)], event := true, posted := s.posted + 1)
    case Await(c) => s.ack && r == s.(pcs := s.pcs[t := After(c)], ack := false, signalled := s.signalled + 1)
  }

  ghost predicate Initial(s: State) {
    && (forall t :: 0 <= t < |s.pcs| ==> s.pcs[t] == Idle)
    && s == State(s.pcs, 0, false, false, None, 0, 0, 0)
  }

  ghost predicate Next(serialised: bool, s: State, r: State) {
    exists t :: Step(serialised, s, t, r)
  }

  /** A run: consecutive states differ by one step of some thread. */
  ghost predicate Run(serialised: bool, run: seq<State>) {
    && run != [] && Initial(run[0])
    && forall i :: 0 <= i < |run| - 1 ==> Next(serialised, run[i], run[i + 1])
  }

  // ---------- sums over threads

  function Total(pcs: seq<Pc>, w: Pc -> int): int {
    if pcs == [] then 0 else Total(pcs[..|pcs| - 1], w) + w(pcs[|pcs| - 1])
  }

  lemma {:induction false} TotalUpdate(pcs: seq<Pc>, t: nat, p: Pc, w: Pc -> int)
    requires t < |pcs|
    ensures Total(pcs[t := p], w) == Total(pcs, w) - w(pcs[t]) + w(p)
  {
    var n := |pcs| - 1;
    if t == n {
      assert pcs[t := p][..n] == pcs[..n];
    } else {
      assert pcs[t := p][..n] == pcs[..n][t := p];
      TotalUpdate(pcs[..n], t, p, w);
    }
  }

  lemma {:induction false} TotalZero(pcs: seq<Pc>, w: Pc -> int)
    requires forall t :: 0 <= t < |pcs| ==> w(pcs[t]) == 0
    ensures Total(pcs, w) == 0
  {
    if pcs != [] {
      TotalZero(pcs[..|pcs| - 1], w);
    }
  }

  lemma {:induction false} TotalNotNegative(pcs: seq<Pc>, w: Pc -> int)
    requires forall t :: 0 <= t < |pcs| ==> w(pcs[t]) >= 0
    ensures Total(pcs, w) >= 0
    ensures forall t :: 0 <= t < |pcs| ==> w(pcs[t]) <= Total(pcs, w)
  {
    if pcs != [] {
      TotalNotNegative(pcs[..|pcs| - 1], w);
      assert forall t :: 0 <= t < |pcs| - 1 ==> pcs[..|pcs| - 1][t] == pcs[t];
    }
  }

  lemma {:induction false} SomeThread(pcs: seq<Pc>, w: Pc -> int) returns (t: nat)
    requires Total(pcs, w) != 0
    ensures t < |pcs| && w(pcs[t]) != 0
  {
    var n := |pcs| - 1;
    if w(pcs[n]) != 0 {
      t := n;
    } else {
      t := SomeThread(pcs[..n], w);
    }
  }

  function IsWaiting(p: Pc): int { if p == Waiting then 1 else 0 }

  /** Threads the counter stands for. */
  function IsCounted(p: Pc): int { if p in {Counted, Waiting, Woken} then 1 else 0 }

  /** Wakeups taken and not yet acknowledged. */
  function InFlight(p: Pc): int { if p in {Woken, Leaving} then 1 else 0 }

  function IsAwaiting(p: Pc): int { if p.Await? then 1 else 0 }

  function Bit(b: bool): int { if b then 1 else 0 }

  /** Outstanding posts, unacknowledged wakeups and unread acknowledgements. */
  function Tokens(s: State): int {
    Bit(s.event) + Total(s.pcs, InFlight) + Bit(s.ack)
  }

  // ---------- the invariant

  ghost predicate MutexOwner(s: State) {
    && (s.mutex.Some? ==> s.mutex.value < |s.pcs| && Holds(s.pcs[s.mutex.value]))
    && (forall t :: 0 <= t < |s.pcs| && Holds(s.pcs[t]) ==> s.mutex == Some(t))
    && (forall t :: 0 <= t < |s.pcs| ==> s.pcs[t] !in {Test(Unlocked), Post(Unlocked), Await(Unlocked)})
  }

  ghost predicate Inv(s: State) {
    && MutexOwner(s)
    && s.waitCount == Total(s.pcs, IsCounted)
    && Tokens(s) == Total(s.pcs, IsAwaiting)
    && s.posted == s.woken + Bit(s.event)
    && s.posted == s.signalled + Total(s.pcs, IsAwaiting)
    && (s.event ==> Total(s.pcs, IsWaiting) >= 1)
    && (forall t :: 0 <= t < |s.pcs| && (s.pcs[t].Post? || s.pcs[t] == Test(Loop)) ==> Total(s.pcs, IsWaiting) >= 1)
  }

  lemma {:induction false} TotalEqual(pcs: seq<Pc>, v: Pc -> int, w: Pc -> int)
    requires forall t :: 0 <= t < |pcs| ==> v(pcs[t]) == w(pcs[t])
    ensures Total(pcs, v) == Total(pcs, w)
  {
    if pcs != [] {
      TotalEqual(pcs[..|pcs| - 1], v, w);
    }
  }

  /**
   While a thread holds the mutex without awaiting an acknowledgement, nothing is outstanding and every counted
   waiter other than itself waits.
   */
  lemma HolderSeesQuiet(s: State, t: nat)
    requires Inv(s) && t < |s.pcs| && Holds(s.pcs[t]) && !s.pcs[t].Await?
    ensures !s.event && !s.ack && Total(s.pcs, InFlight) == 0 && Total(s.pcs, IsAwaiting) == 0
    ensures s.pcs[t] != Counted ==> s.waitCount == Total(s.pcs, IsWaiting)
  {
    assert forall k :: 0 <= k < |s.pcs| ==> IsAwaiting(s.pcs[k]) == 0;
    TotalZero(s.pcs, IsAwaiting);
    TotalNotNegative(s.pcs, InFlight);
    if s.pcs[t] != Counted {
      assert forall k :: 0 <= k < |s.pcs| ==> InFlight(s.pcs[k]) == 0;
      TotalEqual(s.pcs, IsCounted, IsWaiting);
    }
  }

  lemma InitialInv(s: State)
    requires Initial(s)
    ensures Inv(s)
  {
    TotalZero(s.pcs, IsWaiting);
    TotalZero(s.pcs, IsCounted);
    TotalZero(s.pcs, InFlight);
    TotalZero(s.pcs, IsAwaiting);
  }

  lemma StepKeepsOwner(s: State, t: nat, r: State)
    requires MutexOwner(s) && Step(true, s, t, r)
    ensures MutexOwner(r)
  {
    assert r.pcs == s.pcs[t := r.pcs[t]];
    OwnStep(s, t, r);
    hide Step;
  }

  /** A step moves the mutex only to or from its own thread. */
  lemma OwnStep(s: State, t: nat, r: State)
    requires Step(true, s, t, r)
    ensures Holds(s.pcs[t]) && Holds(r.pcs[t]) ==> r.mutex == s.mutex
    ensures Holds(s.pcs[t]) && !Holds(r.pcs[t]) ==> r.mutex == None
    ensures !Holds(s.pcs[t]) && Holds(r.pcs[t]) ==> s.mutex == None && r.mutex == Some(t)
    ensures !Holds(s.pcs[t]) && !Holds(r.pcs[t]) ==> r.mutex == s.mutex
    ensures r.pcs[t] in {Test(Unlocked), Post(Unlocked), Await(Unlocked)} ==>
              s.pcs[t] in {Test(Unlocked), Post(Unlocked), Await(Unlocked)}
  {
  }

  /** The sums after a step. */
  lemma StepTotals(s: State, t: nat, r: State)
    requires Step(true, s, t, r)
    ensures |r.pcs| == |s.pcs| && r.pcs == s.pcs[t := r.pcs[t]]
    ensures Total(r.pcs, IsWaiting) == Total(s.pcs, IsWaiting) - IsWaiting(s.pcs[t]) + IsWaiting(r.pcs[t])
    ensures Total(r.pcs, IsCounted) == Total(s.pcs, IsCounted) - IsCounted(s.pcs[t]) + IsCounted(r.pcs[t])
    ensures Total(r.pcs, InFlight) == Total(s.pcs, InFlight) - InFlight(s.pcs[t]) + InFlight(r.pcs[t])
    ensures Total(r.pcs, IsAwaiting) == Total(s.pcs, IsAwaiting) - IsAwaiting(s.pcs[t]) + IsAwaiting(r.pcs[t])
  {
    assert r.pcs == s.pcs[t := r.pcs[t]];
    hide Step;
    TotalUpdate(s.pcs, t, r.pcs[t], IsWaiting);
    TotalUpdate(s.pcs, t, r.pcs[t], IsCounted);
    TotalUpdate(s.pcs, t, r.pcs[t], InFlight);
    TotalUpdate(s.pcs, t, r.pcs[t], IsAwaiting);
  }

  /** The counter, the tokens and the history stay in step. */
  lemma StepKeepsCounts(s: State, t: nat, r: State)
    requires Inv(s) && Step(true, s, t, r)
    ensures r.waitCount == Total(r.pcs, IsCounted)
    ensures Tokens(r) == Total(r.pcs, IsAwaiting)
    ensures r.posted == r.woken + Bit(r.event) && r.posted == r.signalled + Total(r.pcs, IsAwaiting)
    ensures r.event ==> Total(r.pcs, IsWaiting) >= 1
  {
    StepTotals(s, t, r);
    if Holds(s.pcs[t]) && !s.pcs[t].Await? {
      HolderSeesQuiet(s, t);
    } else {
      OneToken(s);
      TotalNotNegative(s.pcs, InFlight);
    }
    hide Total, MutexOwner;
  }

  /** There is at most one token. */
  lemma OneToken(s: State)
    requires Inv(s)
    ensures Tokens(s) <= 1 && Total(s.pcs, InFlight) >= 0
    ensures s.event ==> !s.ack && Total(s.pcs, InFlight) == 0
    ensures s.ack ==> !s.event && Total(s.pcs, InFlight) == 0
  {
    TotalNotNegative(s.pcs, InFlight);
    AtMostOneAwaits(s);
    hide Total, MutexOwner;
  }

  lemma AtMostOneAwaits(s: State)
    requires MutexOwner(s)
    ensures 0 <= Total(s.pcs, IsAwaiting) <= 1
  {
    TotalNotNegative(s.pcs, IsAwaiting);
    if Total(s.pcs, IsAwaiting) != 0 {
      var t := SomeThread(s.pcs, IsAwaiting);
      var rest := s.pcs[t := Idle];
      TotalUpdate(s.pcs, t, Idle, IsAwaiting);
      forall k | 0 <= k < |rest| ensures IsAwaiting(rest[k]) == 0 {
        assert Holds(s.pcs[t]) && (Holds(s.pcs[k]) ==> s.mutex == Some(k));
      }
      TotalZero(rest, IsAwaiting);
    }
  }

  /**
   A thread about to post, or to test again in a broadcast, still has a waiter to wake: no other thread can take it
   away.
   */
  lemma StepKeepsWaiter(s: State, t: nat, r: State, k: nat)
    requires Inv(s) && Step(true, s, t, r) && k < |r.pcs| && (r.pcs[k].Post? || r.pcs[k] == Test(Loop))
    ensures Total(r.pcs, IsWaiting) >= 1
  {
    StepTotals(s, t, r);
    TotalNotNegative(s.pcs, IsWaiting);
    if k == t {
      HolderSeesQuiet(s, t);
    } else {
      assert r.pcs[k] == s.pcs[k];
      HolderSeesQuiet(s, k);
    }
    hide Total;
  }

  lemma StepKeepsInv(s: State, t: nat, r: State)
    requires Inv(s) && Step(true, s, t, r)
    ensures Inv(r)
  {
    StepKeepsOwner(s, t, r);
    StepKeepsCounts(s, t, r);
    forall k | 0 <= k < |r.pcs| && (r.pcs[k].Post? || r.pcs[k] == Test(Loop)) ensures Total(r.pcs, IsWaiting) >= 1 {
      StepKeepsWaiter(s, t, r, k);
    }
    hide Step, Total, MutexOwner, Tokens;
  }

  /** Every state of every run with serialised signallers satisfies the invariant. */
  lemma {:induction false} RunInv(run: seq<State>, i: nat)
    requires Run(true, run) && i < |run|
    ensures Inv(run[i])
  {
    if i == 0 {
      InitialInv(run[0]);
    } else {
      RunInv(run, i - 1);
      assert Next(true, run[i - 1], run[i - 1 + 1]);
      var t :| Step(true, run[i - 1], t, run[i]);
      StepKeepsInv(run[i - 1], t, run[i]);
    }
  }

  // ---------- what the invariant means

  /** The tokens sum to 1 exactly while a signaller awaits its acknowledgement, and to 0 otherwise. */
  lemma TokensTellAwaiting(s: State)
    requires Inv(s)
    ensures Tokens(s) == if exists t :: 0 <= t < |s.pcs| && s.pcs[t].Await? then 1 else 0
  {
    AtMostOneAwaits(s);
    TotalNotNegative(s.pcs, IsAwaiting);
    if Total(s.pcs, IsAwaiting) == 1 {
      var t := SomeThread(s.pcs, IsAwaiting);
      assert s.pcs[t].Await?;
    }
  }

  /**
   Whenever no signaller awaits, as many waiters have been woken as signals were completed: each effective signal
   releases exactly one.
   */
  lemma EachSignalWakesOne(s: State)
    requires Inv(s) && forall t :: 0 <= t < |s.pcs| ==> !s.pcs[t].Await?
    ensures s.signalled == s.posted == s.woken && !s.event && !s.ack
  {
    TokensTellAwaiting(s);
    OneToken(s);
    TotalZero(s.pcs, IsAwaiting);
  }

  /** A post or an acknowledgement never meets a semaphore that is already posted, so none is lost. */
  lemma NoPostIsLost(s: State, t: nat)
    requires Inv(s) && t < |s.pcs|
    ensures s.pcs[t].Post? ==> !s.event
    ensures s.pcs[t] == Leaving ==> !s.ack
  {
    if s.pcs[t].Post? {
      HolderSeesQuiet(s, t);
    }
    OneToken(s);
    TotalNotNegative(s.pcs, InFlight);
  }

  /** A signaller is never stuck: it can take its acknowledgement, or some waiter can move. */
  lemma SignallerIsNeverStuck(s: State, t: nat)
    requires Inv(s) && t < |s.pcs| && s.pcs[t].Await?
    ensures s.ack || exists k: nat, r: State :: Step(true, s, k, r) && s.pcs[k] in {Waiting, Woken, Leaving}
  {
    if !s.ack {
      TokensTellAwaiting(s);
      var k: nat;
      if s.event {
        k := SomeThread(s.pcs, IsWaiting);
        assert Step(true, s, k, s.(pcs := s.pcs[k := Woken], event := false, woken := s.woken + 1));
      } else {
        k := SomeThread(s.pcs, InFlight);
        if s.pcs[k] == Woken {
          assert Step(true, s, k, s.(pcs := s.pcs[k := Leaving], waitCount := s.waitCount - 1));
        } else {
          assert Step(true, s, k, s.(pcs := s.pcs[k := Returning], ack := true));
        }
      }
    }
  }

  // ---------- a single signal

  predicate InSignal(p: Pc) {
    p in {Test(Plain), Post(Plain), Await(Plain)}
  }

  function IsWoken(p: Pc): int { if p == Woken then 1 else 0 }

  /** Steps of all threads together until a signal returns. */
  function StepsLeft(s: State, b: nat): int
    requires b < |s.pcs|
  {
    match s.pcs[b]
    case Test(_) => 6
    case Post(_) => 5
    case _ => if s.event then 4 else if s.ack then 1 else 2 + Total(s.pcs, IsWoken)
  }

  /** Before the post nothing is outstanding, so no other thread can move. */
  lemma OnlySignallerMoves(s: State, b: nat, t: nat, r: State)
    requires Inv(s) && b < |s.pcs| && InSignal(s.pcs[b]) && !s.pcs[b].Await? && Step(true, s, t, r)
    ensures t == b
  {
    HolderSeesQuiet(s, b);
    TotalNotNegative(s.pcs, InFlight);
    assert Holds(s.pcs[b]) && (Holds(s.pcs[t]) ==> t == b);
    assert forall k :: 0 <= k < |s.pcs| ==> InFlight(s.pcs[k]) <= 0;
  }

  /** Woken threads are among those in flight. */
  lemma WokenAreInFlight(s: State)
    ensures 0 <= Total(s.pcs, IsWoken) <= Total(s.pcs, InFlight)
  {
    TotalNotNegative(s.pcs, IsWoken);
    TotalAtMost(s.pcs, IsWoken, InFlight);
  }

  lemma {:induction false} TotalAtMost(pcs: seq<Pc>, v: Pc -> int, w: Pc -> int)
    requires forall t :: 0 <= t < |pcs| ==> v(pcs[t]) <= w(pcs[t])
    ensures Total(pcs, v) <= Total(pcs, w)
  {
    if pcs != [] {
      TotalAtMost(pcs[..|pcs| - 1], v, w);
    }
  }

  /** While a signal waits there is one token, and it goes from event to wakeup to acknowledgement, a step at a time. */
  lemma TokenMoves(s: State, b: nat, t: nat, r: State)
    requires Inv(s) && b < |s.pcs| && s.pcs[b] == Await(Plain) && Step(true, s, t, r) && t != b
    ensures r.pcs[b] == s.pcs[b] && 1 <= StepsLeft(r, b) == StepsLeft(s, b) - 1
  {
    OneToken(s);
    TokensTellAwaiting(s);
    TotalNotNegative(s.pcs, InFlight);
    TotalNotNegative(s.pcs, IsWoken);
    WokenAreInFlight(s);
    StepTotals(s, t, r);
    TotalUpdate(s.pcs, t, r.pcs[t], IsWoken);
    WokenAreInFlight(r);
    assert Holds(s.pcs[b]) && (Holds(s.pcs[t]) ==> t == b);
    hide Total, MutexOwner;
  }

  /** Every step of any thread brings a signal nearer its return, which takes at most six of them. */
  lemma SignalProgresses(s: State, b: nat, t: nat, r: State)
    requires Inv(s) && b < |s.pcs| && InSignal(s.pcs[b]) && Step(true, s, t, r)
    ensures 1 <= StepsLeft(s, b) <= 6
    ensures if InSignal(r.pcs[b]) then StepsLeft(r, b) < StepsLeft(s, b) else t == b && r.pcs[b] == Inside
  {
    OneToken(s);
    TokensTellAwaiting(s);
    WokenAreInFlight(s);
    if s.pcs[b].Await? {
      if t != b {
        TokenMoves(s, b, t, r);
      }
    } else {
      OnlySignallerMoves(s, b, t, r);
    }
    hide Total, MutexOwner;
  }

  /** States in which thread `b` is inside a signal all along. */
  ghost predicate SignalRun(run: seq<State>, b: nat) {
    && (forall i :: 0 <= i < |run| ==> b < |run[i].pcs| && InSignal(run[i].pcs[b]))
    && forall i :: 0 <= i < |run| - 1 ==> Next(true, run[i], run[i + 1])
  }

  /** No schedule keeps a signal from returning for more than six steps of all threads together. */
  lemma {:induction false} SignalEnds(run: seq<State>, b: nat)
    requires run != [] && Inv(run[0]) && SignalRun(run, b)
    ensures |run| <= StepsLeft(run[0], b) <= 6
    decreases |run|
  {
    OneToken(run[0]);
    TokensTellAwaiting(run[0]);
    WokenAreInFlight(run[0]);
    if |run| > 1 {
      assert Next(true, run[0], run[0 + 1]);
      var t :| Step(true, run[0], t, run[1]);
      SignalProgresses(run[0], b, t, run[1]);
      StepKeepsInv(run[0], t, run[1]);
      var rest := run[1..];
      forall i | 0 <= i < |rest| - 1 ensures Next(true, rest[i], rest[i + 1]) {
        assert Next(true, run[i + 1], run[i + 1 + 1]);
      }
      SignalEnds(rest, b);
    }
  }

  /** Wakeups a signal has yet to bring about. */
  function Owed(s: State, b: nat): int
    requires b < |s.pcs|
  {
    match s.pcs[b]
    case Test(_) => if Total(s.pcs, IsWaiting) > 0 then 1 else 0
    case Post(_) => 1
    case _ => Bit(s.event)
  }

  /** Each step of any thread turns owed wakeups into wakeups, and at its return a signal owes none. */
  lemma OwedIsPaid(s: State, b: nat, t: nat, r: State)
    requires Inv(s) && b < |s.pcs| && InSignal(s.pcs[b]) && Step(true, s, t, r)
    ensures r.woken + (if InSignal(r.pcs[b]) then Owed(r, b) else 0) == s.woken + Owed(s, b)
  {
    OneToken(s);
    TokensTellAwaiting(s);
    TotalNotNegative(s.pcs, IsWaiting);
    if !s.pcs[b].Await? {
      OnlySignallerMoves(s, b, t, r);
      HolderSeesQuiet(s, b);
    } else if t != b {
      TokenMoves(s, b, t, r);
    }
    hide Total, MutexOwner;
  }

  lemma SignalRunTail(run: seq<State>, b: nat)
    requires |run| > 1 && SignalRun(run, b)
    ensures SignalRun(run[1..], b) && Next(true, run[0], run[1])
  {
    hide Next, InSignal;
    assert Next(true, run[0], run[0 + 1]);
    var rest := run[1..];
    forall i | 0 <= i < |rest| - 1 ensures Next(true, rest[i], rest[i + 1]) {
      assert Next(true, run[i + 1], run[i + 1 + 1]);
    }
  }

  /** Whatever a signal owes when the run begins has been woken when it returns. */
  lemma {:induction false} SignalPays(run: seq<State>, b: nat, t: nat, r: State)
    requires run != [] && Inv(run[0]) && SignalRun(run, b)
    requires Step(true, run[|run| - 1], t, r) && b < |r.pcs| && !InSignal(r.pcs[b])
    ensures r.woken == run[0].woken + Owed(run[0], b)
    decreases |run|
  {
    if |run| == 1 {
      OwedIsPaid(run[0], b, t, r);
    } else {
      SignalRunTail(run, b);
      var u :| Step(true, run[0], u, run[1]);
      OwedIsPaid(run[0], b, u, run[1]);
      StepKeepsInv(run[0], u, run[1]);
      hide Owed, Next, Step, Inv;
      SignalPays(run[1..], b, t, r);
    }
  }

  /** A signal wakes exactly one of those who wait when it is called, and nobody if there is none. */
  lemma SignalWakesOne(run: seq<State>, b: nat, t: nat, r: State)
    requires run != [] && Inv(run[0]) && SignalRun(run, b)
    requires Step(true, run[|run| - 1], t, r) && b < |r.pcs| && !InSignal(r.pcs[b])
    ensures r.woken == run[0].woken + Owed(run[0], b)
    ensures run[0].pcs[b].Test? ==>
              r.woken == run[0].woken + if exists k :: 0 <= k < |run[0].pcs| && run[0].pcs[k] == Waiting then 1 else 0
  {
    SignalPays(run, b, t, r);
    WaitingCounts(run[0].pcs);
    hide Step, SignalRun;
  }

  lemma WaitingCounts(pcs: seq<Pc>)
    ensures Total(pcs, IsWaiting) > 0 <==> exists k :: 0 <= k < |pcs| && pcs[k] == Waiting
  {
    TotalNotNegative(pcs, IsWaiting);
    if Total(pcs, IsWaiting) > 0 {
      var k := SomeThread(pcs, IsWaiting);
    }
    if k :| 0 <= k < |pcs| && pcs[k] == Waiting {
      assert IsWaiting(pcs[k]) == 1;
    }
  }

  /** While a thread is inside a signal or a broadcast, some thread can take a step. */
  lemma CallerIsNeverStuck(s: State, b: nat)
    requires Inv(s) && b < |s.pcs| && (InSignal(s.pcs[b]) || InBroadcast(s.pcs[b]))
    ensures exists t: nat, r: State :: Step(true, s, t, r)
  {
    match s.pcs[b] {
      case LoopTest =>
        assert Step(true, s, b, s.(pcs := s.pcs[b := if s.waitCount == 0 then Inside else Test(Loop)]));
      case Test(c) =>
        assert Step(true, s, b, s.(pcs := s.pcs[b := if s.waitCount == 0 then After(c) else Post(c)]));
      case Post(c) =>
        assert Step(true, s, b, s.(pcs := s.pcs[b := Await(c)], event := true, posted := s.posted + 1));
      case Await(c) =>
        if s.ack {
          assert Step(true, s, b, s.(pcs := s.pcs[b := After(c)], ack := false, signalled := s.signalled + 1));
        } else {
          SignallerIsNeverStuck(s, b);
        }
    }
  }

  // ---------- broadcast

  predicate InBroadcast(p: Pc) {
    p in {LoopTest, Test(Loop), Post(Loop), Await(Loop)}
  }

  /** How many steps a thread can still contribute to a broadcast in progress. */
  function Weight(p: Pc): int {
    match p
    case Waiting => 10
    case Woken => 9
    case Leaving => 8
    case LoopTest => 3
    case Test(c) => if c == Loop then 2 else 0
    case Post(c) => if c == Loop then 1 else 0
    case _ => 0
  }

  function Measure(s: State): int {
    Total(s.pcs, Weight) + if s.ack then 7 else 0
  }

  lemma StepMeasure(s: State, t: nat, r: State)
    requires Step(true, s, t, r)
    ensures r.pcs == s.pcs[t := r.pcs[t]]
    ensures Measure(r) == Measure(s) - Weight(s.pcs[t]) + Weight(r.pcs[t]) - (if s.ack then 7 else 0) + (if r.ack then 7 else 0)
  {
    assert r.pcs == s.pcs[t := r.pcs[t]];
    TotalUpdate(s.pcs, t, r.pcs[t], Weight);
  }

  /** The other threads can only be woken waiters on their way out. */
  lemma WaiterProgresses(s: State, b: nat, t: nat, r: State)
    requires Inv(s) && b < |s.pcs| && InBroadcast(s.pcs[b]) && Step(true, s, t, r) && t != b
    ensures r.pcs[b] == s.pcs[b] && Measure(r) < Measure(s)
  {
    assert Holds(s.pcs[b]) && (Holds(s.pcs[t]) ==> t == b);
    StepMeasure(s, t, r);
    OneToken(s);
    TotalNotNegative(s.pcs, InFlight);
    hide Total, MutexOwner, Measure;
  }

  lemma LoopProgresses(s: State, b: nat, r: State)
    requires Inv(s) && b < |s.pcs| && InBroadcast(s.pcs[b]) && Step(true, s, b, r)
    ensures if InBroadcast(r.pcs[b]) then Measure(r) < Measure(s) else r.pcs[b] == Inside && r.waitCount == 0 && s.waitCount == 0
  {
    StepMeasure(s, b, r);
    if !s.pcs[b].Await? {
      HolderSeesQuiet(s, b);
    }
    TotalNotNegative(s.pcs, IsWaiting);
    hide Total, MutexOwner, Measure;
  }

  lemma NobodyWaits(s: State, b: nat)
    requires Inv(s) && b < |s.pcs| && s.pcs[b] == LoopTest && s.waitCount == 0
    ensures forall k :: 0 <= k < |s.pcs| ==> s.pcs[k] != Waiting
  {
    HolderSeesQuiet(s, b);
    TotalNotNegative(s.pcs, IsWaiting);
    assert forall k :: 0 <= k < |s.pcs| ==> IsWaiting(s.pcs[k]) <= 0;
  }

  /**
   While thread `b` broadcasts, every step of any thread brings the end nearer, until the step that ends it with
   nobody left waiting.
   */
  lemma BroadcastProgresses(s: State, b: nat, t: nat, r: State)
    requires Inv(s) && b < |s.pcs| && InBroadcast(s.pcs[b]) && Step(true, s, t, r)
    ensures Measure(s) >= 0
    ensures if InBroadcast(r.pcs[b]) then Measure(r) < Measure(s)
            else t == b && r.pcs[b] == Inside && r.waitCount == 0 && forall k :: 0 <= k < |r.pcs| ==> r.pcs[k] != Waiting
  {
    TotalNotNegative(s.pcs, Weight);
    if t == b {
      LoopProgresses(s, b, r);
      if !InBroadcast(r.pcs[b]) {
        NobodyWaits(s, b);
      }
    } else {
      WaiterProgresses(s, b, t, r);
    }
  }

  /** States in which thread `b` is broadcasting all along. */
  ghost predicate BroadcastRun(run: seq<State>, b: nat) {
    && (forall i :: 0 <= i < |run| ==> b < |run[i].pcs| && InBroadcast(run[i].pcs[b]))
    && forall i :: 0 <= i < |run| - 1 ==> Next(true, run[i], run[i + 1])
  }

  /** No schedule keeps a broadcast going for more steps than its measure at the start. */
  lemma {:induction false} BroadcastEnds(run: seq<State>, b: nat)
    requires run != [] && Inv(run[0]) && BroadcastRun(run, b)
    ensures |run| - 1 <= Measure(run[0])
    decreases |run|
  {
    if |run| == 1 {
      TotalNotNegative(run[0].pcs, Weight);
    } else {
      assert Next(true, run[0], run[0 + 1]);
      var t :| Step(true, run[0], t, run[1]);
      BroadcastProgresses(run[0], b, t, run[1]);
      StepKeepsInv(run[0], t, run[1]);
      var rest := run[1..];
      forall i | 0 <= i < |rest| - 1 ensures Next(true, rest[i], rest[i + 1]) {
        assert Next(true, run[i + 1], run[i + 1 + 1]);
      }
      BroadcastEnds(rest, b);
    }
  }

  // ---------- without the mutex

  /** A signaller that waits for an acknowledgement nobody is going to send. */
  ghost predicate Hangs(s: State, t: nat) {
    && t < |s.pcs| && s.pcs[t].Await? && !s.event && !s.ack
    && forall k :: 0 <= k < |s.pcs| ==> s.pcs[k] !in {Counted, Waiting, Woken, Leaving}
  }

  /** With the mutex no run leads there. */
  lemma SerialisedNeverHang(run: seq<State>, i: nat, t: nat)
    requires Run(true, run) && i < |run|
    ensures !Hangs(run[i], t)
  {
    RunInv(run, i);
    if t < |run[i].pcs| && run[i].pcs[t].Await? {
      SignallerIsNeverStuck(run[i], t);
    }
  }

  lemma ExtendRun(run: seq<State>, t: nat, r: State) returns (more: seq<State>)
    requires Run(false, run) && Step(false, run[|run| - 1], t, r)
    ensures Run(false, more) && more[|more| - 1] == r
  {
    more := run + [r];
    forall i | 0 <= i < |more| - 1 ensures Next(false, more[i], more[i + 1]) {
      if i < |run| - 1 {
        assert Next(false, run[i], run[i + 1]);
      }
    }
  }

  lemma BothSeeTheWaiter() returns (run: seq<State>)
    ensures Run(false, run)
    ensures run[|run| - 1] == State([Waiting, Post(Unlocked), Post(Unlocked)], 1, false, false, None, 0, 0, 0)
  {
    var u, w := Unlocked, Waiting;
    run := [State([Idle, Idle, Idle], 0, false, false, None, 0, 0, 0)];
    run := ExtendRun(run, 0, State([Inside, Idle, Idle], 0, false, false, Some(0), 0, 0, 0));
    run := ExtendRun(run, 0, State([Counted, Idle, Idle], 1, false, false, Some(0), 0, 0, 0));
    run := ExtendRun(run, 0, State([w, Idle, Idle], 1, false, false, None, 0, 0, 0));
    run := ExtendRun(run, 1, State([w, Test(u), Idle], 1, false, false, None, 0, 0, 0));
    run := ExtendRun(run, 1, State([w, Post(u), Idle], 1, false, false, None, 0, 0, 0));
    run := ExtendRun(run, 2, State([w, Post(u), Test(u)], 1, false, false, None, 0, 0, 0));
    run := ExtendRun(run, 2, State([w, Post(u), Post(u)], 1, false, false, None, 0, 0, 0));
  }

  /** Serialising is needed: two signallers without the mutex can both see one waiter, lose a post, and one hangs. */
  lemma UnserialisedSignallersCanHang() returns (run: seq<State>)
    ensures Run(false, run) && Hangs(run[|run| - 1], 2)
  {
    var u, w := Unlocked, Waiting;
    run := BothSeeTheWaiter();
    run := ExtendRun(run, 1, State([w, Await(u), Post(u)], 1, true, false, None, 1, 0, 0));
    run := ExtendRun(run, 2, State([w, Await(u), Await(u)], 1, true, false, None, 2, 0, 0));
    run := ExtendRun(run, 0, State([Woken, Await(u), Await(u)], 1, false, false, None, 2, 1, 0));
    run := ExtendRun(run, 0, State([Leaving, Await(u), Await(u)], 0, false, false, None, 2, 1, 0));
    run := ExtendRun(run, 0, State([Returning, Await(u), Await(u)], 0, false, true, None, 2, 1, 0));
    run := ExtendRun(run, 1, State([Returning, Idle, Await(u)], 0, false, false, None, 2, 1, 1));
  }
}

/** pthread_once: double-checked initialisation as a machine of atomic steps. */
module Os2Once {
  import opened PrefixCodes

  datatype Pc = Start | WantLock | Locked | Running | SetDone | Unlock | Returned

  /** `begun` and `finished` count the calls of the init routine. */
  datatype State = State(pcs: seq<Pc>, done: bool, owner: Option<nat>, begun: nat, finished: nat)

  predicate Owns(p: Pc) { p in {Locked, Running, SetDone, Unlock} }

  ghost predicate Step(s: State, t: nat, r: State) {
    t < |s.pcs| &&
    match s.pcs[t]
    case Start => r == s.(pcs := s.pcs[t := if s.done then Returned else WantLock])
    case WantLock => s.owner == None && r == s.(pcs := s.pcs[t := Locked], owner := Some(t))
    case Locked => r == if s.done then s.(pcs := s.pcs[t := Unlock]) else s.(pcs := s.pcs[t := Running], begun := s.begun + 1)
    case Running => r == s.(pcs := s.pcs[t := SetDone], finished := s.finished + 1)
    case SetDone => r == s.(pcs := s.pcs[t := Unlock], done := true)
    case Unlock => r == s.(pcs := s.pcs[t := Returned], owner := None)
    case Returned => r == s.(pcs := s.pcs[t := Start])
  }

  /** The routine runs at most once; `done` is raised only after it has finished; nobody returns before that. */
  ghost predicate Inv(s: State) {
    && (forall t :: 0 <= t < |s.pcs| && Owns(s.pcs[t]) ==> s.owner == Some(t))
    && (s.owner.Some? ==> s.owner.value < |s.pcs| && Owns(s.pcs[s.owner.value]))
    && (forall t :: 0 <= t < |s.pcs| ==>
          (s.pcs[t] == Running ==> !s.done && s.begun == 1 && s.finished == 0) &&
          (s.pcs[t] == SetDone ==> !s.done && s.begun == 1 && s.finished == 1) &&
          (s.pcs[t] in {Unlock, Returned} ==> s.done))
    && (s.done ==> s.begun == 1 && s.finished == 1)
    && (!s.done && (s.owner.None? || s.pcs[s.owner.value] == Locked) ==> s.begun == 0 && s.finished == 0)
  }

  lemma OnceStepKeepsInv(s: State, t: nat, r: State)
    requires Inv(s) && Step(s, t, r)
    ensures Inv(r)
  {
    assert r.pcs == s.pcs[t := r.pcs[t]];
  }

  ghost predicate Next(s: State, r: State) {
    exists t :: Step(s, t, r)
  }

  /** In every run the init routine is begun at most once, and whoever has returned finds it finished. */
  lemma {:induction false} InitRunsOnce(run: seq<State>, i: nat)
    requires run != [] && i < |run|
    requires forall t :: 0 <= t < |run[0].pcs| ==> run[0].pcs[t] == Start
    requires run[0] == State(run[0].pcs, false, None, 0, 0)
    requires forall k :: 0 <= k < |run| - 1 ==> Next(run[k], run[k + 1])
    ensures Inv(run[i]) && run[i].begun <= 1
    ensures forall t :: 0 <= t < |run[i].pcs| && run[i].pcs[t] == Returned ==> run[i].begun == run[i].finished == 1
  {
    if i > 0 {
      InitRunsOnce(run, i - 1);
      assert Next(run[i - 1], run[i - 1 + 1]);
      var t :| Step(run[i - 1], t, run[i]);
      OnceStepKeepsInv(run[i - 1], t, run[i]);
    }
  }
}
