/** The table of 100 slots that puts interleaved frame fragments together. */
module FourXmFragments {
  import opened PrefixCodes
  import opened Bytes

  const SLOTS: nat := 100
  /** Bytes a slot can hold: an unsigned int less the input padding. */
  const CAPACITY: nat := 0xFFFF_FFFF - 64

  /** The `size` bytes at the start of a slot's buffer; id 0 marks a slot never used or given back. */
  datatype Slot = Slot(id: int, data: seq<Byte>)

  datatype Fragment = Fragment(id: int, wholeSize: int, data: seq<Byte>)

  /** `NoSlot` stands for an access before the start of the table, after which nothing is known of it. */
  datatype Outcome = Pending | Done(frame: seq<Byte>) | Invalid | NoSlot

  // ---------- the table on values

  function Matching(slots: seq<Slot>, id: int, n: nat): (i: nat)
    requires n <= |slots|
    ensures i <= n && (i < n ==> slots[i].id == id) && forall k :: 0 <= k < i ==> slots[k].id != id
  {
    if n == 0 then 0
    else
      var i := Matching(slots, id, n - 1);
      if i < n - 1 then i else if slots[n - 1].id == id then n - 1 else n
  }

  function LastFree(slots: seq<Slot>, n: nat): (r: Option<nat>)
    requires n <= |slots|
    ensures r.Some? ==> r.value < n && slots[r.value].data == [] && forall k :: r.value < k < n ==> slots[k].data != []
    ensures r.None? ==> forall k :: 0 <= k < n ==> slots[k].data != []
  {
    if n == 0 then None else if slots[n - 1].data == [] then Some(n - 1) else LastFree(slots, n - 1)
  }

  /** The slot a fragment goes to: the first with its id, else the last of size 0. */
  function Place(slots: seq<Slot>, id: int): (r: Option<nat>)
    ensures r.Some? ==> r.value < |slots|
  {
    var i := Matching(slots, id, |slots|);
    if i < |slots| then Some(i) else LastFree(slots, |slots|)
  }

  /** One fragment for the slot at `i`, whatever its id and size. */
  function SlotStep(slots: seq<Slot>, i: nat, f: Fragment): (r: (seq<Slot>, Outcome))
    requires i < |slots|
    ensures |r.0| == |slots|
  {
    var old_ := slots[i].data;
    var joined := old_ + f.data;
    if |f.data| > CAPACITY - |old_| then (slots[i := Slot(f.id, old_)], Invalid)
    else if |joined| >= f.wholeSize then (slots[i := Slot(0, [])], Done(joined))
    else (slots[i := Slot(f.id, joined)], Pending)
  }

  class FragmentTable {
    const version: int
    const slots: array<Slot>

    ghost predicate Valid()
      reads this
    {
      slots.Length == SLOTS
    }

    constructor (version: int)
      ensures Valid() && fresh(slots) && this.version == version && forall k :: 0 <= k < SLOTS ==> slots[k] == Slot(0, [])
    {
      this.version := version;
      slots := new Slot[SLOTS](i => Slot(0, []));
    }

    /** The cfrm branch of decode_frame, which has no test for a full table. */
    method Cfrm(f: Fragment) returns (r: Outcome)
      requires Valid()
      modifies slots
      ensures Valid()
      ensures version <= 1 || f.wholeSize < 0 ==> r == Invalid && slots[..] == old(slots[..])
      ensures version > 1 && f.wholeSize >= 0 ==> (r == NoSlot <==> Place(old(slots[..]), f.id) == None)
      ensures version > 1 && f.wholeSize >= 0 && r != NoSlot ==>
                (slots[..], r) == SlotStep(old(slots[..]), Place(old(slots[..]), f.id).value, f)
    {
      if version <= 1 || f.wholeSize < 0 {
        return Invalid;
      }
      var freeIndex: Option<nat> := None;
      var i := 0;
      while i < SLOTS && slots[i].id != f.id
        invariant i <= SLOTS && forall k :: 0 <= k < i ==> slots[k].id != f.id
        invariant freeIndex == LastFree(slots[..], i)
      {
        if slots[i].data == [] {
          freeIndex := Some(i);
        }
        i := i + 1;
      }
      ghost var before := slots[..];
      assert Matching(before, f.id, SLOTS) == i;
      if i >= SLOTS {
        if freeIndex.None? {
          return NoSlot;
        }
        i := freeIndex.value;
        slots[i] := Slot(f.id, slots[i].data);
      }
      assert slots[..] == before[i := Slot(f.id, before[i].data)];
      if |f.data| > CAPACITY - |slots[i].data| {
        return Invalid;
      }
      slots[i] := Slot(slots[i].id, slots[i].data + f.data);
      if |slots[i].data| >= f.wholeSize {
        r := Done(slots[i].data);
        slots[i] := Slot(0, []);
        assert slots[..] == before[i := Slot(0, [])];
      } else {
        r := Pending;
        assert slots[..] == before[i := Slot(f.id, before[i].data + f.data)];
      }
    }
  }

  // ---------- what the table stands for

  /** Frames in flight by id. */
  type Flight = map<int, seq<Byte>>

  function Held(m: Flight, id: int): seq<Byte> {
    if id in m then m[id] else []
  }

  function FlightStep(m: Flight, f: Fragment): (r: (Flight, Outcome)) {
    var joined := Held(m, f.id) + f.data;
    if f.wholeSize < 0 || |f.data| > CAPACITY - |Held(m, f.id)| then (m, Invalid)
    else if |joined| >= f.wholeSize then (m - {f.id}, Done(joined))
    else (m[f.id := joined], Pending)
  }

  /** A slot is free exactly if its size is 0, exactly if its id is 0; no id has two slots. */
  ghost predicate Consistent(slots: seq<Slot>) {
    && |slots| == SLOTS
    && (forall i :: 0 <= i < SLOTS ==> (slots[i].id == 0 <==> slots[i].data == []) && |slots[i].data| <= CAPACITY)
    && (forall i, j :: 0 <= i < j < SLOTS && slots[i].id != 0 ==> slots[i].id != slots[j].id)
  }

  ghost function Ids(slots: seq<Slot>): set<int> {
    set i | 0 <= i < |slots| && slots[i].id != 0 :: slots[i].id
  }

  ghost function View(slots: seq<Slot>): Flight {
    map id | id in Ids(slots) :: (var i := Matching(slots, id, |slots|); if i < |slots| then slots[i].data else [])
  }

  /** Looking an id up in the view gives its slot's bytes. */
  lemma ViewAt(slots: seq<Slot>, i: nat)
    requires Consistent(slots) && i < SLOTS && slots[i].id != 0
    ensures slots[i].id in View(slots) && View(slots)[slots[i].id] == slots[i].data && Matching(slots, slots[i].id, SLOTS) == i
  {
    assert slots[i].id in Ids(slots);
    var k := Matching(slots, slots[i].id, SLOTS);
    assert k <= i;
  }

  lemma ViewMisses(slots: seq<Slot>, id: int)
    requires Consistent(slots) && Matching(slots, id, SLOTS) == SLOTS
    ensures id !in View(slots)
  {
  }

  /** A slot whose id is 0 is not seen. */
  lemma ViewHas(slots: seq<Slot>, id: int) returns (k: nat)
    requires Consistent(slots) && id in View(slots)
    ensures k < SLOTS && slots[k].id == id != 0 && View(slots)[id] == slots[k].data
  {
    k :| 0 <= k < SLOTS && slots[k].id == id;
    ViewAt(slots, k);
  }

  /** Giving slot `i` a new id and contents changes the view there and nowhere else. */
  lemma ViewUpdate(slots: seq<Slot>, i: nat, s: Slot, id: int)
    requires Consistent(slots) && i < SLOTS && Consistent(slots[i := s])
    requires s.id != 0 ==> slots[i].id == s.id || s.id !in View(slots)
    ensures id == s.id != 0 ==> id in View(slots[i := s]) && View(slots[i := s])[id] == s.data
    ensures id != s.id && id == slots[i].id ==> id !in View(slots[i := s])
    ensures id != s.id && id != slots[i].id ==> (id in View(slots[i := s]) <==> id in View(slots))
    ensures id != s.id && id != slots[i].id && id in View(slots) ==> View(slots[i := s])[id] == View(slots)[id]
  {
    hide View;
    var t := slots[i := s];
    if s.id != 0 {
      assert t[i] == s;
      ViewAt(t, i);
    }
    if id in View(t) && id != s.id {
      var k := ViewHas(t, id);
      assert k != i && slots[k] == t[k];
      ViewAt(slots, k);
    }
    if id in View(slots) && id != slots[i].id && id != s.id {
      var k := ViewHas(slots, id);
      assert k != i && slots[k] == t[k];
      ViewAt(t, k);
    }
  }

  lemma ZeroIsNotSeen(slots: seq<Slot>)
    ensures 0 !in View(slots)
  {
  }

  /** What the container sends: a frame id, some bytes, a size that is an int. */
  ghost predicate WellFormed(f: Fragment) {
    f.id != 0 && f.data != [] && |f.data| < 0x8000_0000 && f.wholeSize >= 0
  }

  lemma HeldIsThere(slots: seq<Slot>, id: int)
    requires Consistent(slots) && Place(slots, id).Some? && id != 0
    ensures var i := Place(slots, id).value;
            Held(View(slots), id) == slots[i].data && (slots[i].id == id || (slots[i] == Slot(0, []) && id !in View(slots)))
  {
    hide View;
    var i := Place(slots, id).value;
    if Matching(slots, id, SLOTS) < SLOTS {
      ViewAt(slots, i);
    } else {
      ViewMisses(slots, id);
    }
  }

  /**
   Exactly the fragments that keep the table consistent: a refused one must not have claimed a new slot; any that
   completes a frame will do; any other must leave bytes held just if its id is not 0.
   */
  lemma ConsistentIff(slots: seq<Slot>, f: Fragment)
    requires Consistent(slots) && Place(slots, f.id).Some?
    ensures var held := Held(View(slots), f.id);
            Consistent(SlotStep(slots, Place(slots, f.id).value, f).0) <==>
            if |f.data| > CAPACITY - |held| then f.id == 0 || f.id in View(slots)
            else |held| + |f.data| >= f.wholeSize || ((f.id != 0) == (f.data != [] || f.id in View(slots)))
  {
    var i := Place(slots, f.id).value;
    var t := SlotStep(slots, i, f).0;
    ZeroIsNotSeen(slots);
    PlacedHolds(slots, f.id);
    if f.id != 0 {
      ViewMissesNew(slots, i, f.id);
    }
    hide View, Held, Place, Consistent;
    OneSlotDecides(slots, i, t[i]);
    SlotSizes(slots, i);
    assert t == slots[i := t[i]];
  }

  lemma SlotSizes(slots: seq<Slot>, i: nat)
    requires Consistent(slots) && i < SLOTS
    ensures (slots[i].id == 0 <==> slots[i].data == []) && |slots[i].data| <= CAPACITY
  {
  }

  /** A new id that no other slot has: consistency is a matter of the slot itself. */
  lemma OneSlotDecides(slots: seq<Slot>, i: nat, s: Slot)
    requires Consistent(slots) && i < SLOTS
    requires s.id != 0 ==> forall k :: 0 <= k < SLOTS && k != i ==> slots[k].id != s.id
    ensures Consistent(slots[i := s]) <==> (s.id == 0 <==> s.data == []) && |s.data| <= CAPACITY
  {
    assert slots[i := s][i] == s;
  }

  /** The slot a fragment goes to holds what is in flight for its id. */
  lemma PlacedHolds(slots: seq<Slot>, id: int)
    requires Consistent(slots) && Place(slots, id).Some?
    ensures Held(View(slots), id) == slots[Place(slots, id).value].data
    ensures id == 0 ==> slots[Place(slots, id).value] == Slot(0, [])
  {
    if id == 0 {
      ZeroIsNotSeen(slots);
    } else {
      HeldIsThere(slots, id);
    }
  }

  lemma ViewMissesNew(slots: seq<Slot>, i: nat, id: int)
    requires Consistent(slots) && id != 0 && Place(slots, id) == Some(i)
    ensures forall k :: 0 <= k < SLOTS && k != i ==> slots[k].id != id
    ensures slots[i].id == id <==> id in View(slots)
  {
    hide View;
    if Matching(slots, id, SLOTS) < SLOTS {
      ViewAt(slots, i);
    } else {
      ViewMisses(slots, id);
    }
  }

  /** A step keeps the table consistent: the other slots are untouched and none of them has the fragment's id. */
  lemma StepKeepsConsistent(slots: seq<Slot>, f: Fragment)
    requires Consistent(slots) && Place(slots, f.id).Some? && WellFormed(f)
    ensures Consistent(SlotStep(slots, Place(slots, f.id).value, f).0)
    ensures SlotStep(slots, Place(slots, f.id).value, f).1 == Invalid ==> SlotStep(slots, Place(slots, f.id).value, f).0 == slots
  {
    var i := Place(slots, f.id).value;
    var t := SlotStep(slots, i, f).0;
    HeldIsThere(slots, f.id);
    ViewMissesNew(slots, i, f.id);
    hide View, Place, Held, Consistent;
    SlotSizes(slots, i);
    OneSlotDecides(slots, i, t[i]);
    assert t == slots[i := t[i]];
  }

  ghost function After(m: Flight, id: int, s: Slot): Flight {
    if s.id == 0 then m - {id} else m[id := s.data]
  }

  lemma KeyAfter(slots: seq<Slot>, i: nat, s: Slot, id: int, k: int)
    requires Consistent(slots) && i < SLOTS && Consistent(slots[i := s]) && id != 0
    requires slots[i].id == id || (slots[i].id == 0 && id !in View(slots))
    requires s.id == 0 || s.id == id
    ensures k in View(slots[i := s]) <==> k in After(View(slots), id, s)
    ensures k in View(slots[i := s]) ==> View(slots[i := s])[k] == After(View(slots), id, s)[k]
  {
    var t := slots[i := s];
    hide View, Consistent;
    ViewUpdate(slots, i, s, k);
    ZeroIsNotSeen(slots);
    ZeroIsNotSeen(t);
  }

  /** Changing the slot of one id changes the view at that id. */
  lemma ViewAfter(slots: seq<Slot>, i: nat, s: Slot, id: int)
    requires Consistent(slots) && i < SLOTS && Consistent(slots[i := s]) && id != 0
    requires slots[i].id == id || (slots[i].id == 0 && id !in View(slots))
    requires s.id == 0 || s.id == id
    ensures View(slots[i := s]) == After(View(slots), id, s)
  {
    assert |slots| == SLOTS;
    hide *;
    var t, goal := slots[i := s], After(View(slots), id, s);
    forall k
      ensures k in View(t) <==> k in goal
      ensures k in View(t) ==> View(t)[k] == goal[k]
    {
      KeyAfter(slots, i, s, id, k);
    }
  }

  /** One well-formed fragment acts on the table as it does on the map of frames in flight. */
  lemma StepRefines(slots: seq<Slot>, f: Fragment)
    requires Consistent(slots) && Place(slots, f.id).Some? && WellFormed(f)
    ensures Consistent(SlotStep(slots, Place(slots, f.id).value, f).0)
    ensures View(SlotStep(slots, Place(slots, f.id).value, f).0) == FlightStep(View(slots), f).0
    ensures SlotStep(slots, Place(slots, f.id).value, f).1 == FlightStep(View(slots), f).1
  {
    var i := Place(slots, f.id).value;
    var r := SlotStep(slots, i, f);
    HeldIsThere(slots, f.id);
    StepKeepsConsistent(slots, f);
    if r.1 != Invalid {
      hide View, Consistent, Place, Held;
      assert r.0 == slots[i := r.0[i]];
      ViewAfter(slots, i, r.0[i], f.id);
    }
  }

  // ---------- when a slot is found

  ghost function UsedIds(slots: seq<Slot>, n: nat): set<int>
    requires n <= |slots|
  {
    set i | 0 <= i < n && slots[i].id != 0 :: slots[i].id
  }

  /** With no free slot among the first `n`, they hold `n` different ids. */
  lemma {:induction false} FullTable(slots: seq<Slot>, n: nat)
    requires Consistent(slots) && n <= SLOTS
    ensures |UsedIds(slots, n)| <= n
    ensures |UsedIds(slots, n)| == n <==> forall k :: 0 <= k < n ==> slots[k].id != 0
  {
    assert |slots| == SLOTS;
    hide Consistent;
    if n > 0 {
      FullTable(slots, n - 1);
      OneMoreId(slots, n - 1);
      hide UsedIds;
    } else {
      assert UsedIds(slots, 0) == {};
    }
  }

  lemma OneMoreId(slots: seq<Slot>, n: nat)
    requires Consistent(slots) && n < SLOTS
    ensures |UsedIds(slots, n + 1)| == |UsedIds(slots, n)| + (if slots[n].id != 0 then 1 else 0)
  {
    var a, id := UsedIds(slots, n), slots[n].id;
    if id == 0 {
      assert UsedIds(slots, n + 1) == a;
    } else {
      assert id !in a;
      assert UsedIds(slots, n + 1) == a + {id};
    }
  }

  /** A slot is found exactly when the fragment's frame is in flight or fewer than 100 are. */
  lemma PlaceFoundIff(slots: seq<Slot>, id: int)
    requires Consistent(slots) && id != 0
    ensures Place(slots, id).Some? <==> id in View(slots) || |View(slots)| < SLOTS
  {
    assert View(slots).Keys == Ids(slots) == UsedIds(slots, SLOTS);
    FullTable(slots, SLOTS);
    if id in View(slots) {
      var k := ViewHas(slots, id);
    } else if Matching(slots, id, SLOTS) < SLOTS {
      ViewAt(slots, Matching(slots, id, SLOTS));
    }
  }

  // ---------- runs

  /** The map after a run of fragments. */
  function Flown(h: seq<Fragment>): Flight {
    if h == [] then map[] else FlightStep(Flown(h[..|h| - 1]), h[|h| - 1]).0
  }

  /** What the `k`-th fragment of a run led to. */
  function OutcomeAt(h: seq<Fragment>, k: nat): Outcome
    requires k < |h|
  {
    FlightStep(Flown(h[..k]), h[k]).1
  }

  /** Index behind the last fragment before `n` that completed a frame of this id. */
  function Since(h: seq<Fragment>, n: nat, id: int): (s: nat)
    requires n <= |h|
    ensures s <= n
  {
    if n == 0 then 0
    else if h[n - 1].id == id && OutcomeAt(h, n - 1).Done? then n
    else Since(h, n - 1, id)
  }

  /** Behind it no frame of this id has been completed; right before it one has, if it is not the start. */
  lemma {:induction false} SinceMeans(h: seq<Fragment>, n: nat, id: int)
    requires n <= |h|
    ensures var s := Since(h, n, id);
            (forall k :: s <= k < n && h[k].id == id ==> !OutcomeAt(h, k).Done?) &&
            (s > 0 ==> h[s - 1].id == id && OutcomeAt(h, s - 1).Done?)
  {
    hide OutcomeAt;
    if n > 0 {
      SinceMeans(h, n - 1, id);
    }
  }

  /** The accepted bytes of one id from index `first` up to `end`, in order of arrival. */
  function Gathered(h: seq<Fragment>, first: nat, end: nat, id: int): seq<Byte>
    requires first <= end <= |h|
    decreases end
  {
    if first == end then []
    else Gathered(h, first, end - 1, id) +
         if h[end - 1].id == id && OutcomeAt(h, end - 1) != Invalid then h[end - 1].data else []
  }

  lemma HeldAfter(m: Flight, f: Fragment, id: int)
    ensures Held(FlightStep(m, f).0, id) ==
              if f.id != id || FlightStep(m, f).1 == Invalid then Held(m, id)
              else if FlightStep(m, f).1.Done? then []
              else Held(m, id) + f.data
  {
  }

  /** Bytes held grow with every accepted fragment and vanish with a complete frame ... */
  lemma HeldStep(h: seq<Fragment>, n: nat, id: int)
    requires 0 < n <= |h|
    ensures Held(Flown(h[..n]), id) ==
              if h[n - 1].id == id && OutcomeAt(h, n - 1).Done? then []
              else if h[n - 1].id == id && OutcomeAt(h, n - 1) != Invalid then Held(Flown(h[..n - 1]), id) + h[n - 1].data
              else Held(Flown(h[..n - 1]), id)
  {
    var m, f := Flown(h[..n - 1]), h[n - 1];
    assert h[..n][..n - 1] == h[..n - 1] && h[..n][n - 1] == f;
    HeldAfter(m, f, id);
  }

  /** ... and so do the bytes gathered. */
  lemma GatherStep(h: seq<Fragment>, n: nat, id: int)
    requires 0 < n <= |h|
    ensures Gathered(h, Since(h, n, id), n, id) ==
              if h[n - 1].id == id && OutcomeAt(h, n - 1).Done? then []
              else if h[n - 1].id == id && OutcomeAt(h, n - 1) != Invalid then
                Gathered(h, Since(h, n - 1, id), n - 1, id) + h[n - 1].data
              else Gathered(h, Since(h, n - 1, id), n - 1, id)
  {
    hide OutcomeAt;
  }

  /**
   The bytes held for an id are those that arrived for it since its last complete frame, however the ids interleave.
   */
  lemma {:induction false} HeldIsGathered(h: seq<Fragment>, n: nat, id: int)
    requires n <= |h|
    ensures Held(Flown(h[..n]), id) == Gathered(h, Since(h, n, id), n, id)
  {
    if n > 0 {
      HeldIsGathered(h, n - 1, id);
      HeldStep(h, n, id);
      GatherStep(h, n, id);
    }
  }

  /** A completed frame is the concatenation, in arrival order, of its id's fragments since that id's previous frame. */
  lemma FrameIsItsFragments(h: seq<Fragment>, k: nat)
    requires k < |h| && OutcomeAt(h, k).Done?
    ensures OutcomeAt(h, k).frame == Gathered(h, Since(h, k, h[k].id), k + 1, h[k].id)
    ensures |OutcomeAt(h, k).frame| >= h[k].wholeSize
  {
    HeldIsGathered(h, k, h[k].id);
  }

  /** And it is completed as soon as that is as long as announced: an accepted fragment that leaves it shorter waits. */
  lemma FrameIsDoneIff(h: seq<Fragment>, k: nat)
    requires k < |h| && OutcomeAt(h, k) != Invalid
    ensures OutcomeAt(h, k).Done? <==> |Gathered(h, Since(h, k, h[k].id), k + 1, h[k].id)| >= h[k].wholeSize
  {
    HeldIsGathered(h, k, h[k].id);
  }

  /** The table after a run; a fragment without a slot ends the run. */
  function TableAfter(h: seq<Fragment>): (t: Option<seq<Slot>>)
    ensures t.Some? ==> |t.value| == SLOTS
  {
    if h == [] then Some(seq(SLOTS, i => Slot(0, [])))
    else
      match TableAfter(h[..|h| - 1])
      case None => None
      case Some(slots) =>
        match Place(slots, h[|h| - 1].id)
        case None => None
        case Some(i) => Some(SlotStep(slots, i, h[|h| - 1]).0)
  }

  lemma TableGoesOn(h: seq<Fragment>)
    requires h != [] && TableAfter(h[..|h| - 1]).Some?
    requires Place(TableAfter(h[..|h| - 1]).value, h[|h| - 1].id).Some?
    ensures var n := |h| - 1;
            var slots := TableAfter(h[..n]).value;
            TableAfter(h) == Some(SlotStep(slots, Place(slots, h[n].id).value, h[n]).0) &&
            Flown(h) == FlightStep(Flown(h[..n]), h[n]).0
  {
  }

  /** When the `k`-th fragment arrives, at most 100 ids are in flight, its own included. */
  ghost predicate FewInFlight(h: seq<Fragment>, k: nat)
    requires k < |h|
  {
    |Flown(h[..k]).Keys + {h[k].id}| <= SLOTS
  }

  /** Well-formed fragments of at most 100 frames at a time. */
  ghost predicate Proper(h: seq<Fragment>) {
    (forall k :: 0 <= k < |h| ==> WellFormed(h[k])) && (forall k :: 0 <= k < |h| ==> FewInFlight(h, k))
  }

  lemma ProperPrefix(h: seq<Fragment>, n: nat)
    requires Proper(h) && n < |h|
    ensures Proper(h[..n]) && WellFormed(h[n]) && FewInFlight(h, n)
  {
    forall k | 0 <= k < n ensures FewInFlight(h[..n], k) {
      assert FewInFlight(h, k) && h[..n][..k] == h[..k];
    }
  }

  /**
   With well-formed fragments and at most 100 ids in flight the table never fails and always holds the frames in
   flight.
   */
  lemma {:induction false} TableRefinesFlight(h: seq<Fragment>)
    requires Proper(h)
    ensures TableAfter(h).Some? && Consistent(TableAfter(h).value) && View(TableAfter(h).value) == Flown(h)
  {
    if h != [] {
      var n := |h| - 1;
      ProperPrefix(h, n);
      TableRefinesFlight(h[..n]);
      var slots := TableAfter(h[..n]).value;
      hide *;
      RoomForOne(h, n);
      PlaceFoundIff(slots, h[n].id);
      StepRefines(slots, h[n]);
      TableGoesOn(h);
    } else {
      EmptyTable(TableAfter(h).value);
    }
  }

  /** What the table makes of the `k`-th fragment of a run. */
  function TableOutcome(h: seq<Fragment>, k: nat): Outcome
    requires k < |h|
  {
    match TableAfter(h[..k])
    case None => NoSlot
    case Some(slots) =>
      match Place(slots, h[k].id)
      case None => NoSlot
      case Some(i) => SlotStep(slots, i, h[k]).1
  }

  /** So each fragment of such a run leads to what it leads to on the map ... */
  lemma TableOutcomes(h: seq<Fragment>, k: nat)
    requires Proper(h) && k < |h|
    ensures TableOutcome(h, k) == OutcomeAt(h, k)
  {
    ProperPrefix(h, k);
    TableRefinesFlight(h[..k]);
    var slots := TableAfter(h[..k]).value;
    hide View, Consistent, Place, SlotStep, FlightStep, FewInFlight, TableAfter;
    RoomForOne(h, k);
    PlaceFoundIff(slots, h[k].id);
    StepRefines(slots, h[k]);
  }

  /** ... and a frame the table completes is the concatenation of its id's fragments since that id's previous frame. */
  lemma TableFramesAreFragments(h: seq<Fragment>, k: nat)
    requires Proper(h) && k < |h| && TableOutcome(h, k).Done?
    ensures TableOutcome(h, k).frame == Gathered(h, Since(h, k, h[k].id), k + 1, h[k].id)
  {
    TableOutcomes(h, k);
    FrameIsItsFragments(h, k);
  }

  lemma EmptyTable(slots: seq<Slot>)
    requires |slots| == SLOTS && forall i :: 0 <= i < SLOTS ==> slots[i] == Slot(0, [])
    ensures Consistent(slots) && View(slots) == map[]
  {
    assert Ids(slots) == {};
  }

  lemma RoomForOne(h: seq<Fragment>, k: nat)
    requires k < |h| && FewInFlight(h, k)
    ensures h[k].id in Flown(h[..k]) || |Flown(h[..k])| < SLOTS
  {
    var keys, id := Flown(h[..k]).Keys, h[k].id;
    if id !in keys {
      assert |keys + {id}| == |keys| + 1;
    }
  }
}
