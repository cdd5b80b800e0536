/**
 One decision worker: an event is either run now or parked behind the subject that is still building
 in its cache slot, and a slot that stops building releases the events parked behind it. The answers
 of /proc and the outcome of a policy decision are arbitrary functions of the worker's clock.
 */
module DecisionWorker {
  import opened Prelude
  import opened DeferQueue

  /** A cached subject; `full` means its startup pattern state is STATE_FULL or later. */
  datatype Subject = Subject(pid: int, full: bool)

  type Cache = map<nat, Subject>

  /** Another process is still building its pattern state in this slot. */
  predicate Blocks(cache: Cache, slot: nat, pid: int) {
    slot in cache && cache[slot].pid != pid && !cache[slot].full
  }

  predicate Building(cache: Cache, slot: nat) {
    slot in cache && !cache[slot].full
  }

  predicate SameAt(a: Cache, b: Cache, slot: nat) {
    (slot in a <==> slot in b) && (slot in a ==> a[slot] == b[slot])
  }

  ghost predicate SameElsewhere(a: Cache, b: Cache, slot: nat) {
    forall s: nat :: s != slot ==> SameAt(a, b, s)
  }

  lemma SameElsewhereTransitive(a: Cache, b: Cache, c: Cache, slot: nat)
    requires SameElsewhere(a, b, slot) && SameElsewhere(b, c, slot)
    ensures SameElsewhere(a, c, slot)
  {
    forall s: nat | s != slot ensures SameAt(a, c, s) {
      assert SameAt(a, b, s) && SameAt(b, c, s);
    }
  }

  // ---------------------------------------------------------------------------------------------
  // What one release chain does to the list of parked events

  /** The events waiting for one slot, in arrival order. */
  function Waiters(list: seq<DecisionEvent>, slot: nat): seq<DecisionEvent> {
    if list == [] then []
    else (if list[0].slot == Some(slot) then [list[0]] else []) + Waiters(list[1..], slot)
  }

  /** The list without the first `k` events waiting for `slot`. */
  function Left(list: seq<DecisionEvent>, slot: nat, k: nat): seq<DecisionEvent> {
    if list == [] || k == 0 then list
    else if list[0].slot == Some(slot) then Left(list[1..], slot, k - 1)
    else [list[0]] + Left(list[1..], slot, k)
  }

  /** A chain serves the slot's waiters in arrival order and leaves every other slot's alone. */
  lemma {:induction false} ChainServesInOrder(list: seq<DecisionEvent>, slot: nat, k: nat, other: nat)
    requires k <= |Waiters(list, slot)|
    ensures Waiters(Left(list, slot, k), other) ==
            if other == slot then Waiters(list, slot)[k..] else Waiters(list, other)
  {
    if list != [] && k > 0 {
      ChainServesInOrder(list[1..], slot, if list[0].slot == Some(slot) then k - 1 else k, other);
    }
  }

  /** It moves the slot's first `k` waiters out of the list and loses nothing. */
  lemma {:induction false} ChainConserves(list: seq<DecisionEvent>, slot: nat, k: nat, e: DecisionEvent)
    requires k <= |Waiters(list, slot)|
    ensures Count(Waiters(list, slot)[..k], e) + Count(Left(list, slot, k), e) == Count(list, e)
  {
    var w := Waiters(list, slot);
    if list != [] && k > 0 {
      if list[0].slot == Some(slot) {
        ChainConserves(list[1..], slot, k - 1, e);
        assert w[..k] == [list[0]] + Waiters(list[1..], slot)[..k - 1];
      } else {
        ChainConserves(list[1..], slot, k, e);
        assert w == Waiters(list[1..], slot);
      }
    }
  }

  lemma {:induction false} PopAfterMiss(list: seq<DecisionEvent>, match': DecisionEvent -> bool)
    requires list != [] && !match'(list[0])
    ensures PoppedEvent(list, match') == PoppedEvent(list[1..], match')
    ensures Popped(list, match') == [list[0]] + Popped(list[1..], match')
  {
    var i := FirstMatch(list[1..], match');
    assert FirstMatch(list, match') == i + 1;
    if i < |list| - 1 {
      RemoveAfterFirst(list, i);
    } else {
      assert [list[0]] + list[1..] == list;
    }
  }

  lemma RemoveAfterFirst(list: seq<DecisionEvent>, i: nat)
    requires i + 1 < |list|
    ensures RemoveAt(list, i + 1) == [list[0]] + RemoveAt(list[1..], i)
  {
  }

  lemma AfterMiss(list: seq<DecisionEvent>, slot: nat, k: nat)
    requires list != [] && list[0].slot != Some(slot)
    ensures Left(list, slot, k) == [list[0]] + Left(list[1..], slot, k)
    ensures Waiters(list, slot) == Waiters(list[1..], slot)
  {
    assert list == [list[0]] + list[1..];
  }

  lemma AfterHit(list: seq<DecisionEvent>, slot: nat, k: nat)
    requires list != [] && list[0].slot == Some(slot)
    ensures k > 0 ==> Left(list, slot, k) == Left(list[1..], slot, k - 1)
    ensures Waiters(list, slot) == [list[0]] + Waiters(list[1..], slot)
    ensures FirstMatch(list, ForSlot(Some(slot))) == 0 && Popped(list, ForSlot(Some(slot))) == list[1..]
  {
  }

  /** One more pop for the slot hands out its next waiter. */
  ghost predicate Continues(list: seq<DecisionEvent>, slot: nat, k: nat)
    requires k <= |Waiters(list, slot)|
  {
    var left, match' := Left(list, slot, k), ForSlot(Some(slot));
    if k == |Waiters(list, slot)| then PoppedEvent(left, match') == None
    else PoppedEvent(left, match') == Some(Waiters(list, slot)[k]) && Popped(left, match') == Left(list, slot, k + 1)
  }

  lemma ContinuesAfterMiss(list: seq<DecisionEvent>, slot: nat, k: nat)
    requires list != [] && list[0].slot != Some(slot) && k <= |Waiters(list, slot)|
    requires k <= |Waiters(list[1..], slot)| && Continues(list[1..], slot, k)
    ensures Continues(list, slot, k)
  {
    AfterMiss(list, slot, k);
    AfterMiss(list, slot, k + 1);
    var left := Left(list, slot, k);
    assert left[1..] == Left(list[1..], slot, k);
    PopAfterMiss(left, ForSlot(Some(slot)));
  }

  lemma ContinuesAfterHit(list: seq<DecisionEvent>, slot: nat, k: nat)
    requires list != [] && list[0].slot == Some(slot) && 0 < k <= |Waiters(list, slot)|
    requires k - 1 <= |Waiters(list[1..], slot)| && Continues(list[1..], slot, k - 1)
    ensures Continues(list, slot, k)
  {
    AfterHit(list, slot, k);
    AfterHit(list, slot, k + 1);
  }

  lemma {:induction false} PopContinuesChain(list: seq<DecisionEvent>, slot: nat, k: nat)
    requires k <= |Waiters(list, slot)|
    ensures Continues(list, slot, k)
  {
    if list == [] {
    } else if list[0].slot != Some(slot) {
      AfterMiss(list, slot, k);
      PopContinuesChain(list[1..], slot, k);
      ContinuesAfterMiss(list, slot, k);
    } else if k > 0 {
      AfterHit(list, slot, k);
      PopContinuesChain(list[1..], slot, k - 1);
      ContinuesAfterHit(list, slot, k);
    } else {
      AfterHit(list, slot, 1);
    }
  }

  lemma {:induction false} LeftIsShorter(list: seq<DecisionEvent>, slot: nat, k: nat)
    ensures |Left(list, slot, k)| <= |list|
  {
    if list != [] && k > 0 {
      LeftIsShorter(list[1..], slot, if list[0].slot == Some(slot) then k - 1 else k);
    }
  }

  lemma PoppedIsListed(list: seq<DecisionEvent>, match': DecisionEvent -> bool)
    ensures forall e :: e in Popped(list, match') ==> e in list
    ensures PoppedEvent(list, match').Some? ==>
              PoppedEvent(list, match').value in list && match'(PoppedEvent(list, match').value)
    ensures PoppedEvent(list, match').None? ==>
              Popped(list, match') == list && forall e :: e in list ==> !match'(e)
  {
  }

  lemma {:induction false} LeftIsListed(list: seq<DecisionEvent>, slot: nat, k: nat)
    ensures forall e :: e in Left(list, slot, k) ==> e in list
  {
    if list != [] && k > 0 {
      LeftIsListed(list[1..], slot, if list[0].slot == Some(slot) then k - 1 else k);
    }
  }

  lemma {:induction false} WaitersAreListed(list: seq<DecisionEvent>, slot: nat, e: DecisionEvent)
    ensures e in Waiters(list, slot) <==> e in list && e.slot == Some(slot)
  {
    if list != [] {
      WaitersAreListed(list[1..], slot, e);
    }
  }

  /**
   The event was decided, followed by the slot's first `served` waiters; the others stay listed. The
   chain stopped because the slot is building again or because nobody waits for it any more.
   */
  ghost predicate Ran(
    event: DecisionEvent, served: nat, list: seq<DecisionEvent>, answered: seq<DecisionEvent>,
    list': seq<DecisionEvent>, answered': seq<DecisionEvent>, cache': Cache)
    requires event.slot.Some?
  {
    && served <= |Waiters(list, event.slot.value)|
    && answered' == answered + ([event] + Waiters(list, event.slot.value))[..served + 1]
    && list' == Left(list, event.slot.value, served)
    && (Building(cache', event.slot.value) || Waiters(list', event.slot.value) == [])
  }

  lemma PopSplits(list: seq<DecisionEvent>, match': DecisionEvent -> bool, e: DecisionEvent)
    ensures Count(list, e) == Count(Popped(list, match'), e) + if PoppedEvent(list, match') == Some(e) then 1 else 0
  {
    var i := FirstMatch(list, match');
    if i < |list| {
      CountRemoved(list, i, e);
    }
  }

  lemma CountRun(answered: seq<DecisionEvent>, event: DecisionEvent, chain: seq<DecisionEvent>, e: DecisionEvent)
    ensures Count(answered + ([event] + chain), e) == Count(answered, e) + Count(chain, e) + if e == event then 1 else 0
  {
    CountConcat(answered, [event] + chain, e);
    assert ([event] + chain)[1..] == chain;
  }

  /** Running an event and its chain answers exactly that event and the events that left the list. */
  lemma RanConserves(
    event: DecisionEvent, served: nat, list: seq<DecisionEvent>, answered: seq<DecisionEvent>,
    list': seq<DecisionEvent>, answered': seq<DecisionEvent>, cache': Cache, e: DecisionEvent)
    requires event.slot.Some? && Ran(event, served, list, answered, list', answered', cache')
    ensures Count(answered', e) + Count(list', e) == Count(answered, e) + Count(list, e) + if e == event then 1 else 0
  {
    var w := Waiters(list, event.slot.value);
    assert ([event] + w)[..served + 1] == [event] + w[..served];
    CountRun(answered, event, w[..served], e);
    ChainConserves(list, event.slot.value, served, e);
  }

  /** Moving events from the list to the answers neither loses nor repeats one. */
  ghost predicate Conserved(
    list: seq<DecisionEvent>, answered: seq<DecisionEvent>, list': seq<DecisionEvent>, answered': seq<DecisionEvent>)
  {
    forall e :: Count(answered', e) + Count(list', e) == Count(answered, e) + Count(list, e)
  }

  lemma PopThenRunConserves(
    match': DecisionEvent -> bool, event: DecisionEvent, served: nat, list: seq<DecisionEvent>,
    answered: seq<DecisionEvent>, list': seq<DecisionEvent>, answered': seq<DecisionEvent>, cache': Cache)
    requires PoppedEvent(list, match') == Some(event) && event.slot.Some?
    requires Ran(event, served, Popped(list, match'), answered, list', answered', cache')
    ensures Conserved(list, answered, list', answered')
  {
    forall e ensures Count(answered', e) + Count(list', e) == Count(answered, e) + Count(list, e) {
      PopSplits(list, match', e);
      RanConserves(event, served, Popped(list, match'), answered, list', answered', cache', e);
    }
  }

  /** A probed event is ready, or another process is building in its slot. */
  ghost predicate Examined(e: DecisionEvent, ready: set<DecisionEvent>, cache: Cache) {
    e in ready || (e.slot.Some? && Blocks(cache, e.slot.value, e.pid))
  }

  /** Every listed event waits behind a subject that is still building. */
  ghost predicate NoneForgotten(list: seq<DecisionEvent>, cache: Cache) {
    forall e :: e in list ==> e.slot.Some? && Building(cache, e.slot.value)
  }

  lemma ChainForgetsNone(list: seq<DecisionEvent>, before: Cache, after: Cache, slot: nat, k: nat)
    requires NoneForgotten(list, before) && SameElsewhere(after, before, slot)
    requires Building(after, slot) || Waiters(Left(list, slot, k), slot) == []
    ensures NoneForgotten(Left(list, slot, k), after)
  {
    var rest := Left(list, slot, k);
    LeftIsListed(list, slot, k);
    forall e | e in rest ensures e.slot.Some? && Building(after, e.slot.value) {
      assert e in list;
      if e.slot.value == slot {
        WaitersAreListed(rest, slot, e);
      } else {
        assert SameAt(after, before, e.slot.value);
      }
    }
  }

  // ---------------------------------------------------------------------------------------------
  // The worker

  class Worker {
    const defer: Queue
    const slotOf: int -> nat
    /** Whether /proc shows the building subject traced, gone, reused or older than the stale window. */
    const evictable: (nat, Subject) -> bool
    /** The subject cache after one policy decision. */
    const outcome: (nat, Cache, DecisionEvent) -> Cache

    var cache: Cache
    var clock: nat
    var queue: seq<DecisionEvent>
    /** Every event this worker has decided, in order; deciding writes the reply and closes the fd. */
    var answered: seq<DecisionEvent>

    ghost predicate Valid()
      reads defer, defer.entries
    {
      && defer.Valid()
      && forall e :: e in defer.list ==> e.slot.Some? && e.completed.None?
    }

    /** A decision touches only the slot of its own event (no cache flush was requested). */
    ghost predicate DecisionsAreLocal() {
      forall t: nat, c: Cache, e: DecisionEvent :: e.slot.Some? ==> SameElsewhere(outcome(t, c, e), c, e.slot.value)
    }

    constructor (subjCacheSize: nat, slotOf: int -> nat, evictable: (nat, Subject) -> bool,
                 outcome: (nat, Cache, DecisionEvent) -> Cache)
      ensures Valid() && fresh(defer) && fresh(defer.entries)
      ensures defer.list == [] && answered == [] && queue == []
    {
      this.slotOf, this.evictable, this.outcome := slotOf, evictable, outcome;
      defer := new Queue(subjCacheSize);
      cache, clock, queue, answered := map[], 0, [], [];
    }

    /** event_subject_slot_is_blocked: a traced or stale occupant is evicted on the spot. */
    method IsBlocked(slot: nat, pid: int) returns (blocked: bool)
      modifies this`cache, this`clock
      ensures clock == old(clock) + 1
      ensures blocked <==> Blocks(old(cache), slot, pid) && !evictable(old(clock), old(cache)[slot])
      ensures cache == if Blocks(old(cache), slot, pid) && !blocked then old(cache) - {slot} else old(cache)
      ensures blocked <==> Blocks(cache, slot, pid)
      ensures SameElsewhere(cache, old(cache), slot)
    {
      blocked := false;
      if slot in cache && cache[slot].pid != pid && !cache[slot].full {
        if evictable(clock, cache[slot]) {
          cache := cache - {slot};
        } else {
          blocked := true;
        }
      }
      clock := clock + 1;
    }

    /** make_policy_decision, as far as deferral sees it. */
    method Decide(event: DecisionEvent) returns (done: DecisionEvent)
      requires event.slot.Some?
      modifies this`cache, this`clock, this`answered
      ensures clock == old(clock) + 1
      ensures answered == old(answered) + [event]
      ensures cache == outcome(old(clock), old(cache), event)
      ensures done == event.(completed := if Building(cache, event.slot.value) then None else event.slot)
    {
      answered := answered + [event];
      cache := outcome(clock, cache, event);
      clock := clock + 1;
      done := event.(completed := None);
      if !Building(cache, event.slot.value) {
        done := done.(completed := event.slot);
      }
    }

    /** The envelope as the worker handles it: the slot is computed unless the event already carries one. */
    function Slotted(event: DecisionEvent): DecisionEvent {
      if event.slot.None? then event.(slot := Some(slotOf(event.pid))) else event
    }

    /** One pop of the release chain: the slot's next waiter, in arrival order. */
    method PopWaiter(slot: nat, ghost list0: seq<DecisionEvent>, ghost served: nat)
      returns (next: Option<DecisionEvent>)
      requires Valid() && served <= |Waiters(list0, slot)| && defer.list == Left(list0, slot, served)
      modifies defer, defer.entries
      ensures Valid()
      ensures next.None? ==> defer.list == old(defer.list) && served == |Waiters(list0, slot)|
      ensures next.None? ==> Waiters(defer.list, slot) == []
      ensures next.Some? ==>
                && served < |Waiters(list0, slot)| && next.value == Waiters(list0, slot)[served]
                && next.value.slot == Some(slot)
                && defer.list == Left(list0, slot, served + 1) && |defer.list| < |old(defer.list)|
    {
      PopContinuesChain(list0, slot, served);
      ChainServesInOrder(list0, slot, served, slot);
      PoppedIsListed(defer.list, ForSlot(Some(slot)));
      next := defer.PopSlot(Some(slot));
    }

    /**
     The processing loop of dispatch_decision_event: run the event, then the parked events of its slot
     for as long as the slot stays free.
     */
    method RunChain(event: DecisionEvent) returns (served: nat)
      requires Valid() && event.slot.Some?
      modifies this`cache, this`clock, this`answered, defer, defer.entries
      ensures Valid()
      ensures Ran(event, served, old(defer.list), old(answered), defer.list, answered, cache)
      ensures DecisionsAreLocal() ==> SameElsewhere(cache, old(cache), event.slot.value)
    {
      var current, slot := event, event.slot.value;
      served := 0;
      ghost var list0, cache0 := defer.list, cache;
      ghost var chain := [event] + Waiters(list0, slot);
      while true
        invariant Valid() && served < |chain|
        invariant current == chain[served] && current.slot == Some(slot)
        invariant answered == old(answered) + chain[..served]
        invariant defer.list == Left(list0, slot, served)
        invariant DecisionsAreLocal() ==> SameElsewhere(cache, cache0, slot)
        decreases |defer.list|
      {
        ghost var before := cache;
        var done := Decide(current);
        assert chain[..served + 1] == chain[..served] + [current];
        if DecisionsAreLocal() {
          SameElsewhereTransitive(cache, before, cache0, slot);
        }
        if done.completed.None? || Building(cache, done.completed.value) {
          return;
        }
        var next := PopWaiter(done.completed.value, list0, served);
        if next.None? {
          return;
        }
        current := next.value;
        served := served + 1;
      }
    }

    /** Park an event whose slot is blocked; a full array falls back to running it. */
    method TryPark(event: DecisionEvent) returns (parked: bool)
      requires Valid() && event.slot.Some?
      modifies this`cache, this`clock, defer, defer.entries
      ensures Valid()
      ensures parked ==> Blocks(cache, event.slot.value, event.pid) && cache == old(cache)
      ensures parked ==> |old(defer.list)| < defer.entries.Length
      ensures defer.list == if parked then old(defer.list) + [Parked(event)] else old(defer.list)
      ensures !parked ==> |old(defer.list)| >= defer.entries.Length || !Blocks(cache, event.slot.value, event.pid)
      ensures defer.fallbacks ==
              old(defer.fallbacks) + if !parked && Blocks(cache, event.slot.value, event.pid) then 1 else 0
      ensures !Blocks(old(cache), event.slot.value, event.pid) ==> !parked
      ensures SameElsewhere(cache, old(cache), event.slot.value)
    {
      parked := IsBlocked(event.slot.value, event.pid);
      if parked {
        parked := defer.Push(event);
        if !parked {
          defer.CountFallback();
        }
      }
    }

    /**
     dispatch_decision_event. Either the event is parked, or it is run and followed by `served` parked
     events of its slot. When the slot ends up free, no event is left waiting for it.
     */
    method Dispatch(event: DecisionEvent) returns (parked: bool, served: nat)
      requires Valid()
      modifies this`cache, this`clock, this`answered, defer, defer.entries
      ensures Valid()
      ensures parked ==>
                && Blocks(cache, Slotted(event).slot.value, event.pid)
                && |old(defer.list)| < defer.entries.Length && served == 0
                && answered == old(answered) && defer.list == old(defer.list) + [Parked(Slotted(event))]
      ensures !parked ==> Ran(Slotted(event), served, old(defer.list), old(answered), defer.list, answered, cache)
      ensures !Blocks(old(cache), Slotted(event).slot.value, event.pid) ==> !parked
      ensures DecisionsAreLocal() && NoneForgotten(old(defer.list), old(cache)) ==> NoneForgotten(defer.list, cache)
    {
      var current := Slotted(event);
      served := 0;
      parked := TryPark(current);
      if parked {
        return;
      }
      ghost var checked := cache;
      served := RunChain(current);
      if DecisionsAreLocal() && NoneForgotten(old(defer.list), old(cache)) {
        SameElsewhereTransitive(cache, checked, old(cache), current.slot.value);
        ChainForgetsNone(old(defer.list), old(cache), cache, current.slot.value, served);
      }
    }

    /**
     The test pass of decision_defer_pop_if with deferred_event_is_ready: every parked event is probed
     once, in array order, and each probe may evict the occupant it finds traced or stale.
     */
    method Examine() returns (ready: set<DecisionEvent>)
      requires Valid()
      modifies this`cache, this`clock
      ensures Valid()
      ensures forall e :: e in ready ==> e in defer.list && !Blocks(cache, e.slot.value, e.pid)
      ensures forall e :: e in defer.list && e !in ready ==> Blocks(old(cache), e.slot.value, e.pid)
      ensures ready == {} ==> cache == old(cache)
    {
      ready := {};
      var seen, i := 0, 0;
      ghost var es, cache0 := defer.entries[..], cache;
      while i < defer.entries.Length && seen < defer.current
        invariant 0 <= i <= |es| && es == defer.entries[..]
        invariant seen == UsedCount(es[..i])
        invariant forall s :: s in cache ==> s in cache0 && cache[s] == cache0[s]
        invariant forall e :: e in ready ==> e in defer.list && !Blocks(cache, e.slot.value, e.pid)
        invariant forall k :: 0 <= k < i && es[k].used ==> Examined(es[k].event, ready, cache0)
        invariant ready == {} ==> cache == cache0
      {
        assert es[..i + 1] == es[..i] + [es[i]];
        if defer.entries[i].used {
          UsedIsListed(es, defer.nextOrder, defer.place, defer.list, i);
          seen := seen + 1;
          var event := defer.entries[i].event;
          var blocked := IsBlocked(event.slot.value, event.pid);
          if !blocked {
            ready := ready + {event};
          }
        }
        i := i + 1;
      }
      UsedCountPrefix(es, i);
      assert i == |es| ==> es[..i] == es;
      forall e | e in defer.list && e !in ready ensures Blocks(old(cache), e.slot.value, e.pid) {
        var k := ListedBelow(es, defer.nextOrder, defer.place, defer.list, i, e);
        assert Examined(es[k].event, ready, cache0);
      }
    }

    /** decision_defer_pop_if with deferred_event_is_ready: the oldest parked event that was found ready. */
    method PopReady() returns (event: Option<DecisionEvent>, ghost ready: set<DecisionEvent>)
      requires Valid()
      modifies this`cache, this`clock, defer, defer.entries
      ensures Valid()
      ensures defer.list == Popped(old(defer.list), e => e in ready)
      ensures event == PoppedEvent(old(defer.list), e => e in ready)
      ensures event.None? ==> forall e :: e in defer.list ==> Blocks(cache, e.slot.value, e.pid)
      ensures event.Some? ==> event.value.slot.Some? && !Blocks(cache, event.value.slot.value, event.value.pid)
    {
      var found := Examine();
      ready := found;
      PoppedIsListed(defer.list, e => e in found);
      event := defer.PopIf(e => e in found);
    }

    /** One pass of the release loop: an event found ready is never parked again. */
    method ReleaseOne() returns (released: bool)
      requires Valid()
      modifies this`cache, this`clock, this`answered, defer, defer.entries
      ensures Valid()
      ensures !released ==> defer.list == old(defer.list) && answered == old(answered)
      ensures !released ==> forall e :: e in defer.list ==> Blocks(cache, e.slot.value, e.pid)
      ensures released ==> |defer.list| < |old(defer.list)|
      ensures released ==> Conserved(old(defer.list), old(answered), defer.list, answered)
    {
      var waiting := defer.HasEvents();
      if !waiting {
        return false;
      }
      var event, ready := PopReady();
      if event.None? {
        return false;
      }
      ghost var popped := defer.list;
      var parked, served := Dispatch(event.value);
      PopThenRunConserves(
        e => e in ready, event.value, served, old(defer.list), old(answered), defer.list, answered, cache);
      LeftIsShorter(popped, event.value.slot.value, served);
      return true;
    }

    /**
     release_ready_deferred_events: terminates whatever /proc answers, and the events it leaves are
     all blocked by another process's building subject.
     */
    method ReleaseReady() returns (count: nat)
      requires Valid()
      modifies this`cache, this`clock, this`answered, defer, defer.entries
      ensures Valid()
      ensures forall e :: e in defer.list ==> Blocks(cache, e.slot.value, e.pid)
      ensures Conserved(old(defer.list), old(answered), defer.list, answered)
      ensures |defer.list| + count <= |old(defer.list)|
    {
      count := 0;
      while true
        invariant Valid()
        invariant Conserved(old(defer.list), old(answered), defer.list, answered)
        invariant |defer.list| + count <= |old(defer.list)|
        decreases |defer.list|
      {
        var released := ReleaseOne();
        if !released {
          return;
        }
        count := count + 1;
      }
    }

    /** shutdown_queued_events: every event left in the worker's queue is answered, in order. */
    method ShutdownQueued() returns (count: nat)
      modifies this`queue, this`answered
      ensures queue == [] && count == |old(queue)|
      ensures answered == old(answered) + old(queue)
    {
      count := 0;
      while queue != []
        invariant count <= |old(queue)| && queue == old(queue)[count..]
        invariant answered == old(answered) + old(queue)[..count]
        decreases |queue|
      {
        answered := answered + [queue[0]];
        queue := queue[1..];
        count := count + 1;
      }
    }

    /** shutdown_deferred_events: every parked event is answered, oldest first. */
    method ShutdownDeferred() returns (count: nat)
      requires defer.Valid()
      modifies this`answered, defer, defer.entries
      ensures defer.Valid() && defer.list == [] && count == |old(defer.list)|
      ensures answered == old(answered) + old(defer.list)
    {
      count := 0;
      while true
        invariant defer.Valid() && count + |defer.list| == |old(defer.list)|
        invariant answered + defer.list == old(answered) + old(defer.list)
        decreases |defer.list|
      {
        var event := defer.PopAny();
        if event.None? {
          return;
        }
        assert answered + ([event.value] + defer.list) == (answered + [event.value]) + defer.list;
        answered := answered + [event.value];
        count := count + 1;
      }
    }
  }
}
