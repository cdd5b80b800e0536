/**
 The bounded defer array of one decision worker: a fixed array with holes and insertion stamps
 that behaves as a plain list of parked events, oldest first.
 */
module DeferQueue {
  import opened Prelude

  /** The part of the event envelope that deferral looks at; None is DECISION_EVENT_NO_SLOT. */
  datatype DecisionEvent = DecisionEvent(fd: nat, pid: int, slot: Option<nat>, completed: Option<nat>)

  datatype Entry = Entry(event: DecisionEvent, order: nat, used: bool)

  datatype Metrics = Metrics(capacity: nat, depth: nat, deferred: nat, maxDepth: nat, fallbacks: nat)

  const DEFER_RATIO: nat := 16
  const DEFER_MIN: nat := 16

  // ---------------------------------------------------------------------------------------------
  // The plain list

  /** Index of the first event of `list` that matches, or the length of the list. */
  function FirstMatch(list: seq<DecisionEvent>, match': DecisionEvent -> bool): (i: nat)
    ensures i <= |list|
    ensures i < |list| ==> match'(list[i])
    ensures forall j :: 0 <= j < i ==> !match'(list[j])
  {
    if list == [] then 0 else if match'(list[0]) then 0 else 1 + FirstMatch(list[1..], match')
  }

  /** What pop leaves: the list without its first matching event. */
  function Popped(list: seq<DecisionEvent>, match': DecisionEvent -> bool): seq<DecisionEvent> {
    var i := FirstMatch(list, match');
    if i < |list| then RemoveAt(list, i) else list
  }

  /** What pop hands out. */
  function PoppedEvent(list: seq<DecisionEvent>, match': DecisionEvent -> bool): Option<DecisionEvent> {
    var i := FirstMatch(list, match');
    if i < |list| then Some(list[i]) else None
  }

  /** A parked event has not completed any subject slot yet. */
  function Parked(e: DecisionEvent): DecisionEvent {
    e.(completed := None)
  }

  /** Slot-specific pops want events blocked by that slot; NO_SLOT selects every event. */
  function ForSlot(slot: Option<nat>): DecisionEvent -> bool {
    (e: DecisionEvent) => slot.None? || e.slot == slot
  }

  // ---------------------------------------------------------------------------------------------
  // Used entries

  function UsedCount(s: seq<Entry>): nat {
    if s == [] then 0 else UsedCount(s[..|s| - 1]) + if s[|s| - 1].used then 1 else 0
  }

  lemma {:induction false} UsedCountUpdate(s: seq<Entry>, k: nat, e: Entry)
    requires k < |s|
    ensures UsedCount(s[k := e]) + (if s[k].used then 1 else 0) == UsedCount(s) + (if e.used then 1 else 0)
  {
    var n := |s| - 1;
    if k == n {
      assert s[k := e][..n] == s[..n];
    } else {
      UsedCountUpdate(s[..n], k, e);
      assert s[k := e][..n] == s[..n][k := e];
    }
  }

  lemma {:induction false} UsedCountFull(s: seq<Entry>)
    ensures UsedCount(s) <= |s|
    ensures UsedCount(s) == |s| <==> forall k :: 0 <= k < |s| ==> s[k].used
  {
    if s != [] {
      var n := |s| - 1;
      UsedCountFull(s[..n]);
      if forall k :: 0 <= k < |s| ==> s[k].used {
        assert forall k :: 0 <= k < n ==> s[..n][k] == s[k];
      }
    }
  }

  /** Once a prefix holds all the used entries, the rest holds none: the scan may stop early. */
  lemma {:induction false} UsedCountPrefix(s: seq<Entry>, n: nat)
    requires n <= |s|
    ensures UsedCount(s[..n]) <= UsedCount(s)
    ensures UsedCount(s[..n]) == UsedCount(s) ==> forall k :: n <= k < |s| ==> !s[k].used
  {
    if n == |s| {
      assert s[..n] == s;
    } else {
      var m := |s| - 1;
      UsedCountPrefix(s[..m], n);
      assert s[..m][..n] == s[..n];
      assert forall k :: n <= k < m ==> s[..m][k] == s[k];
    }
  }

  lemma {:induction false} NoneUsed(s: seq<Entry>)
    requires forall k :: 0 <= k < |s| ==> !s[k].used
    ensures UsedCount(s) == 0
  {
    if s != [] {
      NoneUsed(s[..|s| - 1]);
    }
  }

  // ---------------------------------------------------------------------------------------------
  // How array entries represent the list

  /** `place` names used entries in stamp order, and they carry `list`. */
  ghost predicate Placed(es: seq<Entry>, nextOrder: nat, place: seq<nat>, list: seq<DecisionEvent>) {
    && |place| == |list|
    && (forall i :: 0 <= i < |place| ==> place[i] < |es| && es[place[i]].used)
    && (forall i {:trigger es[place[i]]} :: 0 <= i < |place| ==>
          es[place[i]].event == list[i] && es[place[i]].order < nextOrder)
    && (forall i, j {:trigger es[place[i]], es[place[j]]} :: 0 <= i < j < |place| ==>
          es[place[i]].order < es[place[j]].order)
  }

  /** It names all of them. */
  ghost predicate Covered(es: seq<Entry>, place: seq<nat>) {
    forall k :: 0 <= k < |es| && es[k].used ==> k in place
  }

  ghost predicate Represents(es: seq<Entry>, nextOrder: nat, place: seq<nat>, list: seq<DecisionEvent>) {
    Placed(es, nextOrder, place, list) && Covered(es, place)
  }

  lemma PushRepresents(
    es: seq<Entry>, nextOrder: nat, place: seq<nat>, list: seq<DecisionEvent>, k: nat, e: DecisionEvent)
    requires Represents(es, nextOrder, place, list) && k < |es| && !es[k].used
    ensures Represents(es[k := Entry(e, nextOrder, true)], nextOrder + 1, place + [k], list + [e])
  {
    var place' := place + [k];
    var es' := es[k := Entry(e, nextOrder, true)];
    forall m | 0 <= m < |es'| && es'[m].used ensures m in place' {
      if m == k { assert place'[|place|] == k; } else { assert es[m].used; }
    }
  }

  lemma PopPlaced(es: seq<Entry>, nextOrder: nat, place: seq<nat>, list: seq<DecisionEvent>, i: nat)
    requires Placed(es, nextOrder, place, list) && i < |place|
    ensures Placed(es[place[i] := es[place[i]].(used := false)], nextOrder, RemoveAt(place, i), RemoveAt(list, i))
  {
    var es' := es[place[i] := es[place[i]].(used := false)];
    var place' := RemoveAt(place, i);
    forall j | 0 <= j < |place'| ensures place'[j] < |es'| && es'[place'[j]] == es[place'[j]] {
      var j0 := if j < i then j else j + 1;
      assert es[place[j0]].order != es[place[i]].order;
    }
  }

  lemma PopCovered(es: seq<Entry>, place: seq<nat>, i: nat)
    requires Covered(es, place) && i < |place| && place[i] < |es|
    ensures Covered(es[place[i] := es[place[i]].(used := false)], RemoveAt(place, i))
  {
    var es' := es[place[i] := es[place[i]].(used := false)];
    forall m | 0 <= m < |es'| && es'[m].used ensures m in RemoveAt(place, i) {
      assert es[m].used && m != place[i];
      StillPlaced(place, i, m);
    }
  }

  lemma PopRepresents(es: seq<Entry>, nextOrder: nat, place: seq<nat>, list: seq<DecisionEvent>, i: nat)
    requires Represents(es, nextOrder, place, list) && i < |place|
    ensures Represents(es[place[i] := es[place[i]].(used := false)], nextOrder, RemoveAt(place, i), RemoveAt(list, i))
  {
    PopPlaced(es, nextOrder, place, list, i);
    PopCovered(es, place, i);
  }

  lemma StillPlaced(place: seq<nat>, i: nat, m: nat)
    requires i < |place| && m in place && m != place[i]
    ensures m in RemoveAt(place, i)
  {
    var j :| 0 <= j < |place| && place[j] == m;
    assert RemoveAt(place, i)[if j < i then j else j - 1] == m;
  }

  /** Every listed event sits in a used entry below `n` once `n` entries hold as many used ones as the array. */
  lemma ListedBelow(es: seq<Entry>, nextOrder: nat, place: seq<nat>, list: seq<DecisionEvent>, n: nat, e: DecisionEvent)
    returns (k: nat)
    requires Represents(es, nextOrder, place, list) && e in list
    requires n <= |es| && UsedCount(es[..n]) == UsedCount(es)
    ensures k < n && es[k].used && es[k].event == e
  {
    var i :| 0 <= i < |list| && list[i] == e;
    k := place[i];
    UsedCountPrefix(es, n);
  }

  lemma UsedIsListed(es: seq<Entry>, nextOrder: nat, place: seq<nat>, list: seq<DecisionEvent>, k: nat)
    requires Represents(es, nextOrder, place, list) && k < |es| && es[k].used
    ensures es[k].event in list
  {
    var i :| 0 <= i < |place| && place[i] == k;
    assert list[i] == es[k].event;
  }

  /** `best` is the used, matching entry with the smallest stamp, or -1 when there is none. */
  ghost predicate Oldest(es: seq<Entry>, match': DecisionEvent -> bool, best: int) {
    && -1 <= best < |es|
    && (best >= 0 ==> es[best].used && match'(es[best].event))
    && (forall k :: 0 <= k < |es| && es[k].used && match'(es[k].event) ==> best >= 0 && es[best].order <= es[k].order)
  }

  /** That entry is the one the list names first. */
  lemma OldestIsFirst(
    es: seq<Entry>, nextOrder: nat, place: seq<nat>, list: seq<DecisionEvent>, match': DecisionEvent -> bool, best: int)
    requires Represents(es, nextOrder, place, list) && Oldest(es, match', best)
    ensures best >= 0 <==> FirstMatch(list, match') < |list|
    ensures best >= 0 ==> place[FirstMatch(list, match')] == best
  {
    var i := FirstMatch(list, match');
    if best >= 0 {
      var j :| 0 <= j < |place| && place[j] == best;
      assert match'(list[j]);
      assert match'(es[place[i]].event);
    }
  }

  /** The first unused entry. */
  method FindHole(entries: array<Entry>) returns (i: nat)
    requires UsedCount(entries[..]) < entries.Length
    ensures i < entries.Length && !entries[i].used
    ensures forall k :: 0 <= k < i ==> entries[k].used
  {
    UsedCountFull(entries[..]);
    i := 0;
    while i < entries.Length && entries[i].used
      invariant 0 <= i <= entries.Length
      invariant forall k :: 0 <= k < i ==> entries[k].used
    {
      i := i + 1;
    }
  }

  /** The scan of oldest_entry: every slot, keeping the smallest stamp. */
  method ScanSlot(entries: array<Entry>, slot: Option<nat>) returns (best: int)
    ensures Oldest(entries[..], ForSlot(slot), best)
  {
    ghost var wanted := ForSlot(slot);
    best := -1;
    for i := 0 to entries.Length
      invariant Oldest(entries[..i], wanted, best)
    {
      if entries[i].used && (slot.None? || entries[i].event.slot == slot) {
        if best < 0 || entries[i].order < entries[best].order {
          best := i;
        }
      }
      assert entries[..i + 1] == entries[..i] + [entries[i]];
    }
    assert entries[..entries.Length] == entries[..];
  }

  /** The scan of decision_defer_pop_if stops once it has seen `current` used entries. */
  method ScanMatch(entries: array<Entry>, current: nat, match': DecisionEvent -> bool) returns (best: int)
    requires current == UsedCount(entries[..])
    ensures Oldest(entries[..], match', best)
  {
    best := -1;
    var seen, i := 0, 0;
    while i < entries.Length && seen < current
      invariant 0 <= i <= entries.Length
      invariant seen == UsedCount(entries[..i])
      invariant Oldest(entries[..i], match', best)
    {
      assert entries[..i + 1] == entries[..i] + [entries[i]];
      if entries[i].used {
        seen := seen + 1;
        if match'(entries[i].event) && (best < 0 || entries[i].order < entries[best].order) {
          best := i;
        }
      }
      i := i + 1;
    }
    assert entries[..][..i] == entries[..i];
    UsedCountPrefix(entries[..], i);
  }

  // ---------------------------------------------------------------------------------------------
  // The array

  class Queue {
    const entries: array<Entry>
    var current: nat
    var nextOrder: nat
    var deferred: nat
    var maxDepth: nat
    var fallbacks: nat

    /** The parked events, oldest first, and where each one sits in the array. */
    ghost var list: seq<DecisionEvent>
    ghost var place: seq<nat>

    ghost predicate Valid()
      reads this, entries
    {
      && Represents(entries[..], nextOrder, place, list)
      && current == |list|
      && current == UsedCount(entries[..])
      && current <= maxDepth
    }

    /** decision_defer_init: the array scales with the subject cache and has a floor. */
    constructor (subjCacheSize: nat)
      ensures Valid() && fresh(entries) && list == [] && maxDepth == 0 && deferred == 0 && fallbacks == 0
      ensures entries.Length ==
              if subjCacheSize / DEFER_RATIO < DEFER_MIN then DEFER_MIN else subjCacheSize / DEFER_RATIO
    {
      var capacity := subjCacheSize / DEFER_RATIO;
      if capacity < DEFER_MIN {
        capacity := DEFER_MIN;
      }
      entries := new Entry[capacity](_ => Entry(DecisionEvent(0, 0, None, None), 0, false));
      current, nextOrder, deferred, maxDepth, fallbacks := 0, 0, 0, 0, 0;
      list, place := [], [];
      new;
      NoneUsed(entries[..]);
    }

    /** decision_defer_push: store by value in the first hole, or refuse when the array is full. */
    method Push(event: DecisionEvent) returns (ok: bool)
      requires Valid()
      modifies this, entries
      ensures Valid()
      ensures ok <==> |old(list)| < entries.Length
      ensures list == if ok then old(list) + [Parked(event)] else old(list)
      ensures deferred == old(deferred) + if ok then 1 else 0
      ensures maxDepth == if |list| > old(maxDepth) then |list| else old(maxDepth)
      ensures fallbacks == old(fallbacks)
    {
      if current == entries.Length {
        return false;
      }
      UsedCountFull(entries[..]);
      var i := FindHole(entries);
      ghost var before := entries[..];
      PushRepresents(before, nextOrder, place, list, i, Parked(event));
      UsedCountUpdate(before, i, Entry(Parked(event), nextOrder, true));
      entries[i] := Entry(Parked(event), nextOrder, true);
      assert entries[..] == before[i := entries[i]];
      nextOrder := nextOrder + 1;
      current := current + 1;
      deferred := deferred + 1;
      if current > maxDepth {
        maxDepth := current;
      }
      list := list + [Parked(event)];
      place := place + [i];
      return true;
    }

    /** oldest_entry: index of the oldest parked event for `slot`, or -1. */
    method OldestEntry(slot: Option<nat>) returns (best: int)
      requires Valid()
      ensures best >= 0 <==> FirstMatch(list, ForSlot(slot)) < |list|
      ensures best >= 0 ==> place[FirstMatch(list, ForSlot(slot))] == best
    {
      best := -1;
      if current != 0 {
        best := ScanSlot(entries, slot);
        OldestIsFirst(entries[..], nextOrder, place, list, ForSlot(slot), best);
      }
    }

    /** pop_entry: clear the used flag; the event's fields stay until the next push. */
    method PopEntry(k: nat, ghost i: nat) returns (event: DecisionEvent)
      requires Valid() && i < |place| && place[i] == k
      modifies this, entries
      ensures Valid()
      ensures event == old(list)[i] && list == RemoveAt(old(list), i)
      ensures deferred == old(deferred) && maxDepth == old(maxDepth) && fallbacks == old(fallbacks)
    {
      event := entries[k].event;
      ghost var before := entries[..];
      PopRepresents(before, nextOrder, place, list, i);
      UsedCountUpdate(before, k, before[k].(used := false));
      entries[k] := entries[k].(used := false);
      assert entries[..] == before[k := entries[k]];
      current := current - 1;
      list := RemoveAt(list, i);
      place := RemoveAt(place, i);
    }

    /** decision_defer_pop_slot */
    method PopSlot(slot: Option<nat>) returns (event: Option<DecisionEvent>)
      requires Valid()
      modifies this, entries
      ensures Valid()
      ensures event == PoppedEvent(old(list), ForSlot(slot))
      ensures list == Popped(old(list), ForSlot(slot))
      ensures deferred == old(deferred) && maxDepth == old(maxDepth) && fallbacks == old(fallbacks)
    {
      var k := OldestEntry(slot);
      if k < 0 {
        return None;
      }
      var e := PopEntry(k, FirstMatch(list, ForSlot(slot)));
      return Some(e);
    }

    /** decision_defer_pop_any */
    method PopAny() returns (event: Option<DecisionEvent>)
      requires Valid()
      modifies this, entries
      ensures Valid()
      ensures event.None? ==> old(list) == [] == list
      ensures event.Some? ==> old(list) == [event.value] + list
      ensures deferred == old(deferred) && maxDepth == old(maxDepth) && fallbacks == old(fallbacks)
    {
      event := PopSlot(None);
    }

    /** decision_defer_pop_if: the scan stops as soon as it has seen `current` used entries. */
    method PopIf(match': DecisionEvent -> bool) returns (event: Option<DecisionEvent>)
      requires Valid()
      modifies this, entries
      ensures Valid()
      ensures event == PoppedEvent(old(list), match')
      ensures list == Popped(old(list), match')
      ensures deferred == old(deferred) && maxDepth == old(maxDepth) && fallbacks == old(fallbacks)
    {
      if current == 0 {
        return None;
      }
      var best := ScanMatch(entries, current, match');
      OldestIsFirst(entries[..], nextOrder, place, list, match', best);
      if best < 0 {
        return None;
      }
      var e := PopEntry(best, FirstMatch(list, match'));
      return Some(e);
    }

    method CountFallback()
      requires Valid()
      modifies this`fallbacks
      ensures Valid() && fallbacks == old(fallbacks) + 1
    {
      fallbacks := fallbacks + 1;
    }

    method HasEvents() returns (some: bool)
      requires Valid()
      ensures some <==> list != []
    {
      some := current != 0;
    }

    /** Counters restart after a reset, but the maximum never falls below the live depth. */
    method SnapshotReset(reset: bool) returns (m: Metrics)
      requires Valid()
      modifies this`deferred, this`maxDepth, this`fallbacks
      ensures Valid()
      ensures m == Metrics(entries.Length, |list|, old(deferred), old(maxDepth), old(fallbacks))
      ensures m.depth <= m.maxDepth && |list| <= maxDepth
      ensures if reset then deferred == 0 && maxDepth == |list| && fallbacks == 0
              else deferred == old(deferred) && maxDepth == old(maxDepth) && fallbacks == old(fallbacks)
    {
      m := Metrics(entries.Length, current, deferred, maxDepth, fallbacks);
      if reset {
        deferred, maxDepth, fallbacks := 0, current, 0;
      }
    }
  }
}
