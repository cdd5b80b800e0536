/**
 Trust database reload requests: any number of threads may ask for a reload while one update thread
 serves them. The two flags are atomic; the counters are history that only the statements look at.
 */
module Reload {
  datatype Source = Signal | Fifo

  /** Where the update thread is: Seen has read a pending request, Cleared has consumed it but not begun. */
  datatype Updater = Idle | Seen | Cleared(source: Source) | Running(source: Source)

  datatype State = State(
    pending: bool,
    active: bool,
    pc: Updater,
    /** Requests made so far, and how many of them were not coalesced. */
    requests: nat,
    queued: nat,
    /** How many requests the last consumed pending flag stood for, and the last begun reload covers. */
    consumed: nat,
    covered: nat,
    /** Reloads begun for a pending request. */
    followUps: nat)

  ghost predicate Init(s: State) {
    s == State(false, false, Idle, 0, 0, 0, 0, 0)
  }

  // ---------------------------------------------------------------------------------------------
  // Steps

  /** request_reload_trust_database: an atomic exchange; a request that finds the flag set is coalesced. */
  ghost predicate Request(s: State, s': State) {
    s' == s.(pending := true, requests := s.requests + 1, queued := if s.pending then s.queued else s.queued + 1)
  }

  /** The update loop finds the flag set. */
  ghost predicate Poll(s: State, s': State) {
    s.pc == Idle && s.pending && s' == s.(pc := Seen)
  }

  /** begin_trust_database_reload, first half: consume the request. A FIFO command starts here directly. */
  ghost predicate Consume(s: State, source: Source, s': State) {
    && s.pc == (if source == Signal then Seen else Idle)
    && s' == s.(pending := false, consumed := s.requests, pc := Cleared(source))
  }

  /** Second half: publish the active marker, or hand the request back when a reload is active already. */
  ghost predicate Begin(s: State, s': State) {
    && s.pc.Cleared?
    && s' == if s.active then s.(pending := true, pc := Idle)
             else s.(active := true, pc := Running(s.pc.source), covered := s.consumed,
                     followUps := s.followUps + if s.pc.source == Signal then 1 else 0)
  }

  /** finish_trust_database_reload */
  ghost predicate Finish(s: State, s': State) {
    s.pc.Running? && s' == s.(active := false, pc := Idle)
  }

  ghost predicate Step(s: State, s': State) {
    || Request(s, s')
    || Poll(s, s')
    || (exists source :: Consume(s, source, s'))
    || Begin(s, s')
    || Finish(s, s')
  }

  ghost predicate StepAt(run: seq<State>, i: nat)
    requires i + 1 < |run|
  {
    Step(run[i], run[i + 1])
  }

  ghost predicate Run(run: seq<State>) {
    |run| > 0 && forall i: nat :: i + 1 < |run| ==> StepAt(run, i)
  }

  // ---------------------------------------------------------------------------------------------
  // Invariant

  ghost predicate Inv(s: State) {
    && (s.active <==> s.pc.Running?)
    && (s.pc.Seen? ==> s.pending)
    && s.covered <= s.consumed <= s.requests
    && (!s.pending ==> s.consumed == s.requests)
    && (!s.pc.Cleared? ==> s.covered == s.consumed)
    && s.followUps + (if s.pending then 1 else 0) + (if s.pc == Cleared(Signal) then 1 else 0) <= s.queued
  }

  lemma {:induction false} RunHasInv(run: seq<State>, i: nat)
    requires Run(run) && Init(run[0]) && i < |run|
    ensures Inv(run[i])
  {
    if i > 0 {
      RunHasInv(run, i - 1);
      assert StepAt(run, i - 1);
    }
  }

  // ---------------------------------------------------------------------------------------------
  // What a requester can rely on

  /**
   No request is lost. In every reachable state a request is still pending, or the update thread has
   consumed it and is about to begin, or a reload that consumed it has begun.
   */
  lemma NoRequestIsLost(run: seq<State>, i: nat, ticket: nat)
    requires Run(run) && Init(run[0]) && i < |run| && 1 <= ticket <= run[i].requests
    ensures run[i].pending || run[i].pc.Cleared? || ticket <= run[i].covered
  {
    RunHasInv(run, i);
  }

  /** Handing a request back never happens: the only update thread is not running a reload when it begins one. */
  lemma BeginSucceeds(run: seq<State>, i: nat)
    requires Run(run) && Init(run[0]) && i + 1 < |run| && Begin(run[i], run[i + 1])
    ensures run[i + 1].pc.Running? && run[i + 1].covered == run[i].consumed
  {
    RunHasInv(run, i);
  }

  lemma {:induction false} CountersGrow(run: seq<State>, i: nat, j: nat)
    requires Run(run) && i <= j < |run|
    ensures run[i].requests <= run[j].requests && run[i].followUps <= run[j].followUps
    decreases j
  {
    if i < j {
      CountersGrow(run, i, j - 1);
      assert StepAt(run, j - 1);
    }
  }

  /** Reloads still owed for pending requests. */
  ghost function Owed(s: State): nat {
    (if s.pending then 1 else 0) + (if s.pc == Cleared(Signal) then 1 else 0)
  }

  /** Without new requests, only the reloads already owed can begin. */
  lemma {:induction false} QuietRunOwes(run: seq<State>, i: nat, j: nat)
    requires Run(run) && Init(run[0]) && i <= j < |run| && run[i].requests == run[j].requests
    ensures run[j].followUps + Owed(run[j]) <= run[i].followUps + Owed(run[i])
    decreases j
  {
    if i < j {
      CountersGrow(run, i, j - 1);
      CountersGrow(run, j - 1, j);
      QuietRunOwes(run, i, j - 1);
      RunHasInv(run, j - 1);
      assert StepAt(run, j - 1);
    }
  }

  /** While one reload runs, the reloads begun and consumed stay the same. */
  lemma {:induction false} WhileRunning(run: seq<State>, i: nat, j: nat)
    requires Run(run) && i <= j < |run| && forall k: nat :: i <= k <= j ==> run[k].pc.Running?
    ensures run[j].followUps == run[i].followUps
    decreases j
  {
    if i < j {
      WhileRunning(run, i, j - 1);
      assert StepAt(run, j - 1) && run[j - 1].pc.Running? && run[j].pc.Running?;
    }
  }

  /**
   However many requests arrive while one reload runs, they yield at most one follow-up: `i..j` is the
   reload, and nothing is requested between `j` and `k`.
   */
  lemma OneFollowUp(run: seq<State>, i: nat, j: nat, k: nat)
    requires Run(run) && Init(run[0]) && i <= j <= k < |run|
    requires forall n: nat :: i <= n <= j ==> run[n].pc.Running?
    requires run[j].requests == run[k].requests
    ensures run[k].followUps <= run[i].followUps + 1
  {
    WhileRunning(run, i, j);
    QuietRunOwes(run, j, k);
  }

  /** A pending request can always be served: from idle, three steps of the update thread begin a covering reload. */
  lemma PendingIsServed(run: seq<State>, i: nat) returns (a: State, b: State, c: State)
    requires Run(run) && Init(run[0]) && i < |run| && run[i].pc == Idle && run[i].pending
    ensures Poll(run[i], a) && Consume(a, Signal, b) && Begin(b, c)
    ensures c.pc == Running(Signal) && c.covered == run[i].requests
  {
    RunHasInv(run, i);
    a := run[i].(pc := Seen);
    b := a.(pending := false, consumed := a.requests, pc := Cleared(Signal));
    c := b.(active := true, pc := Running(Signal), covered := b.consumed, followUps := b.followUps + 1);
  }
}
