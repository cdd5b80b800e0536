/** Every permission event is answered exactly once, and shutdown loses none. */
module EventSafety {
  import opened Prelude
  import opened EventOwnership

  // ---------------------------------------------------------------------------------------------
  // Where an event is: the number of places that own it

  function InHand(pc: WorkerPc, e: Event): nat {
    if (pc.Holding? || pc.Running?) && pc.e == e then 1 else 0
  }

  function WithWorker(w: Worker, e: Event): nat {
    Count(w.queue, e) + Count(w.defers, e) + InHand(w.pc, e)
  }

  function WithWorkers(ws: seq<Worker>, e: Event): nat {
    if ws == [] then 0 else WithWorker(ws[0], e) + WithWorkers(ws[1..], e)
  }

  function WithDispatcher(s: State, e: Event): nat {
    var inHand := (s.disp.Deciding? || s.disp.Locked? || s.disp.Admitted? || s.disp.Rejected? || s.disp.MustReply?)
                  && s.disp.e == e;
    Count(s.batch, e) + if inHand then 1 else 0
  }

  function Places(s: State, e: Event): nat {
    WithDispatcher(s, e) + WithWorkers(s.workers, e) + s.answered[e]
  }

  /** An event that was read has exactly one owner or one answer; any other event has none. */
  ghost predicate Conserved(s: State) {
    forall e :: Places(s, e) == if e in s.seen then 1 else 0
  }

  lemma {:induction false} WithWorkersUpdate(ws: seq<Worker>, i: nat, w: Worker, e: Event)
    requires i < |ws|
    ensures WithWorkers(ws[i := w], e) + WithWorker(ws[i], e) == WithWorkers(ws, e) + WithWorker(w, e)
  {
    if i == 0 {
      assert ws[i := w][1..] == ws[1..];
    } else {
      WithWorkersUpdate(ws[1..], i - 1, w, e);
      assert ws[i := w][1..] == ws[1..][i - 1 := w];
    }
  }

  /** A parked event that is picked up moves into the worker's hand. */
  lemma PickKeepsEvents(w: Worker, i: nat, w': Worker, e: Event)
    requires i < |w.defers| && InHand(w.pc, e) == 0
    requires w' == w.(defers := RemoveAt(w.defers, i), pc := w'.pc)
    requires InHand(w'.pc, e) == if w.defers[i] == e then 1 else 0
    ensures WithWorker(w', e) == WithWorker(w, e)
  {
    CountRemoved(w.defers, i, e);
  }

  lemma WorkerMovesKeepEvents(p: Pool, stopping: bool, w: Worker, w': Worker, e: Event)
    requires WorkerMoves(p, stopping, w, w')
    ensures WithWorker(w', e) == WithWorker(w, e)
  {
    match w.pc
    case Releasing =>
      if w' != w.(pc := Top) {
        var i :| 0 <= i < |w.defers| && w' == w.(defers := RemoveAt(w.defers, i), pc := Holding(w.defers[i], true));
        PickKeepsEvents(w, i, w', e);
      }
    case Holding(x, releasing) =>
      CountAppended(w.defers, x, e);
    case Finished(releasing) =>
      if w' != w.(pc := if releasing then Releasing else Top) {
        var i :| 0 <= i < |w.defers|
                 && w' == w.(defers := RemoveAt(w.defers, i), pc := Running(w.defers[i], releasing));
        PickKeepsEvents(w, i, w', e);
      }
    case _ =>
  }

  lemma WorkerAnswersItsEvent(w: Worker, x: Event, w': Worker, e: Event)
    requires WorkerAnswers(w, x, w')
    ensures WithWorker(w, e) == WithWorker(w', e) + if x == e then 1 else 0
  {
  }

  lemma WorkerStepConserves(p: Pool, s: State, i: nat, w': Worker, s': State, e: Event)
    requires WorkerStep(p, s, i, w', s')
    ensures Places(s', e) == Places(s, e) && s'.seen == s.seen
  {
    WithWorkersUpdate(s.workers, i, w', e);
    WorkerMovesKeepEvents(p, s.stopping, s.workers[i], w', e);
  }

  lemma AnswerStepConserves(s: State, i: nat, x: Event, w': Worker, s': State, e: Event)
    requires AnswerStep(s, i, x, w', s')
    ensures Places(s', e) == Places(s, e) && s'.seen == s.seen
  {
    WithWorkersUpdate(s.workers, i, w', e);
    WorkerAnswersItsEvent(s.workers[i], x, w', e);
  }

  /** A step that changes only a semaphore moves no event. */
  lemma PostConserves(s: State, w: nat, s': State, e: Event)
    requires w < |s.workers|
    requires s'.workers == s.workers[w := s.workers[w].(sem := s.workers[w].sem + 1)]
    ensures WithWorkers(s'.workers, e) == WithWorkers(s.workers, e)
  {
    WithWorkersUpdate(s.workers, w, s'.workers[w], e);
  }

  lemma StopperStepConserves(s: State, s': State, e: Event)
    requires StopperStep(s, s')
    ensures Places(s', e) == Places(s, e) && s'.seen == s.seen
  {
    if WakeWorker(s, s') { PostConserves(s, s.stop.next, s', e); }
    else if w: nat :| Nudge(s, w, s') { PostConserves(s, w, s', e); }
  }

  lemma {:induction false} CountOfDistinct(q: seq<Event>, e: Event)
    requires forall i, j :: 0 <= i < j < |q| ==> q[i] != q[j]
    ensures Count(q, e) == if e in q then 1 else 0
  {
    if q != [] {
      CountOfDistinct(q[1..], e);
    }
  }

  lemma EnqueueConserves(p: Pool, s: State, s': State, e: Event)
    requires Enqueue(p, s, s')
    ensures Places(s', e) == Places(s, e) && s'.seen == s.seen
  {
    var x := s.disp.e;
    var w := Route(x, |s.workers|);
    if s'.disp.Posting? {
      WithWorkersUpdate(s.workers, w, s'.workers[w], e);
      CountAppended(s.workers[w].queue, x, e);
    }
  }

  lemma ReadBatchConserves(s: State, batch: seq<Event>, s': State)
    requires Conserved(s) && ReadBatch(s, batch, s')
    ensures Conserved(s')
  {
    forall e ensures Places(s', e) == if e in s'.seen then 1 else 0 {
      CountOfDistinct(batch, e);
      assert Places(s, e) == if e in s.seen then 1 else 0;
    }
  }

  lemma DispatcherMoveConserves(p: Pool, s: State, s': State, e: Event)
    requires DispatcherStep(p, s, s') && !(exists batch :: ReadBatch(s, batch, s'))
    ensures Places(s', e) == Places(s, e) && s'.seen == s.seen
  {
    if TakeNext(s, s') { }
    else if ReplyDirectly(s, s') { }
    else if LockPool(s, s') || CheckStopping(s, s') || UnlockPool(s, s') { }
    else if Enqueue(p, s, s') { EnqueueConserves(p, s, s', e); }
    else if PostQueue(s, s') { PostConserves(s, s.disp.w, s', e); }
  }

  lemma StepConserves(p: Pool, s: State, s': State)
    requires Conserved(s) && Step(p, s, s')
    ensures Conserved(s')
  {
    if batch :| ReadBatch(s, batch, s') {
      ReadBatchConserves(s, batch, s');
    } else {
      forall e ensures Places(s', e) == Places(s, e) && s'.seen == s.seen {
        if DispatcherStep(p, s, s') { DispatcherMoveConserves(p, s, s', e); }
        else if StopperStep(s, s') { StopperStepConserves(s, s', e); }
        else if i: nat, w' :| WorkerStep(p, s, i, w', s') { WorkerStepConserves(p, s, i, w', s', e); }
        else if i: nat, x, w' :| AnswerStep(s, i, x, w', s') { AnswerStepConserves(s, i, x, w', s', e); }
      }
    }
  }

  // ---------------------------------------------------------------------------------------------
  // Control: lock, flag and semaphores

  predicate HoldsPoolLock(d: Dispatcher) {
    d.Locked? || d.Admitted? || d.Posting? || d.Unlocking? || d.Rejected?
  }

  predicate SawStopping(pc: WorkerPc) {
    pc.Draining? || pc.DrainWaiting? || pc.DrainTaken? || pc.DrainingDefers? || pc.Exited?
  }

  ghost predicate LockOk(disp: Dispatcher, lock: LockHolder, stopping: bool, stop: Stopper) {
    && (HoldsPoolLock(disp) <==> lock.TheDispatcher?)
    && (stop.HasLock? || stop.HasFlagged? <==> lock.TheStopper?)
    && (stopping <==> stop.HasFlagged? || stop.Waking?)
    // Admission and the flag are ordered by the lock.
    && (disp.Admitted? || disp.Posting? ==> !stopping)
  }

  /** Semaphore units cover the queued events, except one being posted or already taken. */
  ghost predicate SemOk(w: Worker, posting: bool) {
    |w.queue| <= w.sem + (if posting then 1 else 0) + (if w.pc.Taken? || w.pc.DrainTaken? then 1 else 0)
  }

  ghost predicate WorkerOk(w: Worker, i: nat, disp: Dispatcher, stopping: bool, stop: Stopper) {
    && SemOk(w, disp == Posting(i))
    && (SawStopping(w.pc) ==> stopping)
    && (w.pc.DrainWaiting? || w.pc.DrainTaken? ==> w.queue != [])
    && (w.pc.DrainingDefers? || w.pc.Exited? ==> w.queue == [])
    && (w.pc.Exited? ==> w.defers == [])
    // A worker still waiting after its shutdown post has that post to wake it.
    && (stop.Waking? && i < stop.next && w.pc.Waiting? ==> w.sem > 0)
  }

  ghost predicate ControlOk(s: State) {
    && |s.workers| > 0
    && LockOk(s.disp, s.lock, s.stopping, s.stop)
    && (s.disp.Posting? ==> s.disp.w < |s.workers|)
    && (forall i :: 0 <= i < |s.workers| ==> WorkerOk(s.workers[i], i, s.disp, s.stopping, s.stop))
  }

  lemma DispatcherStepKeepsControl(p: Pool, s: State, s': State)
    requires ControlOk(s) && DispatcherStep(p, s, s')
    ensures ControlOk(s')
  {
    if batch :| ReadBatch(s, batch, s') { }
    else if TakeNext(s, s') || ReplyDirectly(s, s') { }
    else if LockPool(s, s') || CheckStopping(s, s') || UnlockPool(s, s') { }
    else if Enqueue(p, s, s') { }
    else if PostQueue(s, s') { }
  }

  lemma StopperStepKeepsControl(s: State, s': State)
    requires ControlOk(s) && StopperStep(s, s')
    ensures ControlOk(s')
  {
    if StopLock(s, s') || StopFlag(s, s') || StopUnlock(s, s') { }
    else if WakeWorker(s, s') { }
    else if w: nat :| Nudge(s, w, s') { }
  }

  lemma WorkerMoveKeepsOk(p: Pool, w: Worker, w': Worker, i: nat, disp: Dispatcher, stopping: bool, stop: Stopper)
    requires WorkerOk(w, i, disp, stopping, stop) && WorkerMoves(p, stopping, w, w')
    requires disp == Posting(i) ==> !stopping
    requires stop.Waking? ==> stopping
    ensures WorkerOk(w', i, disp, stopping, stop)
  {
  }

  lemma WorkerAnswerKeepsOk(w: Worker, e: Event, w': Worker, i: nat, disp: Dispatcher, stopping: bool, stop: Stopper)
    requires WorkerOk(w, i, disp, stopping, stop) && WorkerAnswers(w, e, w')
    ensures WorkerOk(w', i, disp, stopping, stop)
  {
  }

  lemma StepKeepsControl(p: Pool, s: State, s': State)
    requires ControlOk(s) && Step(p, s, s')
    ensures ControlOk(s')
  {
    if DispatcherStep(p, s, s') { DispatcherStepKeepsControl(p, s, s'); }
    else if StopperStep(s, s') { StopperStepKeepsControl(s, s'); }
    else if i: nat, w' :| WorkerStep(p, s, i, w', s') {
      WorkerMoveKeepsOk(p, s.workers[i], w', i, s.disp, s.stopping, s.stop);
    } else if i: nat, e, w' :| AnswerStep(s, i, e, w', s') {
      WorkerAnswerKeepsOk(s.workers[i], e, w', i, s.disp, s.stopping, s.stop);
    }
  }

  lemma {:induction false} RunOk(p: Pool, run: seq<State>, i: nat)
    requires Run(p, run) && i < |run|
    ensures Conserved(run[i]) && ControlOk(run[i])
  {
    if i == 0 {
      forall e ensures Places(run[0], e) == 0 {
        NothingHeld(run[0].workers, e);
      }
    } else {
      RunOk(p, run, i - 1);
      assert StepAt(p, run, i - 1);
      StepConserves(p, run[i - 1], run[i]);
      StepKeepsControl(p, run[i - 1], run[i]);
    }
  }

  lemma {:induction false} NothingHeld(ws: seq<Worker>, e: Event)
    requires forall i :: 0 <= i < |ws| ==> ws[i].queue == [] && ws[i].defers == [] && InHand(ws[i].pc, e) == 0
    ensures WithWorkers(ws, e) == 0
  {
    if ws != [] {
      NothingHeld(ws[1..], e);
    }
  }

  // ---------------------------------------------------------------------------------------------
  // The guarantees

  /** At every moment an event read from the kernel is in exactly one place, and is answered at most once. */
  lemma OwnedOrAnsweredOnce(p: Pool, run: seq<State>, i: nat, e: Event)
    requires Run(p, run) && i < |run| && e in run[i].seen
    ensures WithDispatcher(run[i], e) + WithWorkers(run[i].workers, e) + run[i].answered[e] == 1
  {
    RunOk(p, run, i);
    assert Places(run[i], e) == 1;
  }

  /** Once all workers have exited, every event that reached the pool has been answered, once. */
  lemma ExitedWorkersAnsweredEverything(p: Pool, run: seq<State>, i: nat, e: Event)
    requires Run(p, run) && i < |run| && e in run[i].seen
    requires forall w :: 0 <= w < |run[i].workers| ==> run[i].workers[w].pc.Exited?
    ensures WithWorkers(run[i].workers, e) == 0
    ensures run[i].answered[e] == 1 <==> WithDispatcher(run[i], e) == 0
    ensures run[i].disp.AtRest? && run[i].batch == [] ==> run[i].answered[e] == 1
  {
    RunOk(p, run, i);
    NothingHeld(run[i].workers, e);
    OwnedOrAnsweredOnce(p, run, i, e);
  }

  /** The drain never blocks on its semaphore and never finds the ring empty after taking a unit. */
  lemma DrainNeverBlocks(p: Pool, run: seq<State>, i: nat, w: nat)
    requires Run(p, run) && i < |run| && w < |run[i].workers|
    ensures run[i].workers[w].pc.DrainWaiting? ==> run[i].workers[w].sem > 0
    ensures run[i].workers[w].pc.DrainTaken? ==> run[i].workers[w].queue != []
    ensures run[i].stop.Waking? && w < run[i].stop.next && run[i].workers[w].pc.Waiting? ==> run[i].workers[w].sem > 0
  {
    RunOk(p, run, i);
    assert WorkerOk(run[i].workers[w], w, run[i].disp, run[i].stopping, run[i].stop);
  }

  // ---------------------------------------------------------------------------------------------
  // Admission is closed for good once the flag is set

  ghost predicate IsSuffix<T>(a: seq<T>, b: seq<T>) {
    |a| <= |b| && a == b[|b| - |a|..]
  }

  /** After the flag is set rings only shrink, from the front. */
  ghost predicate RingsShrink(s: State, s': State) {
    && s'.stopping
    && |s'.workers| == |s.workers|
    && forall w :: 0 <= w < |s.workers| ==> IsSuffix(s'.workers[w].queue, s.workers[w].queue)
  }

  lemma WorkerShrinksItsRing(p: Pool, stopping: bool, w: Worker, e: Event, w': Worker)
    requires WorkerMoves(p, stopping, w, w') || WorkerAnswers(w, e, w')
    ensures IsSuffix(w'.queue, w.queue)
  {
    if w'.queue != w.queue {
      assert w.queue != [] && w'.queue == w.queue[1..];
    }
  }

  lemma DispatcherLeavesRings(p: Pool, s: State, s': State)
    requires ControlOk(s) && s.stopping && DispatcherStep(p, s, s')
    ensures RingsShrink(s, s')
  {
    if batch :| ReadBatch(s, batch, s') { }
    else if PostQueue(s, s') { }
  }

  lemma StopperLeavesRings(s: State, s': State)
    requires s.stopping && StopperStep(s, s')
    ensures RingsShrink(s, s')
  {
    if StopLock(s, s') || StopFlag(s, s') || StopUnlock(s, s') { }
    else if WakeWorker(s, s') { }
    else if w: nat :| Nudge(s, w, s') { }
  }

  lemma StoppingStepShrinks(p: Pool, s: State, s': State)
    requires ControlOk(s) && s.stopping && Step(p, s, s')
    ensures RingsShrink(s, s')
  {
    if DispatcherStep(p, s, s') { DispatcherLeavesRings(p, s, s'); }
    else if StopperStep(s, s') { StopperLeavesRings(s, s'); }
    else if i: nat, w' :| WorkerStep(p, s, i, w', s') {
      WorkerShrinksItsRing(p, s.stopping, s.workers[i], Event(0, 0), w');
    } else if i: nat, e, w' :| AnswerStep(s, i, e, w', s') {
      WorkerShrinksItsRing(p, s.stopping, s.workers[i], e, w');
    }
  }

  /**
   As soon as some worker has seen the flag, no event enters any ring: in every later state each ring
   is what was left of it then.
   */
  lemma {:induction false} NoAdmissionAfterFlag(p: Pool, run: seq<State>, i: nat, j: nat, w: nat)
    requires Run(p, run) && i <= j < |run|
    requires w < |run[i].workers| && SawStopping(run[i].workers[w].pc)
    ensures run[i].stopping && RingsShrink(run[i], run[j])
  {
    RunOk(p, run, i);
    assert WorkerOk(run[i].workers[w], w, run[i].disp, run[i].stopping, run[i].stop);
    if i < j {
      NoAdmissionAfterFlag(p, run, i, j - 1, w);
      RunShrinks(p, run, j - 1);
    }
  }

  lemma RunShrinks(p: Pool, run: seq<State>, i: nat)
    requires Run(p, run) && i + 1 < |run| && run[i].stopping
    ensures RingsShrink(run[i], run[i + 1])
  {
    RunOk(p, run, i);
    assert StepAt(p, run, i);
    StoppingStepShrinks(p, run[i], run[i + 1]);
  }

  /** A bound on the steps a draining worker still takes. */
  function DrainMeasure(w: Worker): nat {
    3 * |w.queue| + |w.defers| +
    match w.pc
    case Draining => 2
    case DrainWaiting => 1
    case DrainingDefers => 1
    case _ => 0
  }

  /** A draining worker can always step, and each of its steps brings it closer to its exit. */
  lemma DrainTerminates(p: Pool, run: seq<State>, i: nat, w: nat, x: Worker, e: Event)
    requires Run(p, run) && i < |run| && w < |run[i].workers|
    requires SawStopping(run[i].workers[w].pc) && !run[i].workers[w].pc.Exited?
    ensures var me := run[i].workers[w];
            (exists next :: WorkerMoves(p, true, me, next)) || (exists e0, next :: WorkerAnswers(me, e0, next))
    ensures var me := run[i].workers[w];
            WorkerMoves(p, true, me, x) || WorkerAnswers(me, e, x) ==>
              SawStopping(x.pc) && DrainMeasure(x) < DrainMeasure(me)
  {
    RunOk(p, run, i);
    var me := run[i].workers[w];
    assert WorkerOk(me, w, run[i].disp, run[i].stopping, run[i].stop);
    match me.pc
    case Draining =>
      assert WorkerMoves(p, true, me, me.(pc := if |me.queue| > 0 then DrainWaiting else DrainingDefers));
    case DrainWaiting => assert WorkerMoves(p, true, me, me.(sem := me.sem - 1, pc := DrainTaken));
    case DrainTaken => assert WorkerAnswers(me, me.queue[0], me.(queue := me.queue[1..], pc := Draining));
    case DrainingDefers =>
      if me.defers == [] {
        assert WorkerMoves(p, true, me, me.(pc := Exited));
      } else {
        assert WorkerAnswers(me, me.defers[0], me.(defers := me.defers[1..]));
      }
  }

  // ---------------------------------------------------------------------------------------------
  // Routing

  /** Every event a worker holds was routed to it by its pid. */
  ghost predicate Routed(s: State) {
    && |s.workers| > 0
    && forall i, e :: 0 <= i < |s.workers| && WithWorker(s.workers[i], e) > 0 ==> Route(e, |s.workers|) == i
  }

  /** A worker that gains only events routed to it keeps the pool routed. */
  lemma WorkerChangeKeepsRouting(s: State, k: nat, w': Worker, s': State)
    requires Routed(s) && k < |s.workers| && s'.workers == s.workers[k := w']
    requires forall e :: WithWorker(w', e) > WithWorker(s.workers[k], e) ==> Route(e, |s.workers|) == k
    ensures Routed(s') && |s'.workers| == |s.workers|
  {
    forall i, e | 0 <= i < |s'.workers| && WithWorker(s'.workers[i], e) > 0 ensures Route(e, |s.workers|) == i {
      assert WithWorker(s.workers[i], e) > 0 ==> Route(e, |s.workers|) == i;
    }
  }

  lemma DispatcherKeepsRouting(p: Pool, s: State, s': State)
    requires ControlOk(s) && Routed(s) && DispatcherStep(p, s, s')
    ensures Routed(s') && |s'.workers| == |s.workers|
  {
    if s'.workers != s.workers {
      var k := if Enqueue(p, s, s') then s'.disp.w else s.disp.w;
      var w' := s'.workers[k];
      forall e ensures WithWorker(w', e) > WithWorker(s.workers[k], e) ==> Route(e, |s.workers|) == k {
        if Enqueue(p, s, s') { CountAppended(s.workers[k].queue, s.disp.e, e); }
      }
      WorkerChangeKeepsRouting(s, k, w', s');
    }
  }

  lemma StepKeepsRouting(p: Pool, s: State, s': State)
    requires ControlOk(s) && Routed(s) && Step(p, s, s')
    ensures Routed(s') && |s'.workers| == |s.workers|
  {
    if DispatcherStep(p, s, s') {
      DispatcherKeepsRouting(p, s, s');
    } else if StopperStep(s, s') {
      if WakeWorker(s, s') { WorkerChangeKeepsRouting(s, s.stop.next, s'.workers[s.stop.next], s'); }
      else if w: nat :| Nudge(s, w, s') { WorkerChangeKeepsRouting(s, w, s'.workers[w], s'); }
    } else if k: nat, w' :| WorkerStep(p, s, k, w', s') {
      forall e ensures WithWorker(w', e) == WithWorker(s.workers[k], e) {
        WorkerMovesKeepEvents(p, s.stopping, s.workers[k], w', e);
      }
      WorkerChangeKeepsRouting(s, k, w', s');
    } else if k: nat, x, w' :| AnswerStep(s, k, x, w', s') {
      forall e ensures WithWorker(w', e) <= WithWorker(s.workers[k], e) {
        WorkerAnswersItsEvent(s.workers[k], x, w', e);
      }
      WorkerChangeKeepsRouting(s, k, w', s');
    }
  }

  lemma {:induction false} RunIsRouted(p: Pool, run: seq<State>, i: nat)
    requires Run(p, run) && i < |run|
    ensures Routed(run[i]) && |run[i].workers| == |run[0].workers|
  {
    if i > 0 {
      RunIsRouted(p, run, i - 1);
      RunOk(p, run, i - 1);
      assert StepAt(p, run, i - 1);
      StepKeepsRouting(p, run[i - 1], run[i]);
    }
  }

  /** All events of one pid, over the whole run, are only ever in the hands of one worker. */
  lemma SamePidSameWorker(p: Pool, run: seq<State>, i: nat, j: nat, a: nat, b: nat, e: Event, e': Event)
    requires Run(p, run) && i < |run| && j < |run| && e.pid == e'.pid
    requires a < |run[i].workers| && WithWorker(run[i].workers[a], e) > 0
    requires b < |run[j].workers| && WithWorker(run[j].workers[b], e') > 0
    ensures a == b
  {
    RunIsRouted(p, run, i);
    RunIsRouted(p, run, j);
    assert Route(e, |run[i].workers|) == a && Route(e', |run[j].workers|) == b;
  }
}
