/**
 Who owns each fanotify permission event, from the kernel read to its one reply.

 The dispatcher, the thread that starts shutdown and the decision workers run concurrently. The pool
 lock, the `stopping` flag, the ring append and the semaphore post are separate steps, so the claim
 that shutdown loses no event is about every interleaving. A worker's decision (whether the subject
 slot is blocked, which slot a decision completes, when a wait times out) is left open.
 */
module EventOwnership {
  import opened Prelude

  /** One permission event: the kernel's descriptor identifies it, the pid routes it. */
  datatype Event = Event(fd: nat, pid: int)

  datatype Dispatcher =
    | AtRest
    | Deciding(e: Event)
    | Locked(e: Event)
    | Admitted(e: Event)
    | Posting(w: nat)
    | Unlocking
    | Rejected(e: Event)
    | MustReply(e: Event)

  datatype Stopper = NotStopping | HasLock | HasFlagged | Waking(next: nat)

  datatype LockHolder = Nobody | TheDispatcher | TheStopper

  datatype WorkerPc =
    | Top
    | Waiting
    | Taken
    | Releasing
    | Holding(e: Event, releasing: bool)
    | Finished(releasing: bool)
    | Running(e: Event, releasing: bool)
    | Draining
    | DrainWaiting
    | DrainTaken
    | DrainingDefers
    | Exited

  datatype Worker = Worker(queue: seq<Event>, sem: nat, defers: seq<Event>, pc: WorkerPc)

  datatype State = State(
    batch: seq<Event>,
    disp: Dispatcher,
    lock: LockHolder,
    stopping: bool,
    stop: Stopper,
    workers: seq<Worker>,
    answered: multiset<Event>,
    seen: set<Event>)

  /** Pool constants: ring capacity and defer array capacity of each worker. */
  datatype Pool = Pool(qSize: nat, deferSize: nat)

  // ---------------------------------------------------------------------------------------------
  // Routing

  function SubjectKey(pid: int): nat {
    if pid <= 0 then 0 else pid
  }

  /** The stable pid-to-worker map. */
  function Route(e: Event, workers: nat): (w: nat)
    requires workers > 0
    ensures w < workers
  {
    SubjectKey(e.pid) % workers
  }

  // ---------------------------------------------------------------------------------------------
  // Dispatcher steps (handle_events and decision_worker_pool_enqueue)

  predicate ReadBatch(s: State, batch: seq<Event>, s': State) {
    && s.disp.AtRest? && s.batch == []
    && (forall i, j :: 0 <= i < j < |batch| ==> batch[i] != batch[j])
    && (forall i :: 0 <= i < |batch| ==> batch[i] !in s.seen)
    && s' == s.(batch := batch, seen := s.seen + Elems(batch))
  }

  predicate TakeNext(s: State, s': State) {
    && s.disp.AtRest? && s.batch != []
    && s' == s.(batch := s.batch[1..], disp := Deciding(s.batch[0]))
  }

  /** The daemon's own events and unexpected masks are answered on the spot. */
  predicate ReplyDirectly(s: State, s': State) {
    && (s.disp.Deciding? || s.disp.MustReply?)
    && s' == s.(answered := s.answered + multiset{s.disp.e}, disp := AtRest)
  }

  predicate LockPool(s: State, s': State) {
    && s.disp.Deciding? && s.lock.Nobody?
    && s' == s.(lock := TheDispatcher, disp := Locked(s.disp.e))
  }

  predicate CheckStopping(s: State, s': State) {
    && s.disp.Locked?
    && s' == s.(disp := if s.stopping then Rejected(s.disp.e) else Admitted(s.disp.e))
  }

  /** q_enqueue up to its semaphore post; a full ring leaves the event with the dispatcher. */
  predicate Enqueue(p: Pool, s: State, s': State) {
    && s.disp.Admitted? && |s.workers| > 0
    && var w := Route(s.disp.e, |s.workers|);
       if |s.workers[w].queue| >= p.qSize then s' == s.(disp := Rejected(s.disp.e))
       else
         s' == s.(workers := s.workers[w := s.workers[w].(queue := s.workers[w].queue + [s.disp.e])],
                  disp := Posting(w))
  }

  predicate PostQueue(s: State, s': State) {
    && s.disp.Posting? && s.disp.w < |s.workers|
    && var w := s.disp.w;
       s' == s.(workers := s.workers[w := s.workers[w].(sem := s.workers[w].sem + 1)], disp := Unlocking)
  }

  predicate UnlockPool(s: State, s': State) {
    && (s.disp.Unlocking? || s.disp.Rejected?)
    && s' == s.(lock := Nobody, disp := if s.disp.Rejected? then MustReply(s.disp.e) else AtRest)
  }

  // ---------------------------------------------------------------------------------------------
  // Shutdown steps (decision_worker_pool_begin_shutdown, q_shutdown) and report nudges

  predicate StopLock(s: State, s': State) {
    && s.stop.NotStopping? && s.lock.Nobody?
    && s' == s.(lock := TheStopper, stop := HasLock)
  }

  predicate StopFlag(s: State, s': State) {
    && s.stop.HasLock?
    && s' == s.(stopping := true, stop := HasFlagged)
  }

  predicate StopUnlock(s: State, s': State) {
    && s.stop.HasFlagged?
    && s' == s.(lock := Nobody, stop := Waking(0))
  }

  predicate WakeWorker(s: State, s': State) {
    && s.stop.Waking? && s.stop.next < |s.workers|
    && var w := s.stop.next;
       s' == s.(workers := s.workers[w := s.workers[w].(sem := s.workers[w].sem + 1)], stop := Waking(w + 1))
  }

  predicate Nudge(s: State, w: nat, s': State) {
    && w < |s.workers|
    && s' == s.(workers := s.workers[w := s.workers[w].(sem := s.workers[w].sem + 1)])
  }

  // ---------------------------------------------------------------------------------------------
  // Worker steps (decision_worker_main, dispatch_decision_event, the shutdown drains)

  /** Moves that keep every event where it is or pass it between this worker's own places. */
  predicate WorkerMoves(p: Pool, stopping: bool, w: Worker, w': Worker) {
    match w.pc
    case Top => w' == w.(pc := if stopping then Draining else Waiting)
    case Waiting =>
      || (w.sem > 0 && w' == w.(sem := w.sem - 1, pc := Taken))
      || w' == w.(pc := Top)
      || w' == w.(pc := Releasing)
    case Taken =>
      if w.queue == [] then w' == w.(pc := Top)
      else w' == w.(queue := w.queue[1..], pc := Holding(w.queue[0], false))
    case Releasing =>
      || w' == w.(pc := Top)
      || exists i :: 0 <= i < |w.defers| && w' == w.(defers := RemoveAt(w.defers, i), pc := Holding(w.defers[i], true))
    case Holding(e, releasing) =>
      || (|w.defers| < p.deferSize && w' == w.(defers := w.defers + [e], pc := if releasing then Releasing else Top))
      || w' == w.(pc := Running(e, releasing))
    case Finished(releasing) =>
      || w' == w.(pc := if releasing then Releasing else Top)
      || exists i ::
           0 <= i < |w.defers| && w' == w.(defers := RemoveAt(w.defers, i), pc := Running(w.defers[i], releasing))
    case Draining => w' == w.(pc := if |w.queue| > 0 then DrainWaiting else DrainingDefers)
    case DrainWaiting => w.sem > 0 && w' == w.(sem := w.sem - 1, pc := DrainTaken)
    // An empty ring makes q_dequeue return 0, and the drain stops there.
    case DrainTaken => w.queue == [] && w' == w.(pc := DrainingDefers)
    case DrainingDefers => w.defers == [] && w' == w.(pc := Exited)
    case _ => false
  }

  /** Moves that answer one event. */
  predicate WorkerAnswers(w: Worker, e: Event, w': Worker) {
    match w.pc
    case Running(e0, releasing) => e == e0 && w' == w.(pc := Finished(releasing))
    case DrainTaken => w.queue != [] && e == w.queue[0] && w' == w.(queue := w.queue[1..], pc := Draining)
    case DrainingDefers => w.defers != [] && e == w.defers[0] && w' == w.(defers := w.defers[1..])
    case _ => false
  }

  predicate WorkerStep(p: Pool, s: State, i: nat, w': Worker, s': State) {
    && i < |s.workers|
    && WorkerMoves(p, s.stopping, s.workers[i], w')
    && s' == s.(workers := s.workers[i := w'])
  }

  predicate AnswerStep(s: State, i: nat, e: Event, w': Worker, s': State) {
    && i < |s.workers|
    && WorkerAnswers(s.workers[i], e, w')
    && s' == s.(workers := s.workers[i := w'], answered := s.answered + multiset{e})
  }

  // ---------------------------------------------------------------------------------------------
  // Runs

  ghost predicate DispatcherStep(p: Pool, s: State, s': State) {
    || (exists batch :: ReadBatch(s, batch, s'))
    || TakeNext(s, s')
    || ReplyDirectly(s, s')
    || LockPool(s, s')
    || CheckStopping(s, s')
    || Enqueue(p, s, s')
    || PostQueue(s, s')
    || UnlockPool(s, s')
  }

  ghost predicate StopperStep(s: State, s': State) {
    || StopLock(s, s')
    || StopFlag(s, s')
    || StopUnlock(s, s')
    || WakeWorker(s, s')
    || (exists w: nat :: Nudge(s, w, s'))
  }

  ghost predicate Step(p: Pool, s: State, s': State) {
    || DispatcherStep(p, s, s')
    || StopperStep(s, s')
    || (exists i: nat, w' :: WorkerStep(p, s, i, w', s'))
    || (exists i: nat, e, w' :: AnswerStep(s, i, e, w', s'))
  }

  ghost predicate Init(s: State) {
    && s.batch == [] && s.disp.AtRest? && s.lock.Nobody? && !s.stopping && s.stop.NotStopping?
    && |s.workers| > 0
    && (forall i :: 0 <= i < |s.workers| ==> s.workers[i] == Worker([], 0, [], Top))
    && s.answered == multiset{} && s.seen == {}
  }

  ghost predicate StepAt(p: Pool, run: seq<State>, i: nat)
    requires i + 1 < |run|
  {
    Step(p, run[i], run[i + 1])
  }

  ghost predicate Run(p: Pool, run: seq<State>) {
    && |run| > 0
    && Init(run[0])
    && forall i: nat :: i + 1 < |run| ==> StepAt(p, run, i)
  }
}
