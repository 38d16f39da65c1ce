/** The condition-variable thread pools of zl_threadpool as interleaved steps.

    Two programs share this machine. `Joining` is 03_ThreadPool/ThreadPool.h: its
    destructor joins the workers and `enqueue` throws once `stop` is set. `Detached` is
    ThreadPoolCpp14/ThreadPool.h: its destructor only notifies and `execute` never looks
    at the flag. A worker's critical section has the same three outcomes in both.

    Any number of workers, of submitting threads and of calls is allowed. The mutex, the
    sleep on the condition (which releases the mutex), `notify_one` after the mutex is
    released, `notify_all` and the joins are separate steps. */
module ThreadPoolMachine {
  import opened Common
  import opened Sums

  type Task = int

  datatype Variant = Joining | Detached

  datatype Worker =
    | Locking              // at the loop head, or back from `wait`: needs the mutex
    | Checking             // holds the mutex, about to evaluate the wait predicate
    | Sleeping             // blocked in `condition.wait`, mutex released
    | Fetching             // holds the mutex, the predicate was true
    | Running(task: Task)  // runs a task outside the mutex
    | Returned

  datatype Client =
    | Idle
    | Calling(task: Task)    // in `enqueue`, needs the mutex
    | Inserting(task: Task)  // in `enqueue`, holds the mutex
    | Notifying              // pushed its task, still owes the `notify_one`

  datatype Closer =
    | Open
    | Entering  // in the destructor, needs the mutex
    | Setting   // in the destructor, holds the mutex
    | Waking    // `stop` is set, still owes the `notify_all`
    | JoiningFrom(next: nat)
    | Closed

  datatype Holder = Free | ByWorker(w: nat) | ByClient(c: nat) | ByCloser

  /** The fields of the pool, one program counter per thread, and four histories:
      tasks in the order pushed, popped and finished, the number pushed after `stop` was
      set, and the number pushed when every worker had already returned. */
  datatype State = State(
    variant: Variant, tasks: seq<Task>, stop: bool, holder: Holder,
    workers: seq<Worker>, clients: seq<Client>, closer: Closer,
    accepted: seq<Task>, started: seq<Task>, finished: seq<Task>, late: nat, stranded: nat)

  datatype Step =
    // decided outside the pool
    | Submit(c: nat, task: Task) | Close | Spurious(w: nat)
    // the pool's own steps
    | Lock(w: nat) | Test(w: nat) | Fetch(w: nat) | Finish(w: nat)
    | ClientLock(c: nat) | Insert(c: nat) | NotifyOne(c: nat, woken: Option<nat>)
    | CloserLock | SetStop | NotifyAll | Join
  {
    predicate Internal() {
      !Submit? && !Close? && !Spurious?
    }

    predicate OfWorker() {
      Spurious? || Lock? || Test? || Fetch? || Finish?
    }

    predicate OfClient() {
      Submit? || ClientLock? || Insert? || NotifyOne?
    }
  }

  /** Which worker or client takes the step. */
  function Thread(step: Step): nat
    requires step.OfWorker() || step.OfClient()
  {
    match step
    case Submit(c, _) => c
    case Spurious(w) => w
    case Lock(w) => w
    case Test(w) => w
    case Fetch(w) => w
    case Finish(w) => w
    case ClientLock(c) => c
    case Insert(c) => c
    case NotifyOne(c, _) => c
  }

  function Init(variant: Variant, workers: nat, clients: nat): State {
    State(variant, [], false, Free, seq(workers, _ => Locking), seq(clients, _ => Idle), Open, [], [], [], 0, 0)
  }

  predicate AnySleeping(ws: seq<Worker>) {
    exists w :: 0 <= w < |ws| && ws[w].Sleeping?
  }

  predicate AllReturned(ws: seq<Worker>) {
    forall w :: 0 <= w < |ws| ==> ws[w].Returned?
  }

  /** `front()` is only defined on a non-empty queue, so `Fetch` is not enabled on an
      empty queue that has not been stopped; `FetchIsDefined` shows that never happens. */
  predicate Enabled(s: State, step: Step) {
    match step
    case Submit(c, _) => c < |s.clients| && s.clients[c].Idle?
    case Close => s.closer.Open?
    case Spurious(w) => w < |s.workers| && s.workers[w].Sleeping?
    case Lock(w) => w < |s.workers| && s.workers[w].Locking? && s.holder.Free?
    case Test(w) => w < |s.workers| && s.workers[w].Checking?
    case Fetch(w) => w < |s.workers| && s.workers[w].Fetching? && (s.stop || s.tasks != [])
    case Finish(w) => w < |s.workers| && s.workers[w].Running?
    case ClientLock(c) => c < |s.clients| && s.clients[c].Calling? && s.holder.Free?
    case Insert(c) => c < |s.clients| && s.clients[c].Inserting?
    case NotifyOne(c, woken) =>
      c < |s.clients| && s.clients[c].Notifying? &&
      (match woken
       case None => !AnySleeping(s.workers)
       case Some(w) => w < |s.workers| && s.workers[w].Sleeping?)
    case CloserLock => s.closer.Entering? && s.holder.Free?
    case SetStop => s.closer.Setting?
    case NotifyAll => s.closer.Waking?
    case Join =>
      s.closer.JoiningFrom? &&
      (s.closer.next < |s.workers| ==> s.workers[s.closer.next].Returned?)
  }

  function WakeAll(ws: seq<Worker>): (awake: seq<Worker>)
    ensures |awake| == |ws| && !AnySleeping(awake)
  {
    seq(|ws|, i requires 0 <= i < |ws| => if ws[i].Sleeping? then Locking else ws[i])
  }

  function Apply(s: State, step: Step): State
    requires Enabled(s, step)
  {
    match step
    case Submit(c, task) => s.(clients := s.clients[c := Calling(task)])
    case Close => s.(closer := Entering)
    case Spurious(w) => s.(workers := s.workers[w := Locking])
    case Lock(w) => s.(workers := s.workers[w := Checking], holder := ByWorker(w))
    case Test(w) =>
      if s.stop || s.tasks != [] then
        s.(workers := s.workers[w := Fetching])
      else
        s.(workers := s.workers[w := Sleeping], holder := Free)
    case Fetch(w) =>
      if s.stop && s.tasks == [] then
        s.(workers := s.workers[w := Returned], holder := Free)
      else
        s.(workers := s.workers[w := Running(s.tasks[0])], holder := Free,
           tasks := s.tasks[1..], started := s.started + [s.tasks[0]])
    case Finish(w) =>
      s.(workers := s.workers[w := Locking], finished := s.finished + [s.workers[w].task])
    case ClientLock(c) => s.(clients := s.clients[c := Inserting(s.clients[c].task)], holder := ByClient(c))
    case Insert(c) =>
      if s.variant.Joining? && s.stop then
        s.(clients := s.clients[c := Idle], holder := Free)
      else
        s.(clients := s.clients[c := Notifying], holder := Free,
           tasks := s.tasks + [s.clients[c].task], accepted := s.accepted + [s.clients[c].task],
           late := if s.stop then s.late + 1 else s.late,
           stranded := if AllReturned(s.workers) then s.stranded + 1 else s.stranded)
    case NotifyOne(c, woken) =>
      s.(clients := s.clients[c := Idle],
         workers := if woken.None? then s.workers else s.workers[woken.value := Locking])
    case CloserLock => s.(closer := Setting, holder := ByCloser)
    case SetStop => s.(stop := true, closer := Waking, holder := Free)
    case NotifyAll =>
      s.(workers := WakeAll(s.workers), closer := if s.variant.Joining? then JoiningFrom(0) else Closed)
    case Join =>
      s.(closer := if s.closer.next < |s.workers| then JoiningFrom(s.closer.next + 1) else Closed)
  }

  // ----- What every step keeps

  /** A worker that will look at the queue again before it can sleep. */
  function AwakeOne(w: Worker): nat {
    if w.Locking? || w.Checking? || w.Fetching? then 1 else 0
  }

  /** A pushed task whose `notify_one` is still to come. */
  function OwedOne(c: Client): nat {
    if c.Notifying? then 1 else 0
  }

  function Held(w: Worker): multiset<Task> {
    if w.Running? then multiset{w.task} else multiset{}
  }

  function Executing(ws: seq<Worker>): multiset<Task> {
    if ws == [] then multiset{} else Held(ws[0]) + Executing(ws[1..])
  }

  ghost predicate MutexInv(s: State) {
    && (forall w :: 0 <= w < |s.workers| ==>
          ((s.workers[w].Checking? || s.workers[w].Fetching?) <==> s.holder == ByWorker(w)))
    && (forall c :: 0 <= c < |s.clients| ==> (s.clients[c].Inserting? <==> s.holder == ByClient(c)))
    && (s.closer.Setting? <==> s.holder == ByCloser)
    && (s.holder.ByWorker? ==> s.holder.w < |s.workers|)
    && (s.holder.ByClient? ==> s.holder.c < |s.clients|)
    && (forall w :: 0 <= w < |s.workers| && s.workers[w].Fetching? ==> s.stop || s.tasks != [])
  }

  /** Tasks leave the queue in the order they entered it; each popped task is running in
      exactly one worker or has finished. */
  ghost predicate HistoryInv(s: State) {
    && s.accepted == s.started + s.tasks
    && multiset(s.started) == multiset(s.finished) + Executing(s.workers)
  }

  /** No wakeup is lost: while a worker sleeps, every queued task is covered by a
      notification still owed or by a worker that is about to look. */
  ghost predicate WakeupInv(s: State) {
    AnySleeping(s.workers) ==>
      && |s.tasks| <= Sum(OwedOne, s.clients) + Sum(AwakeOne, s.workers)
      && (s.stop ==> s.closer.Waking?)
  }

  ghost predicate StopInv(s: State) {
    && (s.stop <==> s.closer.Waking? || s.closer.JoiningFrom? || s.closer.Closed?)
    && (s.variant.Joining? ==> s.late == 0)
    && (forall w :: 0 <= w < |s.workers| && s.workers[w].Returned? ==> s.stop && |s.tasks| <= s.late)
    && (s.closer.JoiningFrom? ==>
          s.closer.next <= |s.workers| &&
          forall w :: 0 <= w < s.closer.next ==> s.workers[w].Returned?)
    && (s.closer.Closed? && s.variant.Joining? ==>
          forall w :: 0 <= w < |s.workers| ==> s.workers[w].Returned?)
    && (s.closer.JoiningFrom? ==> s.variant.Joining?)
  }

  /** What is left in the queue when no worker is left was pushed after the last of them had
      returned. */
  ghost predicate StrandedInv(s: State) {
    s.stranded == if AllReturned(s.workers) then |s.tasks| else 0
  }

  ghost predicate Inv(s: State) {
    MutexInv(s) && HistoryInv(s) && WakeupInv(s) && StopInv(s) && StrandedInv(s)
  }

  lemma {:induction false} ExecutingUpdate(ws: seq<Worker>, w: nat, x: Worker, task: Task)
    requires w < |ws|
    ensures Executing(ws[w := x])[task] + Held(ws[w])[task] == Executing(ws)[task] + Held(x)[task]
  {
    if w == 0 {
      assert ws[w := x][1..] == ws[1..];
    } else {
      assert ws[w := x][1..] == ws[1..][w - 1 := x];
      ExecutingUpdate(ws[1..], w - 1, x, task);
    }
  }

  lemma NoTaskMoves(ws: seq<Worker>, w: nat, x: Worker)
    requires w < |ws| && !ws[w].Running? && !x.Running?
    ensures Executing(ws[w := x]) == Executing(ws)
  {
    forall task ensures Executing(ws[w := x])[task] == Executing(ws)[task] {
      ExecutingUpdate(ws, w, x, task);
    }
  }

  lemma TaskStarts(ws: seq<Worker>, w: nat, x: Worker)
    requires w < |ws| && !ws[w].Running? && x.Running?
    ensures Executing(ws[w := x]) == Executing(ws) + multiset{x.task}
  {
    forall task ensures Executing(ws[w := x])[task] == (Executing(ws) + multiset{x.task})[task] {
      ExecutingUpdate(ws, w, x, task);
    }
  }

  lemma TaskFinishes(ws: seq<Worker>, w: nat, x: Worker)
    requires w < |ws| && ws[w].Running? && !x.Running?
    ensures Executing(ws) == Executing(ws[w := x]) + multiset{ws[w].task}
  {
    forall task ensures Executing(ws)[task] == (Executing(ws[w := x]) + multiset{ws[w].task})[task] {
      ExecutingUpdate(ws, w, x, task);
    }
  }

  lemma {:induction false} ExecutingWakeAll(ws: seq<Worker>)
    ensures Executing(WakeAll(ws)) == Executing(ws)
  {
    if ws != [] {
      assert WakeAll(ws)[1..] == WakeAll(ws[1..]);
      ExecutingWakeAll(ws[1..]);
    }
  }

  lemma {:induction false} NobodyExecuting(ws: seq<Worker>)
    requires forall w :: 0 <= w < |ws| ==> !ws[w].Running?
    ensures Executing(ws) == multiset{}
  {
    if ws != [] {
      assert forall w :: 0 <= w < |ws[1..]| ==> ws[1..][w] == ws[w + 1];
      NobodyExecuting(ws[1..]);
    }
  }

  lemma InitInv(variant: Variant, workers: nat, clients: nat)
    ensures Inv(Init(variant, workers, clients))
  {
    NobodyExecuting(Init(variant, workers, clients).workers);
  }

  lemma WorkerKeepsMutex(s: State, step: Step)
    requires MutexInv(s) && Enabled(s, step) && step.OfWorker()
    ensures MutexInv(Apply(s, step))
  {
  }

  lemma OthersKeepMutex(s: State, step: Step)
    requires MutexInv(s) && Enabled(s, step) && !step.OfWorker()
    ensures MutexInv(Apply(s, step))
  {
  }

  /** Every step keeps the mutex with the thread whose position says that it holds it. */
  lemma StepKeepsMutex(s: State, step: Step)
    requires MutexInv(s) && Enabled(s, step)
    ensures MutexInv(Apply(s, step))
  {
    if step.OfWorker() { WorkerKeepsMutex(s, step); } else { OthersKeepMutex(s, step); }
  }

  /** Popping moves the head of the queue to the end of the started tasks. */
  lemma PopMoves(accepted: seq<Task>, started: seq<Task>, tasks: seq<Task>, done: multiset<Task>, busy: multiset<Task>)
    requires accepted == started + tasks && tasks != []
    requires multiset(started) == done + busy
    ensures accepted == (started + [tasks[0]]) + tasks[1..]
    ensures multiset(started + [tasks[0]]) == done + (busy + multiset{tasks[0]})
  {
  }

  lemma FetchKeepsHistory(s: State, w: nat)
    requires Inv(s) && Enabled(s, Fetch(w))
    ensures HistoryInv(Apply(s, Fetch(w)))
  {
    if s.tasks != [] {
      PopMoves(s.accepted, s.started, s.tasks, multiset(s.finished), Executing(s.workers));
      TaskStarts(s.workers, w, Running(s.tasks[0]));
    } else {
      NoTaskMoves(s.workers, w, Returned);
    }
  }

  lemma FinishKeepsHistory(s: State, w: nat)
    requires Inv(s) && Enabled(s, Finish(w))
    ensures HistoryInv(Apply(s, Finish(w)))
  {
    TaskFinishes(s.workers, w, Locking);
    var done := s.workers[w].task;
    assert multiset(s.finished + [done]) == multiset(s.finished) + multiset{done};
  }

  lemma StepKeepsHistory(s: State, step: Step)
    requires Inv(s) && Enabled(s, step)
    ensures HistoryInv(Apply(s, step))
  {
    var t := Apply(s, step);
    match step {
      case Fetch(w) => FetchKeepsHistory(s, w);
      case Finish(w) => FinishKeepsHistory(s, w);
      case NotifyAll => ExecutingWakeAll(s.workers);
      case Spurious(w) => NoTaskMoves(s.workers, w, Locking);
      case Lock(w) => NoTaskMoves(s.workers, w, Checking);
      case Test(w) => NoTaskMoves(s.workers, w, t.workers[w]);
      case NotifyOne(_, woken) =>
        if woken.Some? { NoTaskMoves(s.workers, woken.value, Locking); }
      case _ =>
    }
  }

  lemma WorkerKeepsWakeup(s: State, step: Step)
    requires MutexInv(s) && WakeupInv(s) && Enabled(s, step) && step.OfWorker()
    ensures WakeupInv(Apply(s, step))
  {
    var w := Thread(step);
    SumUpdate(AwakeOne, s.workers, w, Apply(s, step).workers[w]);
  }

  lemma ClientKeepsWakeup(s: State, step: Step)
    requires WakeupInv(s) && Enabled(s, step) && step.OfClient()
    ensures WakeupInv(Apply(s, step))
  {
    var c := Thread(step);
    SumUpdate(OwedOne, s.clients, c, Apply(s, step).clients[c]);
    if step.NotifyOne? && step.woken.Some? {
      SumUpdate(AwakeOne, s.workers, step.woken.value, Locking);
    }
  }

  lemma StepKeepsWakeup(s: State, step: Step)
    requires Inv(s) && Enabled(s, step)
    ensures WakeupInv(Apply(s, step))
  {
    if step.OfWorker() {
      WorkerKeepsWakeup(s, step);
    } else if step.OfClient() {
      ClientKeepsWakeup(s, step);
    }
  }

  lemma StepKeepsStop(s: State, step: Step)
    requires StopInv(s) && Enabled(s, step)
    ensures StopInv(Apply(s, step))
  {
  }

  lemma SomeoneLeft(ws: seq<Worker>, w: nat, x: Worker)
    requires w < |ws| && !ws[w].Returned? && !x.Returned?
    ensures !AllReturned(ws) && !AllReturned(ws[w := x])
  {
    assert !ws[w := x][w].Returned?;
  }

  lemma WakeAllKeepsReturned(ws: seq<Worker>)
    ensures AllReturned(WakeAll(ws)) <==> AllReturned(ws)
  {
    forall w | 0 <= w < |ws|
      ensures WakeAll(ws)[w].Returned? <==> ws[w].Returned?
    {
    }
  }

  lemma WorkerKeepsStranded(s: State, step: Step)
    requires StrandedInv(s) && Enabled(s, step) && step.OfWorker()
    ensures StrandedInv(Apply(s, step))
  {
    var w := Thread(step);
    var x := Apply(s, step).workers[w];
    if x.Returned? {
      assert !AllReturned(s.workers) && s.tasks == [];
    } else {
      SomeoneLeft(s.workers, w, x);
    }
  }

  lemma StepKeepsStranded(s: State, step: Step)
    requires StrandedInv(s) && Enabled(s, step)
    ensures StrandedInv(Apply(s, step))
  {
    if step.OfWorker() {
      WorkerKeepsStranded(s, step);
    } else if step.NotifyAll? {
      WakeAllKeepsReturned(s.workers);
    } else if step.NotifyOne? && step.woken.Some? {
      SomeoneLeft(s.workers, step.woken.value, Locking);
    }
  }

  lemma StepKeepsInv(s: State, step: Step)
    requires Inv(s) && Enabled(s, step)
    ensures Inv(Apply(s, step))
  {
    StepKeepsMutex(s, step);
    StepKeepsHistory(s, step);
    StepKeepsWakeup(s, step);
    StepKeepsStop(s, step);
    StepKeepsStranded(s, step);
  }

  // ----- Whole runs

  predicate IsRun(s: State, steps: seq<Step>)
    decreases |steps|
  {
    steps == [] || (Enabled(s, steps[0]) && IsRun(Apply(s, steps[0]), steps[1..]))
  }

  function After(s: State, steps: seq<Step>): State
    requires IsRun(s, steps)
    decreases |steps|
  {
    if steps == [] then s else After(Apply(s, steps[0]), steps[1..])
  }

  lemma {:induction false} RunKeepsInv(s: State, steps: seq<Step>)
    requires Inv(s) && IsRun(s, steps)
    ensures Inv(After(s, steps))
    decreases |steps|
  {
    if steps != [] {
      StepKeepsInv(s, steps[0]);
      RunKeepsInv(Apply(s, steps[0]), steps[1..]);
    }
  }

  lemma {:induction false} RunKeepsShape(s: State, steps: seq<Step>)
    requires IsRun(s, steps)
    ensures After(s, steps).variant == s.variant
    ensures |After(s, steps).workers| == |s.workers| && |After(s, steps).clients| == |s.clients|
    decreases |steps|
  {
    if steps != [] {
      RunKeepsShape(Apply(s, steps[0]), steps[1..]);
    }
  }

  ghost predicate Reaches(s: State, t: State) {
    exists steps :: IsRun(s, steps) && After(s, steps) == t
  }

  /** Every state an interleaving can lead to satisfies the invariant and still has the
      threads and the variant it began with. */
  lemma Reachable(variant: Variant, workers: nat, clients: nat)
    ensures forall s :: Reaches(Init(variant, workers, clients), s) ==>
      Inv(s) && s.variant == variant && |s.workers| == workers && |s.clients| == clients
  {
    var init := Init(variant, workers, clients);
    InitInv(variant, workers, clients);
    forall s | Reaches(init, s)
      ensures Inv(s) && s.variant == variant && |s.workers| == workers && |s.clients| == clients
    {
      var steps :| IsRun(init, steps) && After(init, steps) == s;
      RunKeepsInv(init, steps);
      RunKeepsShape(init, steps);
    }
  }

  /** Lost-wakeup freedom, for both pools, any number of workers and submitters and any
      interleaving, spurious wakeups included. */
  lemma NoLostWakeup(variant: Variant, workers: nat, clients: nat, s: State)
    requires Reaches(Init(variant, workers, clients), s) && AnySleeping(s.workers)
    ensures |s.tasks| <= Sum(OwedOne, s.clients) + Sum(AwakeOne, s.workers)
    ensures s.stop ==> s.closer.Waking?
  {
    Reachable(variant, workers, clients);
  }

  /** Tasks are dequeued in submission order, none twice, none invented: in every
      reachable state the popped tasks followed by the queued ones are the accepted ones,
      and the popped ones are exactly those running and those finished. */
  lemma FirstInFirstOut(variant: Variant, workers: nat, clients: nat, s: State)
    requires Reaches(Init(variant, workers, clients), s)
    ensures s.accepted == s.started + s.tasks
    ensures multiset(s.started) == multiset(s.finished) + Executing(s.workers)
  {
    Reachable(variant, workers, clients);
  }

  /** Once `stop` is set the joining pool accepts nothing more, whatever is called. */
  lemma {:induction false} NothingAcceptedAfterStop(s: State, steps: seq<Step>)
    requires s.variant.Joining? && s.stop && IsRun(s, steps)
    ensures After(s, steps).stop && After(s, steps).accepted == s.accepted
    decreases |steps|
  {
    if steps != [] {
      NothingAcceptedAfterStop(Apply(s, steps[0]), steps[1..]);
    }
  }

  /** `tasks.front()` and `tasks.pop()` never meet an empty queue. */
  lemma FetchIsDefined(s: State, w: nat)
    requires Inv(s) && w < |s.workers| && s.workers[w].Fetching?
    ensures Enabled(s, Fetch(w))
  {
  }

  // ----- Progress

  /** No call is in progress and every worker sleeps or has returned. */
  predicate Quiet(s: State) {
    && s.holder.Free?
    && (s.closer.Open? || s.closer.Closed?)
    && (forall c :: 0 <= c < |s.clients| ==> s.clients[c].Idle?)
    && (forall w :: 0 <= w < |s.workers| ==> s.workers[w].Sleeping? || s.workers[w].Returned?)
  }

  lemma HolderCanStep(s: State) returns (step: Step)
    requires Inv(s) && !s.holder.Free?
    ensures step.Internal() && Enabled(s, step)
  {
    match s.holder {
      case ByWorker(w) => step := if s.workers[w].Checking? then Test(w) else Fetch(w);
      case ByClient(c) => step := Insert(c);
      case ByCloser => step := SetStop;
    }
  }

  lemma BusyClientCanStep(s: State, c: nat) returns (step: Step)
    requires Inv(s) && s.holder.Free? && c < |s.clients| && !s.clients[c].Idle?
    ensures step.Internal() && Enabled(s, step)
  {
    if s.clients[c].Calling? {
      step := ClientLock(c);
    } else if AnySleeping(s.workers) {
      var w: nat :| w < |s.workers| && s.workers[w].Sleeping?;
      step := NotifyOne(c, Some(w));
    } else {
      step := NotifyOne(c, None);
    }
  }

  lemma CloserCanStep(s: State) returns (step: Step)
    requires Inv(s) && s.holder.Free? && !s.closer.Open? && !s.closer.Closed?
    requires forall w :: 0 <= w < |s.workers| ==> s.workers[w].Sleeping? || s.workers[w].Returned?
    ensures step.Internal() && Enabled(s, step)
  {
    match s.closer {
      case Entering => step := CloserLock;
      case Waking => step := NotifyAll;
      case JoiningFrom(next) =>
        // after the notify_all nobody sleeps, so the next worker has returned
        assert forall w :: 0 <= w < |s.workers| ==> !s.workers[w].Sleeping?;
        step := Join;
    }
  }

  /** Deadlock freedom: unless the pool is quiet, one of its own threads can step. */
  lemma Progress(s: State)
    requires Inv(s)
    ensures Quiet(s) <==> !exists step: Step :: step.Internal() && Enabled(s, step)
  {
    if !Quiet(s) {
      var step: Step;
      if !s.holder.Free? {
        step := HolderCanStep(s);
      } else if c: nat :| c < |s.clients| && !s.clients[c].Idle? {
        step := BusyClientCanStep(s, c);
      } else if w: nat :| w < |s.workers| && !s.workers[w].Sleeping? && !s.workers[w].Returned? {
        step := if s.workers[w].Locking? then Lock(w) else Finish(w);
      } else {
        step := CloserCanStep(s);
      }
      assert step.Internal() && Enabled(s, step);
    }
  }

  /** What a pool with at least one worker looks like when it comes to rest: not closed,
      all workers sleep on an empty queue; closed, all have returned and the queue holds as
      many tasks as were pushed when no worker was left. So every accepted task has been
      run, exactly once and in order, if and only if none was pushed that late. */
  lemma AtRest(s: State)
    requires Inv(s) && Quiet(s) && |s.workers| >= 1
    ensures if s.closer.Open?
      then forall w :: 0 <= w < |s.workers| ==> s.workers[w].Sleeping?
      else AllReturned(s.workers)
    ensures |s.tasks| == s.stranded <= s.late
    ensures s.stranded == 0 <==> s.started == s.accepted
    ensures s.stranded == 0 <==> multiset(s.finished) == multiset(s.accepted)
  {
    SumZero(OwedOne, s.clients);
    SumZero(AwakeOne, s.workers);
    NobodyExecuting(s.workers);
    assert s.workers[0].Sleeping? || s.workers[0].Returned?;
    assert |s.accepted| == |s.started| + |s.tasks|;
    assert |multiset(s.finished)| == |s.started| && |multiset(s.accepted)| == |s.accepted|;
  }

  /** Drain on destruction: when the destructor of the joining pool has returned, the
      queue is empty and every accepted task ran exactly once, popped in order. */
  lemma DrainedWhenJoined(workers: nat, clients: nat, s: State)
    requires workers >= 1 && Reaches(Init(Joining, workers, clients), s) && s.closer.Closed?
    ensures s.tasks == [] && s.started == s.accepted && multiset(s.finished) == multiset(s.accepted)
  {
    Reachable(Joining, workers, clients);
    NobodyExecuting(s.workers);
    assert s.workers[0].Returned?;
  }

  // ----- Termination

  function WorkerWeight(w: Worker): nat {
    match w
    case Locking => 3
    case Checking => 2
    case Fetching => 1
    case Running(_) => 4
    case Sleeping => 0
    case Returned => 0
  }

  function ClientWeight(c: Client): nat {
    match c
    case Idle => 0
    case Notifying => 4
    case Inserting(_) => 9
    case Calling(_) => 10
  }

  function CloserWeight(c: Closer, workers: nat): nat {
    match c
    case Open => 0
    case Entering => 4 * workers + 4
    case Setting => 4 * workers + 3
    case Waking => 4 * workers + 2
    case JoiningFrom(next) => if next <= workers then workers - next + 1 else 0
    case Closed => 0
  }

  function Measure(s: State): nat {
    4 * |s.tasks| + Sum(WorkerWeight, s.workers) + Sum(ClientWeight, s.clients)
    + CloserWeight(s.closer, |s.workers|)
  }

  lemma WorkerUsesBudget(s: State, step: Step)
    requires Enabled(s, step) && step.OfWorker() && step.Internal()
    ensures Measure(Apply(s, step)) < Measure(s)
  {
    var w := Thread(step);
    SumUpdate(WorkerWeight, s.workers, w, Apply(s, step).workers[w]);
  }

  lemma ClientUsesBudget(s: State, step: Step)
    requires Enabled(s, step) && step.OfClient() && step.Internal()
    ensures Measure(Apply(s, step)) < Measure(s)
  {
    var c := Thread(step);
    SumUpdate(ClientWeight, s.clients, c, Apply(s, step).clients[c]);
    if step.NotifyOne? && step.woken.Some? {
      SumUpdate(WorkerWeight, s.workers, step.woken.value, Locking);
    }
  }

  /** Every step of the pool itself uses up some of a finite budget, so without new calls
      and spurious wakeups the pool comes to rest. */
  lemma MeasureDecreases(s: State, step: Step)
    requires Inv(s) && step.Internal() && Enabled(s, step)
    ensures Measure(Apply(s, step)) < Measure(s)
  {
    if step.OfWorker() {
      WorkerUsesBudget(s, step);
    } else if step.OfClient() {
      ClientUsesBudget(s, step);
    } else if step.NotifyAll? {
      SumGrowth(WorkerWeight, s.workers, Apply(s, step).workers, 3);
    }
  }

  /** Under every scheduler the pool makes at most `Measure(s)` steps of its own. */
  lemma {:induction false} RunsAreBounded(s: State, steps: seq<Step>)
    requires Inv(s) && IsRun(s, steps)
    requires forall i :: 0 <= i < |steps| ==> steps[i].Internal()
    ensures |steps| <= Measure(s)
    decreases |steps|
  {
    if steps != [] {
      StepKeepsInv(s, steps[0]);
      MeasureDecreases(s, steps[0]);
      assert forall i :: 0 <= i < |steps[1..]| ==> steps[1..][i] == steps[i + 1];
      RunsAreBounded(Apply(s, steps[0]), steps[1..]);
    }
  }

  /** The destructor has been entered and does not start over. */
  lemma {:induction false} ClosingGoesOn(s: State, steps: seq<Step>)
    requires !s.closer.Open? && IsRun(s, steps)
    ensures !After(s, steps).closer.Open?
    decreases |steps|
  {
    if steps != [] {
      ClosingGoesOn(Apply(s, steps[0]), steps[1..]);
    }
  }

  lemma {:induction false} RunsJoin(s: State, first: seq<Step>, rest: seq<Step>)
    requires IsRun(s, first) && IsRun(After(s, first), rest)
    ensures IsRun(s, first + rest) && After(s, first + rest) == After(After(s, first), rest)
    decreases |first|
  {
    if first == [] {
      assert first + rest == rest;
    } else {
      assert (first + rest)[0] == first[0] && (first + rest)[1..] == first[1..] + rest;
      RunsJoin(Apply(s, first[0]), first[1..], rest);
    }
  }

  lemma ReachesAfter(init: State, s: State, steps: seq<Step>)
    requires Reaches(init, s) && IsRun(s, steps)
    ensures Reaches(init, After(s, steps))
  {
    var first :| IsRun(init, first) && After(init, first) == s;
    RunsJoin(init, first, steps);
  }

  /** The destructor returns: from any state in which it has been entered, the pool's own
      threads make at most `Measure(s)` steps under every scheduler, and when none of them
      can go on the destructor is over. The joining pool has then run every accepted task
      exactly once, in order; the detached pool has run all but the stranded ones. */
  lemma DestructorReturns(variant: Variant, workers: nat, clients: nat, s: State, steps: seq<Step>)
    requires workers >= 1 && Reaches(Init(variant, workers, clients), s) && !s.closer.Open?
    requires IsRun(s, steps) && forall i :: 0 <= i < |steps| ==> steps[i].Internal()
    ensures |steps| <= Measure(s)
    ensures var t := After(s, steps);
      (!exists step: Step :: step.Internal() && Enabled(t, step)) ==>
        && t.closer.Closed? && AllReturned(t.workers)
        && |t.tasks| == t.stranded && t.accepted == t.started + t.tasks
        && multiset(t.started) == multiset(t.finished)
        && (variant.Joining? ==> t.started == t.accepted)
  {
    var t := After(s, steps);
    Reachable(variant, workers, clients);
    RunsAreBounded(s, steps);
    ClosingGoesOn(s, steps);
    ReachesAfter(Init(variant, workers, clients), s, steps);
    Progress(t);
    if Quiet(t) {
      AtRest(t);
      NobodyExecuting(t.workers);
    }
  }

  // ----- Where the detached pool differs

  /** Once every worker has returned, no step takes anything from the queue again. */
  lemma {:induction false} NobodyLeft(s: State, steps: seq<Step>)
    requires AllReturned(s.workers) && IsRun(s, steps)
    ensures After(s, steps).started == s.started && s.tasks <= After(s, steps).tasks
    decreases |steps|
  {
    if steps != [] {
      NobodyLeft(Apply(s, steps[0]), steps[1..]);
    }
  }

  /** When the detached pool has come to rest after its destructor, every accepted task has
      been run if and only if none was pushed when all workers had returned. */
  lemma DetachedDrains(workers: nat, clients: nat, s: State)
    requires workers >= 1 && Reaches(Init(Detached, workers, clients), s) && Quiet(s) && s.closer.Closed?
    ensures |s.accepted| == |s.started| + s.stranded
    ensures multiset(s.finished) == multiset(s.accepted) <==> s.stranded == 0
  {
    Reachable(Detached, workers, clients);
    AtRest(s);
  }

  /** A run of a detached pool with any number of workers, in which a client is inside
      `execute` while the destructor has set the flag but not yet notified: the workers
      have all seen the flag and returned when the task is pushed. By `NobodyLeft` the task
      is never run. */
  lemma DetachedStrands(workers: nat, clients: nat, task: Task) returns (s: State)
    requires clients >= 1
    ensures Reaches(Init(Detached, workers, clients), s) && Quiet(s) && s.closer.Closed?
    ensures AllReturned(s.workers) && s.tasks == s.accepted == [task] && s.started == []
  {
    var init := Init(Detached, workers, clients);
    assert IsRun(init, []) && After(init, []) == init;
    s := Go(init, init, Submit(0, task));
    s := Go(init, s, Close);
    s := Go(init, s, CloserLock);
    s := Go(init, s, SetStop);
    s := WorkersReturn(init, s, 0);
    s := Go(init, s, ClientLock(0));
    s := Go(init, s, Insert(0));
    assert !AnySleeping(s.workers);
    s := Go(init, s, NotifyOne(0, None));
    WakeAllKeepsReturned(s.workers);
    s := Go(init, s, NotifyAll);
  }

  lemma Go(init: State, s: State, step: Step) returns (t: State)
    requires Reaches(init, s) && Enabled(s, step)
    ensures Reaches(init, t) && t == Apply(s, step)
  {
    assert IsRun(Apply(s, step), [step][1..]) && After(s, [step]) == Apply(s, step);
    ReachesAfter(init, s, [step]);
    t := Apply(s, step);
  }

  /** With the flag set and nothing to do, the workers return one after the other. */
  lemma {:induction false} WorkersReturn(init: State, s: State, from: nat) returns (t: State)
    requires Reaches(init, s) && s.stop && s.tasks == [] && s.holder.Free? && from <= |s.workers|
    requires forall w :: 0 <= w < from ==> s.workers[w].Returned?
    requires forall w :: from <= w < |s.workers| ==> s.workers[w].Locking?
    ensures Reaches(init, t) && AllReturned(t.workers) && t == s.(workers := t.workers)
    decreases |s.workers| - from
  {
    t := s;
    if from < |s.workers| {
      t := Go(init, t, Lock(from));
      t := Go(init, t, Test(from));
      t := Go(init, t, Fetch(from));
      t := WorkersReturn(init, t, from + 1);
    }
  }

  // ----- The pool as an object

  /** The pool with its fields updated in place. Each method takes the next step of one
      thread; what it does to all the fields together is `Apply`. */
  class ThreadPool {
    const variant: Variant
    var tasks: seq<Task>
    var stop: bool
    var holder: Holder
    var workers: seq<Worker>
    var clients: seq<Client>
    var closer: Closer
    ghost var accepted: seq<Task>
    ghost var started: seq<Task>
    ghost var finished: seq<Task>
    ghost var late: nat
    ghost var stranded: nat

    ghost function View(): State
      reads this
    {
      State(variant, tasks, stop, holder, workers, clients, closer, accepted, started, finished, late, stranded)
    }

    constructor (variant: Variant, threads: nat, submitters: nat)
      ensures View() == Init(variant, threads, submitters)
      ensures Inv(View())
    {
      this.variant := variant;
      tasks, stop, holder, closer := [], false, Free, Open;
      workers, clients := seq(threads, _ => Locking), seq(submitters, _ => Idle);
      accepted, started, finished, late, stranded := [], [], [], 0, 0;
      new;
      InitInv(variant, threads, submitters);
    }

    /** The worker loop, up to its next interleaving point. */
    method WorkerStep(w: nat) returns (step: Step)
      requires Inv(View()) && w < |workers|
      requires !workers[w].Sleeping? && !workers[w].Returned? && (workers[w].Locking? ==> holder.Free?)
      modifies this
      ensures step in {Lock(w), Test(w), Fetch(w), Finish(w)}
      ensures Enabled(old(View()), step) && View() == Apply(old(View()), step)
      ensures Inv(View())
    {
      ghost var before := View();
      match workers[w] {
        case Locking =>
          step := Lock(w);
          workers, holder := workers[w := Checking], ByWorker(w);
        case Checking =>
          step := Test(w);
          if stop || tasks != [] {
            workers := workers[w := Fetching];
          } else {
            workers, holder := workers[w := Sleeping], Free;
          }
        case Fetching =>
          step := Fetch(w);
          if stop && tasks == [] {
            workers := workers[w := Returned];
          } else {
            var task := tasks[0];
            tasks, started := tasks[1..], started + [task];
            workers := workers[w := Running(task)];
          }
          holder := Free;
        case Running(task) =>
          step := Finish(w);
          finished := finished + [task];
          workers := workers[w := Locking];
      }
      assert View() == Apply(before, step);
      StepKeepsInv(before, step);
    }

    /** A client calls `enqueue` or `execute`. */
    method Submit(c: nat, task: Task)
      requires Inv(View()) && c < |clients| && clients[c].Idle?
      modifies this`clients
      ensures View() == Apply(old(View()), Step.Submit(c, task)) && Inv(View())
    {
      StepKeepsInv(View(), Step.Submit(c, task));
      clients := clients[c := Calling(task)];
    }

    /** The destructor begins. */
    method Close()
      requires Inv(View()) && closer.Open?
      modifies this`closer
      ensures View() == Apply(old(View()), Step.Close) && Inv(View())
    {
      StepKeepsInv(View(), Step.Close);
      closer := Entering;
    }

    /** A wait returns for no reason. */
    method SpuriousWakeup(w: nat)
      requires Inv(View()) && w < |workers| && workers[w].Sleeping?
      modifies this`workers
      ensures View() == Apply(old(View()), Spurious(w)) && Inv(View())
    {
      StepKeepsInv(View(), Spurious(w));
      workers := workers[w := Locking];
    }

    /** `enqueue` or `execute`, up to its next interleaving point; `woken` is the sleeper
        the condition variable picks. */
    method ClientStep(c: nat, woken: Option<nat>) returns (step: Step)
      requires Inv(View()) && c < |clients| && !clients[c].Idle? && (clients[c].Calling? ==> holder.Free?)
      requires clients[c].Notifying? ==> Enabled(View(), NotifyOne(c, woken))
      modifies this
      ensures step in {ClientLock(c), Insert(c), NotifyOne(c, woken)}
      ensures Enabled(old(View()), step) && View() == Apply(old(View()), step)
      ensures Inv(View())
    {
      ghost var before := View();
      match clients[c] {
        case Calling(task) =>
          step := ClientLock(c);
          clients, holder := clients[c := Inserting(task)], ByClient(c);
        case Inserting(task) =>
          step := Insert(c);
          Push(c, task);
        case Notifying =>
          step := NotifyOne(c, woken);
          if woken.Some? {
            workers := workers[woken.value := Locking];
          }
          clients := clients[c := Idle];
      }
      assert View() == Apply(before, step);
      StepKeepsInv(before, step);
    }

    /** The critical section of `enqueue` or `execute`. */
    method Push(c: nat, task: Task)
      requires Enabled(View(), Insert(c)) && clients[c].task == task
      modifies this
      ensures View() == Apply(old(View()), Insert(c))
    {
      if variant.Joining? && stop {
        clients := clients[c := Idle];
      } else {
        tasks, accepted := tasks + [task], accepted + [task];
        late := if stop then late + 1 else late;
        stranded := if AllReturned(workers) then stranded + 1 else stranded;
        clients := clients[c := Notifying];
      }
      holder := Free;
    }

    /** The destructor, up to its next interleaving point. */
    method CloserStep() returns (step: Step)
      requires Inv(View()) && !closer.Open? && !closer.Closed? && (closer.Entering? ==> holder.Free?)
      requires closer.JoiningFrom? ==> Enabled(View(), Join)
      modifies this
      ensures step in {CloserLock, SetStop, NotifyAll, Join}
      ensures Enabled(old(View()), step) && View() == Apply(old(View()), step)
      ensures Inv(View())
    {
      ghost var before := View();
      match closer {
        case Entering =>
          step := CloserLock;
          closer, holder := Setting, ByCloser;
        case Setting =>
          step := SetStop;
          stop, closer, holder := true, Waking, Free;
        case Waking =>
          step := NotifyAll;
          workers := WakeAll(workers);
          closer := if variant.Joining? then JoiningFrom(0) else Closed;
        case JoiningFrom(next) =>
          step := Join;
          closer := if next < |workers| then JoiningFrom(next + 1) else Closed;
      }
      assert View() == Apply(before, step);
      StepKeepsInv(before, step);
    }

    /** Any step of the machine, by the method that takes it. */
    method Take(step: Step)
      requires Inv(View()) && Enabled(View(), step)
      modifies this
      ensures View() == Apply(old(View()), step) && Inv(View())
    {
      if step.OfWorker() && !step.Spurious? {
        var w := Thread(step);
        var taken := WorkerStep(w);
        assert taken == step by { OneStepPerThread(old(View()), taken, step); }
      } else if step.OfClient() && !step.Submit? {
        var c := Thread(step);
        var taken := ClientStep(c, if step.NotifyOne? then step.woken else None);
        assert taken == step by { OneStepPerThread(old(View()), taken, step); }
      } else {
        TakeOther(step);
      }
    }

    method TakeOther(step: Step)
      requires Inv(View()) && Enabled(View(), step)
      requires step.Submit? || step.Spurious? || (!step.OfWorker() && !step.OfClient())
      modifies this
      ensures View() == Apply(old(View()), step) && Inv(View())
    {
      if step.Submit? {
        Submit(step.c, step.task);
      } else if step.Close? {
        Close();
      } else if step.Spurious? {
        SpuriousWakeup(step.w);
      } else {
        var taken := CloserStep();
        assert taken == step;
      }
    }
  }

  /** A thread has one step to take at a time, up to the choice of the sleeper to wake. */
  lemma OneStepPerThread(s: State, a: Step, b: Step)
    requires Enabled(s, a) && Enabled(s, b)
    requires a.Lock? || a.Test? || a.Fetch? || a.Finish? || a.ClientLock? || a.Insert? || a.NotifyOne?
    requires a.OfWorker() == b.OfWorker() && !b.Spurious? && a.OfClient() == b.OfClient() && !b.Submit?
    requires a.OfWorker() ==> Thread(a) == Thread(b)
    requires a.OfClient() ==> Thread(a) == Thread(b) && (a.NotifyOne? && b.NotifyOne? ==> a.woken == b.woken)
    ensures a == b
  {
  }

  /** A new object driven through any run of the machine ends in the run's state. */
  method Play(variant: Variant, workers: nat, clients: nat, steps: seq<Step>) returns (pool: ThreadPool)
    requires IsRun(Init(variant, workers, clients), steps)
    ensures pool.View() == After(Init(variant, workers, clients), steps) && Inv(pool.View())
  {
    pool := new ThreadPool(variant, workers, clients);
    for n := 0 to |steps|
      invariant fresh(pool) && Inv(pool.View())
      invariant IsRun(pool.View(), steps[n..])
      invariant After(pool.View(), steps[n..]) == After(Init(variant, workers, clients), steps)
    {
      assert steps[n..][0] == steps[n] && steps[n..][1..] == steps[n + 1..];
      pool.Take(steps[n]);
    }
  }
}
