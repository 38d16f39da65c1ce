/** The growing and shrinking C pool of zl_threadpool/02_thread_pool/threadpool.c, before
    shutdown.

    All shared fields but `busy_thr_num` are touched only under `lock`, and that one only
    under `thread_counter`, so a critical section is one atomic step: each method of
    `Pool` is one section of `threadpool_add`, of a worker, or of the manager, and calling
    them in any order, with any arguments, is a run. */
module DynamicPool {
  import opened Common

  const MIN_WAIT_TASK_NUM := 10
  const DEFAULT_THREAD_VARY := 10

  /** Where a worker thread is between its critical sections; `k` numbers the tasks in the
      order in which they were accepted. */
  datatype Phase =
    | Locking          // about to lock, at the top of its loop
    | Waiting          // asleep on queue_not_empty
    | Woken            // its wait returned
    | Fetched(k: nat)  // has a task, not yet counted as busy
    | Running(k: nat)
    | Exited

  predicate EmptyHanded(p: Phase) {
    !p.Fetched? && !p.Running?
  }

  ghost function Live(phases: seq<Phase>): set<int> {
    set w | 0 <= w < |phases| && phases[w] != Exited
  }

  ghost function Busy(phases: seq<Phase>): set<int> {
    set w | 0 <= w < |phases| && phases[w].Running?
  }

  lemma BusyAreLive(phases: seq<Phase>)
    ensures |Busy(phases)| <= |Live(phases)|
  {
    SubsetSize(Busy(phases), Live(phases));
  }

  /** One worker moves on. */
  lemma Moved(phases: seq<Phase>, w: nat, p: Phase)
    requires w < |phases|
    ensures Live(phases[w := p]) == if p == Exited then Live(phases) - {w} else Live(phases) + {w}
    ensures Busy(phases[w := p]) == if p.Running? then Busy(phases) + {w} else Busy(phases) - {w}
  {
  }

  lemma Started(phases: seq<Phase>)
    ensures Live(phases + [Locking]) == Live(phases) + {|phases|}
    ensures Busy(phases + [Locking]) == Busy(phases)
  {
  }

  // ----- The ring of tasks

  /** The slot `i` places behind `front`. */
  function Slot(front: nat, i: nat, cap: nat): (slot: nat)
    requires front < cap && i <= cap
    ensures slot < cap
  {
    if front + i < cap then front + i else front + i - cap
  }

  lemma SlotIsModulo(front: nat, i: nat, cap: nat)
    requires front < cap && i <= cap
    ensures Slot(front, i, cap) == (front + i) % cap
  {
  }

  /** The queued tasks, front to back. */
  ghost function Queued(ring: seq<int>, front: nat, size: nat): (q: seq<int>)
    requires front < |ring| && size <= |ring|
    ensures |q| == size && forall i :: 0 <= i < size ==> q[i] == ring[Slot(front, i, |ring|)]
  {
    seq(size, i requires 0 <= i < size => ring[Slot(front, i, |ring|)])
  }

  /** The ring holds the pending tasks, and its rear is where the next one goes. */
  ghost predicate RingHolds(ring: seq<int>, front: nat, rear: nat, size: nat, pending: seq<int>) {
    && front < |ring| && size <= |ring|
    && rear == Slot(front, size, |ring|)
    && Queued(ring, front, size) == pending
  }

  lemma RingAfterPut(ring: seq<int>, front: nat, rear: nat, size: nat, pending: seq<int>, task: int)
    requires RingHolds(ring, front, rear, size, pending) && size < |ring|
    ensures RingHolds(ring[rear := task], front, (rear + 1) % |ring|, size + 1, pending + [task])
  {
    SlotIsModulo(rear, 1, |ring|);
  }

  lemma RingAfterTake(ring: seq<int>, front: nat, rear: nat, size: nat, pending: seq<int>)
    requires RingHolds(ring, front, rear, size, pending) && size > 0
    ensures pending != [] && ring[front] == pending[0]
    ensures RingHolds(ring, (front + 1) % |ring|, rear, size - 1, pending[1..])
  {
    SlotIsModulo(front, 1, |ring|);
  }

  lemma PendingAfterTake(accepted: seq<int>, n: nat)
    requires n <= |accepted| && accepted[n..] != []
    ensures n < |accepted| && accepted[n..][0] == accepted[n] && accepted[n..][1..] == accepted[n + 1..]
  {
  }

  // ----- What every section keeps

  /** The counters count, within their bounds. */
  ghost predicate Counts(phases: seq<Phase>, liveThr: int, busyThr: int, minThr: nat, maxThr: nat) {
    liveThr == |Live(phases)| && busyThr == |Busy(phases)| && minThr <= liveThr <= maxThr
  }

  /** Every live worker has its own entry of `threads`. */
  ghost predicate Slots(threads: seq<int>, phases: seq<Phase>) {
    && (forall i :: 0 <= i < |threads| ==> -1 <= threads[i] < |phases|)
    && (forall i, j :: 0 <= i < j < |threads| && threads[i] >= 0 ==> threads[i] != threads[j])
    && (forall w :: 0 <= w < |phases| && phases[w] != Exited ==> w in threads)
  }

  /** Every task taken from the queue is in the hands of one worker, which `place` names, or
      done (-1), never in two hands and never in one again. */
  ghost predicate Once(phases: seq<Phase>, place: seq<int>) {
    && (forall w :: 0 <= w < |phases| && !EmptyHanded(phases[w]) ==>
          phases[w].k < |place| && place[phases[w].k] == w)
    && (forall k :: 0 <= k < |place| ==>
          place[k] == -1 ||
          (0 <= place[k] < |phases| && !EmptyHanded(phases[place[k]]) && phases[place[k]].k == k))
  }

  /** The workers' part of the invariant, for one table of threads. */
  ghost predicate Threads(threads: seq<int>, phases: seq<Phase>, place: seq<int>) {
    Slots(threads, phases) && Once(phases, place)
  }

  lemma MoveKeepsThreads(threads: seq<int>, phases: seq<Phase>, place: seq<int>, w: nat, p: Phase)
    requires Threads(threads, phases, place) && w < |phases| && phases[w] != Exited
    requires EmptyHanded(phases[w]) && EmptyHanded(p) && p != Exited
    ensures Threads(threads, phases[w := p], place)
    ensures Live(phases[w := p]) == Live(phases) && Busy(phases[w := p]) == Busy(phases)
  {
    MoveKeepsSlots(threads, phases, w, p);
    MoveKeepsOnce(phases, place, w, p);
  }

  lemma ExitKeepsThreads(threads: seq<int>, phases: seq<Phase>, place: seq<int>, w: nat)
    requires Threads(threads, phases, place) && w < |phases| && phases[w] == Woken
    ensures Threads(threads, phases[w := Exited], place)
    ensures |Live(phases[w := Exited])| == |Live(phases)| - 1 && Busy(phases[w := Exited]) == Busy(phases)
  {
    MoveKeepsSlots(threads, phases, w, Exited);
    MoveKeepsOnce(phases, place, w, Exited);
    Moved(phases, w, Exited);
    assert w in Live(phases);
  }

  lemma FetchKeepsThreads(threads: seq<int>, phases: seq<Phase>, place: seq<int>, w: nat)
    requires Threads(threads, phases, place) && w < |phases| && EmptyHanded(phases[w]) && phases[w] != Exited
    ensures Threads(threads, phases[w := Fetched(|place|)], place + [w])
    ensures Live(phases[w := Fetched(|place|)]) == Live(phases) && Busy(phases[w := Fetched(|place|)]) == Busy(phases)
  {
    MoveKeepsSlots(threads, phases, w, Fetched(|place|));
  }

  lemma RunKeepsThreads(threads: seq<int>, phases: seq<Phase>, place: seq<int>, w: nat)
    requires Threads(threads, phases, place) && w < |phases| && phases[w].Fetched?
    ensures Threads(threads, phases[w := Running(phases[w].k)], place)
    ensures Live(phases[w := Running(phases[w].k)]) == Live(phases)
    ensures |Busy(phases[w := Running(phases[w].k)])| == |Busy(phases)| + 1
  {
    MoveKeepsSlots(threads, phases, w, Running(phases[w].k));
    assert !EmptyHanded(phases[w]);
    Moved(phases, w, Running(phases[w].k));
    assert w !in Busy(phases);
  }

  lemma EndKeepsThreads(threads: seq<int>, phases: seq<Phase>, place: seq<int>, w: nat)
    requires Threads(threads, phases, place) && w < |phases| && phases[w].Running?
    ensures phases[w].k < |place|
    ensures Threads(threads, phases[w := Locking], place[phases[w].k := -1])
    ensures Live(phases[w := Locking]) == Live(phases) && |Busy(phases[w := Locking])| == |Busy(phases)| - 1
  {
    MoveKeepsSlots(threads, phases, w, Locking);
    EndKeepsOnce(phases, place, w);
    Moved(phases, w, Locking);
    assert w in Busy(phases);
  }

  lemma StartKeepsThreads(threads: seq<int>, phases: seq<Phase>, place: seq<int>, i: nat)
    requires Threads(threads, phases, place) && i < |threads|
    requires threads[i] >= 0 ==> phases[threads[i]] == Exited
    ensures Threads(threads[i := |phases|], phases + [Locking], place)
    ensures |Live(phases + [Locking])| == |Live(phases)| + 1 && Busy(phases + [Locking]) == Busy(phases)
  {
    StartKeepsSlots(threads, phases, i);
    Started(phases);
  }

  lemma MoveKeepsSlots(threads: seq<int>, phases: seq<Phase>, w: nat, p: Phase)
    requires Slots(threads, phases) && w < |phases| && phases[w] != Exited
    ensures Slots(threads, phases[w := p])
  {
  }

  lemma MoveKeepsOnce(phases: seq<Phase>, place: seq<int>, w: nat, p: Phase)
    requires Once(phases, place) && w < |phases| && EmptyHanded(phases[w]) && EmptyHanded(p)
    ensures Once(phases[w := p], place)
  {
  }

  lemma EndKeepsOnce(phases: seq<Phase>, place: seq<int>, w: nat)
    requires Once(phases, place) && w < |phases| && phases[w].Running?
    ensures phases[w].k < |place| && place[phases[w].k] == w
    ensures Once(phases[w := Locking], place[phases[w].k := -1])
  {
    assert !EmptyHanded(phases[w]);
  }

  lemma StartKeepsSlots(threads: seq<int>, phases: seq<Phase>, i: nat)
    requires Slots(threads, phases) && i < |threads|
    requires threads[i] >= 0 ==> phases[threads[i]] == Exited
    ensures Slots(threads[i := |phases|], phases + [Locking])
  {
    var now := threads[i := |phases|];
    forall w | 0 <= w < |phases| && phases[w] != Exited
      ensures w in now
    {
      var j :| 0 <= j < |threads| && threads[j] == w;
      assert now[j] == w;
    }
    assert now[i] == |phases|;
  }

  /** If every entry holds a live worker, the pool has as many live workers as entries. */
  lemma FullTable(threads: seq<int>, phases: seq<Phase>)
    requires Slots(threads, phases)
    requires AllLive(threads, phases, |threads|)
    ensures |Live(phases)| == |threads|
  {
    DistinctSize(threads, Live(phases));
  }

  predicate IsLive(phases: seq<Phase>, w: int) {
    0 <= w < |phases| && phases[w] != Exited
  }

  /** `is_thread_alive` is never wrong. */
  ghost predicate IsExact(seemsAlive: int -> bool, threads: seq<int>, phases: seq<Phase>) {
    forall i :: 0 <= i < |threads| && threads[i] >= 0 && seemsAlive(i) ==> IsLive(phases, threads[i])
  }

  ghost predicate AllLive(threads: seq<int>, phases: seq<Phase>, i: nat) {
    i <= |threads| && forall j :: 0 <= j < i ==> IsLive(phases, threads[j])
  }

  /** Of the first `i` entries, those without a thread that seems alive have a new worker,
      `add` in all, and nothing else has changed. */
  ghost predicate Grown(threads0: seq<int>, phases0: seq<Phase>, threads1: seq<int>, phases1: seq<Phase>,
                        add: nat, i: nat, seemsAlive: int -> bool) {
    && i <= |threads0| == |threads1|
    && (forall j :: 0 <= j < |threads0| ==> threads0[j] < |phases0|)
    && |phases1| == |phases0| + add && phases0 <= phases1
    && (forall w :: |phases0| <= w < |phases1| ==> phases1[w] == Locking)
    && (forall j :: i <= j < |threads0| ==> threads1[j] == threads0[j])
    && (forall j :: 0 <= j < i ==>
          if threads0[j] >= 0 && seemsAlive(j) then threads1[j] == threads0[j]
          else |phases0| <= threads1[j] < |phases1|)
  }

  lemma GrownByOne(threads0: seq<int>, phases0: seq<Phase>, threads1: seq<int>, phases1: seq<Phase>,
                   add: nat, i: nat, seemsAlive: int -> bool)
    requires Grown(threads0, phases0, threads1, phases1, add, i, seemsAlive) && i < |threads0|
    requires threads0[i] < 0 || !seemsAlive(i)
    ensures Grown(threads0, phases0, threads1[i := |phases1|], phases1 + [Locking], add + 1, i + 1, seemsAlive)
  {
  }

  lemma GrownByNone(threads0: seq<int>, phases0: seq<Phase>, threads1: seq<int>, phases1: seq<Phase>,
                    add: nat, i: nat, seemsAlive: int -> bool)
    requires Grown(threads0, phases0, threads1, phases1, add, i, seemsAlive) && i < |threads0|
    requires threads0[i] >= 0 && seemsAlive(i)
    ensures Grown(threads0, phases0, threads1, phases1, add, i + 1, seemsAlive)
  {
  }

  /** If `seemsAlive` is exact, all entries that were looked at are live now. */
  lemma ExactMeansLive(threads0: seq<int>, phases0: seq<Phase>, threads1: seq<int>, phases1: seq<Phase>,
                       add: nat, i: nat, seemsAlive: int -> bool)
    requires Grown(threads0, phases0, threads1, phases1, add, i, seemsAlive)
    requires IsExact(seemsAlive, threads0, phases0)
    ensures AllLive(threads1, phases1, i)
  {
  }

  /** No live worker has lost its entry. */
  ghost predicate KeepsLive(threads0: seq<int>, phases0: seq<Phase>, threads1: seq<int>) {
    |threads0| == |threads1| &&
    forall j :: 0 <= j < |threads0| && IsLive(phases0, threads0[j]) ==> threads1[j] == threads0[j]
  }

  class Pool {
    const minThr: nat
    const maxThr: nat
    const taskQueue: array<int>
    const threads: array<int>  // the worker in each entry, -1 while it was never used
    var queueFront: nat
    var queueRear: nat
    var queueSize: nat
    var liveThr: int
    var busyThr: int
    var waitExit: int
    var phases: seq<Phase>     // one for every worker ever created
    ghost var accepted: seq<int>
    var place: seq<int>        // for each task taken, the worker that has it, -1 when done
    ghost var exits: nat  // idle exits since the last request to shrink

    /** The ring holds what was accepted and not yet taken, in order. */
    ghost predicate QueueValid()
      reads this, taskQueue
    {
      && |place| <= |accepted|
      && RingHolds(taskQueue[..], queueFront, queueRear, queueSize, accepted[|place|..])
    }

    ghost predicate ThreadsValid()
      reads this, threads
    {
      && threads.Length == maxThr
      && Counts(phases, liveThr, busyThr, minThr, maxThr)
      && Threads(threads[..], phases, place)
      && 0 <= waitExit && exits + waitExit <= DEFAULT_THREAD_VARY
    }

    ghost predicate Valid()
      reads this, taskQueue, threads
    {
      QueueValid() && ThreadsValid() && taskQueue != threads
    }

    /** threadpool_create; the counter of exits is taken to start at 0. */
    constructor (minThr: nat, maxThr: nat, queueMaxSize: nat)
      requires minThr <= maxThr && 0 < queueMaxSize
      ensures Valid() && fresh(taskQueue) && fresh(threads) && taskQueue.Length == queueMaxSize
      ensures this.minThr == minThr && this.maxThr == maxThr && liveThr == minThr && accepted == place == [] && exits == 0
    {
      this.minThr, this.maxThr := minThr, maxThr;
      taskQueue := new int[queueMaxSize](_ => 0);
      threads := new int[maxThr](i => if i < minThr then i else -1);
      queueFront, queueRear, queueSize := 0, 0, 0;
      liveThr, busyThr, waitExit := minThr, 0, 0;
      phases, accepted, place, exits := seq(minThr, _ => Locking), [], [], 0;
      new;
      assert forall i :: 0 <= i < maxThr ==> threads[..][i] == threads[i];
      InitialState(phases, threads[..], minThr);
      assert Queued(taskQueue[..], 0, 0) == [] == accepted[0..];
    }

    /** threadpool_add under the lock: waits if the queue is full, otherwise enqueues; the
        caller then signals. */
    method Add(task: int) returns (blocked: bool)
      requires Valid()
      modifies this`queueRear, this`queueSize, this`accepted, taskQueue
      ensures Valid()
      ensures blocked <==> old(queueSize) == taskQueue.Length
      ensures blocked ==> queueSize == old(queueSize) && accepted == old(accepted)
      ensures !blocked ==> queueSize == old(queueSize) + 1 && accepted == old(accepted) + [task]
    {
      blocked := queueSize == taskQueue.Length;
      if !blocked {
        RingAfterPut(taskQueue[..], queueFront, queueRear, queueSize, accepted[|place|..], task);
        taskQueue[queueRear] := task;
        assert taskQueue[..] == old(taskQueue[..])[queueRear := task];
        assert (accepted + [task])[|place|..] == accepted[|place|..] + [task];
        accepted := accepted + [task];
        queueRear := (queueRear + 1) % taskQueue.Length;
        queueSize := queueSize + 1;
      }
    }

    /** A wait returns: a signal, or nothing at all. */
    method Wake(w: nat)
      requires Valid() && w < |phases| && phases[w] == Waiting
      modifies this`phases
      ensures Valid() && phases == old(phases)[w := Woken]
    {
      MoveKeepsThreads(threads[..], phases, place, w, Woken);
      phases := phases[w := Woken];
    }

    /** A worker under the lock: just woken it may be asked to exit, and does if the pool can
        spare it; otherwise it takes a task, or goes (back) to sleep if there is none. */
    method Section(w: nat, woken: bool) returns (task: int)
      requires Valid() && w < |phases| && phases[w] == (if woken then Woken else Locking)
      modifies this`queueFront, this`queueSize, this`liveThr, this`waitExit, this`phases, this`place, this`exits
      ensures Valid()
      ensures
        var asked := woken && old(waitExit) > 0;
        && waitExit == old(waitExit) - (if asked then 1 else 0)
        && if asked && old(liveThr) > minThr then
             && phases == old(phases)[w := Exited] && liveThr == old(liveThr) - 1 && exits == old(exits) + 1
             && place == old(place) && queueSize == old(queueSize)
           else
             && liveThr == old(liveThr) && exits == old(exits)
             && if old(queueSize) == 0 then
                  phases == old(phases)[w := Waiting] && place == old(place) && queueSize == 0
                else
                  && phases == old(phases)[w := Fetched(|old(place)|)] && place == old(place) + [w]
                  && queueSize == old(queueSize) - 1
                  && |old(place)| < |accepted| && task == accepted[|old(place)|]
    {
      task := 0;
      if woken && waitExit > 0 {
        waitExit := waitExit - 1;
        if liveThr > minThr {
          ExitKeepsThreads(threads[..], phases, place, w);
          liveThr := liveThr - 1;
          phases, exits := phases[w := Exited], exits + 1;
          return;
        }
      }
      if queueSize == 0 {
        MoveKeepsThreads(threads[..], phases, place, w, Waiting);
        phases := phases[w := Waiting];
      } else {
        task := Fetch(w);
      }
    }

    /** The task at the front is the oldest one not yet taken. */
    method Fetch(w: nat) returns (task: int)
      requires Valid() && w < |phases| && EmptyHanded(phases[w]) && phases[w] != Exited && queueSize > 0
      modifies this`queueFront, this`queueSize, this`phases, this`place
      ensures Valid() && |old(place)| < |accepted| && task == accepted[|old(place)|]
      ensures phases == old(phases)[w := Fetched(|old(place)|)] && place == old(place) + [w]
      ensures queueSize == old(queueSize) - 1
    {
      RingAfterTake(taskQueue[..], queueFront, queueRear, queueSize, accepted[|place|..]);
      PendingAfterTake(accepted, |place|);
      FetchKeepsThreads(threads[..], phases, place, w);
      task := taskQueue[queueFront];
      queueFront := (queueFront + 1) % taskQueue.Length;
      queueSize := queueSize - 1;
      phases, place := phases[w := Fetched(|place|)], place + [w];
    }

    /** The worker counts itself as busy before it runs its task. */
    method StartTask(w: nat)
      requires Valid() && w < |phases| && phases[w].Fetched?
      modifies this`busyThr, this`phases
      ensures Valid() && phases == old(phases)[w := Running(old(phases)[w].k)] && busyThr == old(busyThr) + 1
    {
      RunKeepsThreads(threads[..], phases, place, w);
      busyThr := busyThr + 1;
      phases := phases[w := Running(phases[w].k)];
    }

    /** The task is done, for good. */
    method EndTask(w: nat)
      requires Valid() && w < |phases| && phases[w].Running?
      modifies this`busyThr, this`phases, this`place
      ensures Valid() && phases == old(phases)[w := Locking] && busyThr == old(busyThr) - 1
      ensures old(phases)[w].k < |old(place)| && place == old(place)[old(phases)[w].k := -1]
    {
      EndKeepsThreads(threads[..], phases, place, w);
      busyThr := busyThr - 1;
      place := place[phases[w].k := -1];
      phases := phases[w := Locking];
    }

    /** The manager grows the pool if its samples ask for it: `seemsAlive` answers for the
        thread in an entry, and may be wrong about one that has exited, never about a live
        one. It looks at the first `upto` entries: all, or as many as it takes to start ten
        workers or to reach the maximum. If `seemsAlive` is never wrong, it is one of the
        latter. */
    method Grow(queueSample: int, liveSample: int, seemsAlive: int -> bool) returns (add: nat, ghost upto: nat)
      requires Valid()
      requires forall i :: 0 <= i < maxThr && IsLive(phases, threads[..][i]) ==> seemsAlive(i)
      modifies this`liveThr, this`phases, threads
      ensures Valid() && add <= DEFAULT_THREAD_VARY && liveThr == old(liveThr) + add
      ensures Grown(old(threads[..]), old(phases), threads[..], phases, add, upto, seemsAlive)
      ensures KeepsLive(old(threads[..]), old(phases), threads[..])
      ensures !(queueSample >= MIN_WAIT_TASK_NUM && liveSample < maxThr) ==> upto == 0
      ensures queueSample >= MIN_WAIT_TASK_NUM && liveSample < maxThr ==>
        add == DEFAULT_THREAD_VARY || liveThr == maxThr ||
        (upto == maxThr && !IsExact(seemsAlive, old(threads[..]), old(phases)))
    {
      add, upto := 0, 0;
      if queueSample >= MIN_WAIT_TASK_NUM && liveSample < maxThr {
        add, upto := StartWorkers(seemsAlive, threads[..], phases);
      }
    }

    method StartWorkers(seemsAlive: int -> bool, ghost threads0: seq<int>, ghost phases0: seq<Phase>)
      returns (add: nat, ghost upto: nat)
      requires Valid() && threads0 == threads[..] && phases0 == phases
      requires forall i :: 0 <= i < |threads0| && IsLive(phases0, threads0[i]) ==> seemsAlive(i)
      modifies this`liveThr, this`phases, threads
      ensures Valid() && add <= DEFAULT_THREAD_VARY && liveThr == old(liveThr) + add
      ensures Grown(threads0, phases0, threads[..], phases, add, upto, seemsAlive)
      ensures KeepsLive(threads0, phases0, threads[..])
      ensures add == DEFAULT_THREAD_VARY || liveThr == maxThr || (upto == maxThr && !IsExact(seemsAlive, threads0, phases0))
    {
      add := 0;
      var i := 0;
      while i < maxThr && add < DEFAULT_THREAD_VARY && liveThr < maxThr
        invariant 0 <= i <= maxThr && add <= DEFAULT_THREAD_VARY && liveThr == old(liveThr) + add
        invariant Valid() && Grown(threads0, phases0, threads[..], phases, add, i, seemsAlive)
      {
        add := Visit(i, add, seemsAlive, threads0, phases0);
        i := i + 1;
      }
      upto := i;
      if i == maxThr && IsExact(seemsAlive, threads0, phases0) {
        ExactMeansLive(threads0, phases0, threads[..], phases, add, i, seemsAlive);
        FullTable(threads[..], phases);
      }
    }

    /** One entry of the table. */
    method Visit(i: nat, add0: nat, seemsAlive: int -> bool, ghost threads0: seq<int>, ghost phases0: seq<Phase>)
      returns (add: nat)
      requires Valid() && i < maxThr && liveThr < maxThr
      requires Grown(threads0, phases0, threads[..], phases, add0, i, seemsAlive)
      requires forall j :: 0 <= j < |threads0| && IsLive(phases0, threads0[j]) ==> seemsAlive(j)
      modifies this`liveThr, this`phases, threads
      ensures Valid() && add0 <= add <= add0 + 1 && liveThr == old(liveThr) + add - add0
      ensures Grown(threads0, phases0, threads[..], phases, add, i + 1, seemsAlive)
    {
      var was := threads[i];
      add := add0;
      assert was == threads[..][i] == threads0[i];
      if was < 0 || !seemsAlive(i) {
        GrownByOne(threads0, phases0, threads[..], phases, add, i, seemsAlive);
        Replace(i);
        add := add + 1;
      } else {
        GrownByNone(threads0, phases0, threads[..], phases, add, i, seemsAlive);
      }
    }

    /** pthread_create into an entry without a live worker. */
    method Replace(i: nat)
      requires Valid() && i < maxThr && liveThr < maxThr
      requires threads[i] >= 0 ==> phases[threads[i]] == Exited
      modifies this`liveThr, this`phases, threads
      ensures Valid() && liveThr == old(liveThr) + 1 && phases == old(phases) + [Locking]
      ensures threads[..] == old(threads[..])[i := |old(phases)|]
    {
      StartKeepsThreads(threads[..], phases, place, i);
      threads[i] := |phases|;
      assert threads[..] == old(threads[..])[i := |phases|];
      phases := phases + [Locking];
      liveThr := liveThr + 1;
    }

    /** The manager asks for ten exits if its samples show too many idle workers. */
    method RequestShrink(busySample: int, liveSample: int) returns (asked: bool)
      requires Valid()
      modifies this`waitExit, this`exits
      ensures Valid() && asked == (busySample * 2 < liveSample && liveSample > minThr)
      ensures asked ==> waitExit == DEFAULT_THREAD_VARY && exits == 0
      ensures !asked ==> waitExit == old(waitExit) && exits == old(exits)
    {
      asked := busySample * 2 < liveSample && liveSample > minThr;
      if asked {
        waitExit, exits := DEFAULT_THREAD_VARY, 0;
      }
    }
  }

  /** Of a pool that meets the invariant: the counters lie within their bounds, the
      rear is where the size says, and at most ten exits have followed the last request. */
  lemma Bounds(pool: Pool)
    requires pool.Valid()
    ensures pool.minThr <= pool.liveThr <= pool.maxThr && 0 <= pool.busyThr <= pool.liveThr
    ensures pool.queueRear == (pool.queueFront + pool.queueSize) % pool.taskQueue.Length
    ensures pool.queueSize == |pool.accepted| - |pool.place|
    ensures pool.exits <= DEFAULT_THREAD_VARY
  {
    BusyAreLive(pool.phases);
    SlotIsModulo(pool.queueFront, pool.queueSize, pool.taskQueue.Length);
    assert |Queued(pool.taskQueue[..], pool.queueFront, pool.queueSize)| == |pool.accepted[|pool.place|..]|;
  }

  /** No two workers ever hold the same task, and none holds one that is done. */
  lemma RunOnce(pool: Pool, v: nat, w: nat)
    requires pool.Valid() && v < |pool.phases| && w < |pool.phases| && v != w
    requires !EmptyHanded(pool.phases[v]) && !EmptyHanded(pool.phases[w])
    ensures pool.phases[v].k != pool.phases[w].k
    ensures pool.phases[v].k < |pool.place| <= |pool.accepted| && pool.place[pool.phases[v].k] == v
  {
  }

  /** An empty queue and idle workers: every accepted task has been run to its end. */
  lemma NothingForgotten(pool: Pool)
    requires pool.Valid() && pool.queueSize == 0
    requires forall w :: 0 <= w < |pool.phases| ==> EmptyHanded(pool.phases[w])
    ensures |pool.place| == |pool.accepted| && forall k :: 0 <= k < |pool.place| ==> pool.place[k] == -1
  {
    Bounds(pool);
  }

  // ----- Whole runs

  /** What the threads may do next; `w` numbers the workers as they were created. */
  datatype Action =
    | Adds(task: int)
    | Wakes(w: nat)
    | Locks(w: nat)
    | Starts(w: nat)
    | Ends(w: nat)
    | Grows(queueSample: int, liveSample: int, alive: int -> bool)
    | Shrinks(busySample: int, liveSample: int)

  /** What came of it, as far as the claims below are concerned. */
  datatype Event = Accepted(task: int) | Blocked(task: int) | Took(task: int) | Done(k: nat) | IdleExit | ExitsRequested

  function AcceptedIn(trace: seq<Event>): seq<int> {
    if trace == [] then []
    else
      var before, e := AcceptedIn(trace[..|trace| - 1]), trace[|trace| - 1];
      if e.Accepted? then before + [e.task] else before
  }

  /** The tasks callers came with, accepted or not. */
  function OfferedIn(trace: seq<Event>): seq<int> {
    if trace == [] then []
    else
      var before, e := OfferedIn(trace[..|trace| - 1]), trace[|trace| - 1];
      if e.Accepted? || e.Blocked? then before + [e.task] else before
  }

  function AddsIn(script: seq<Action>): seq<int> {
    if script == [] then []
    else
      var before, a := AddsIn(script[..|script| - 1]), script[|script| - 1];
      if a.Adds? then before + [a.task] else before
  }

  function TakenIn(trace: seq<Event>): seq<int> {
    if trace == [] then []
    else
      var before, e := TakenIn(trace[..|trace| - 1]), trace[|trace| - 1];
      if e.Took? then before + [e.task] else before
  }

  /** The numbers of the tasks done, in the order they were finished. */
  function DoneIn(trace: seq<Event>): seq<nat> {
    if trace == [] then []
    else
      var before, e := DoneIn(trace[..|trace| - 1]), trace[|trace| - 1];
      if e.Done? then before + [e.k] else before
  }

  /** Idle exits since the last request, or since the beginning. */
  function ExitsSince(trace: seq<Event>): nat {
    if trace == [] || trace[|trace| - 1].ExitsRequested? then 0
    else ExitsSince(trace[..|trace| - 1]) + if trace[|trace| - 1].IdleExit? then 1 else 0
  }

  lemma TraceGrows(trace: seq<Event>, e: Event)
    ensures AcceptedIn(trace + [e]) == if e.Accepted? then AcceptedIn(trace) + [e.task] else AcceptedIn(trace)
    ensures OfferedIn(trace + [e]) ==
      if e.Accepted? || e.Blocked? then OfferedIn(trace) + [e.task] else OfferedIn(trace)
    ensures TakenIn(trace + [e]) == if e.Took? then TakenIn(trace) + [e.task] else TakenIn(trace)
    ensures DoneIn(trace + [e]) == if e.Done? then DoneIn(trace) + [e.k] else DoneIn(trace)
    ensures ExitsSince(trace + [e]) ==
      if e.ExitsRequested? then 0 else ExitsSince(trace) + if e.IdleExit? then 1 else 0
  {
    assert (trace + [e])[..|trace|] == trace;
  }

  /** The trace tells what the pool's histories say. */
  ghost predicate Tells(trace: seq<Event>, accepted: seq<int>, place: seq<int>, exits: nat, cap: nat) {
    && AcceptedIn(trace) == accepted && |place| <= |accepted| && TakenIn(trace) == accepted[..|place|]
    && NoRepeat(DoneIn(trace)) && (forall k :: k in DoneIn(trace) <==> 0 <= k < |place| && place[k] == -1)
    && ExitsSince(trace) == exits <= DEFAULT_THREAD_VARY
    && (forall j :: 0 <= j <= |trace| ==> ExitsSince(trace[..j]) <= DEFAULT_THREAD_VARY)
    && forall j :: 0 <= j < |trace| ==> Answered(trace, j, cap)
  }

  /** A caller waits exactly if the queue is full when it comes. */
  predicate Answered(trace: seq<Event>, j: nat, cap: nat)
    requires j < |trace|
  {
    && (trace[j].Blocked? ==> |AcceptedIn(trace[..j])| == |TakenIn(trace[..j])| + cap)
    && (trace[j].Accepted? ==> |AcceptedIn(trace[..j])| < |TakenIn(trace[..j])| + cap)
  }

  lemma AnswersKept(trace: seq<Event>, e: Event, cap: nat)
    requires forall j :: 0 <= j < |trace| ==> Answered(trace, j, cap)
    requires e.Blocked? ==> |AcceptedIn(trace)| == |TakenIn(trace)| + cap
    requires e.Accepted? ==> |AcceptedIn(trace)| < |TakenIn(trace)| + cap
    ensures forall j :: 0 <= j < |trace + [e]| ==> Answered(trace + [e], j, cap)
  {
    forall j | 0 <= j < |trace + [e]|
      ensures Answered(trace + [e], j, cap)
    {
      assert (trace + [e])[..j] == trace[..j];
      if j < |trace| {
        assert Answered(trace, j, cap);
      } else {
        assert trace[..j] == trace;
      }
    }
  }

  lemma PrefixesKept(trace: seq<Event>, e: Event, cap: nat)
    requires forall j :: 0 <= j <= |trace| ==> ExitsSince(trace[..j]) <= DEFAULT_THREAD_VARY
    requires ExitsSince(trace + [e]) <= DEFAULT_THREAD_VARY
    requires forall j :: 0 <= j < |trace| ==> Answered(trace, j, cap)
    requires e.Blocked? ==> |AcceptedIn(trace)| == |TakenIn(trace)| + cap
    requires e.Accepted? ==> |AcceptedIn(trace)| < |TakenIn(trace)| + cap
    ensures forall j :: 0 <= j <= |trace| + 1 ==> ExitsSince((trace + [e])[..j]) <= DEFAULT_THREAD_VARY
    ensures forall j :: 0 <= j < |trace + [e]| ==> Answered(trace + [e], j, cap)
  {
    AnswersKept(trace, e, cap);
    forall j | 0 <= j <= |trace| + 1
      ensures ExitsSince((trace + [e])[..j]) <= DEFAULT_THREAD_VARY
    {
      if j <= |trace| {
        assert (trace + [e])[..j] == trace[..j];
      } else {
        assert (trace + [e])[..j] == trace + [e];
      }
    }
  }

  lemma TellsAccepted(trace: seq<Event>, accepted: seq<int>, place: seq<int>, exits: nat, task: int, cap: nat)
    requires Tells(trace, accepted, place, exits, cap)
    requires |accepted| < |place| + cap
    ensures Tells(trace + [Accepted(task)], accepted + [task], place, exits, cap)
  {
    TraceGrows(trace, Accepted(task));
    PrefixesKept(trace, Accepted(task), cap);
    assert (accepted + [task])[..|place|] == accepted[..|place|];
  }

  lemma TellsTook(trace: seq<Event>, accepted: seq<int>, place: seq<int>, exits: nat, w: nat, cap: nat)
    requires Tells(trace, accepted, place, exits, cap) && |place| < |accepted|
    ensures Tells(trace + [Took(accepted[|place|])], accepted, place + [w], exits, cap)
  {
    TraceGrows(trace, Took(accepted[|place|]));
    PrefixesKept(trace, Took(accepted[|place|]), cap);
    assert accepted[..|place| + 1] == accepted[..|place|] + [accepted[|place|]];
  }

  lemma TellsDone(trace: seq<Event>, accepted: seq<int>, place: seq<int>, exits: nat, k: nat, cap: nat)
    requires Tells(trace, accepted, place, exits, cap) && k < |place| && place[k] != -1
    ensures Tells(trace + [Done(k)], accepted, place[k := -1], exits, cap)
  {
    TraceGrows(trace, Done(k));
    PrefixesKept(trace, Done(k), cap);
    assert k !in DoneIn(trace);
    forall i | 0 <= i < |place|
      ensures i in DoneIn(trace) + [k] <==> place[k := -1][i] == -1
    {
    }
  }

  function ExitsIn(trace: seq<Event>, from: nat, to: nat): nat
    requires from <= to <= |trace|
  {
    if from == to then 0 else ExitsIn(trace, from, to - 1) + if trace[to - 1].IdleExit? then 1 else 0
  }

  /** Between two requests at most ten workers exit. */
  lemma {:induction false} ExitsBetweenRequests(trace: seq<Event>, from: nat, to: nat)
    requires from <= to <= |trace| && forall j :: from <= j < to ==> !trace[j].ExitsRequested?
    ensures ExitsIn(trace, from, to) <= ExitsSince(trace[..to])
  {
    if from < to {
      ExitsBetweenRequests(trace, from, to - 1);
      assert trace[..to][..to - 1] == trace[..to - 1];
    }
  }

  /** What holds of every run. */
  ghost predicate WellRun(pool: Pool, trace: seq<Event>)
    reads pool, pool.taskQueue
  {
    && pool.minThr <= pool.liveThr <= pool.maxThr && 0 <= pool.busyThr <= pool.liveThr
    && 0 < pool.taskQueue.Length
    && pool.queueRear == (pool.queueFront + pool.queueSize) % pool.taskQueue.Length
    // tasks are taken once each, in the order they were accepted, and finished once each
    && TakenIn(trace) <= AcceptedIn(trace) == pool.accepted
    && |AcceptedIn(trace)| == |TakenIn(trace)| + pool.queueSize
    && NoRepeat(DoneIn(trace)) && (forall k :: k in DoneIn(trace) ==> k < |TakenIn(trace)|)
  }

  /** One action. Actions of workers that are not at that point do not happen. */
  method PlayOne(pool: Pool, a: Action, ghost trace: seq<Event>) returns (ghost trace': seq<Event>)
    requires pool.Valid() && Tells(trace, pool.accepted, pool.place, pool.exits, pool.taskQueue.Length)
    modifies pool, pool.taskQueue, pool.threads
    ensures pool.Valid() && Tells(trace', pool.accepted, pool.place, pool.exits, pool.taskQueue.Length)
    ensures OfferedIn(trace') == OfferedIn(trace) + if a.Adds? then [a.task] else []
  {
    trace' := trace;
    match a {
      case Adds(task) =>
        trace' := PlayAdd(pool, task, trace);
      case Wakes(w) =>
        if w < |pool.phases| && pool.phases[w] == Waiting {
          pool.Wake(w);
        }
      case Locks(w) =>
        trace' := PlayLock(pool, w, trace);
      case Starts(w) =>
        PlayStart(pool, w);
      case Ends(w) =>
        trace' := PlayEnd(pool, w, trace);
      case Grows(queueSample, liveSample, alive) =>
        PlayGrow(pool, queueSample, liveSample, alive);
      case Shrinks(busySample, liveSample) =>
        trace' := PlayShrink(pool, busySample, liveSample, trace);
    }
  }

  method PlayStart(pool: Pool, w: nat)
    requires pool.Valid()
    modifies pool
    ensures pool.Valid()
    ensures pool.accepted == old(pool.accepted) && pool.place == old(pool.place) && pool.exits == old(pool.exits)
  {
    if w < |pool.phases| && pool.phases[w].Fetched? {
      pool.StartTask(w);
    }
  }

  /** `is_thread_alive` answers as `alive` says, and truly for live threads. */
  method PlayGrow(pool: Pool, queueSample: int, liveSample: int, alive: int -> bool)
    requires pool.Valid()
    modifies pool, pool.threads
    ensures pool.Valid()
    ensures pool.accepted == old(pool.accepted) && pool.place == old(pool.place) && pool.exits == old(pool.exits)
  {
    var live := set i | 0 <= i < pool.maxThr && IsLive(pool.phases, pool.threads[i]);
    var add, _ := pool.Grow(queueSample, liveSample, i => alive(i) || i in live);
  }

  method PlayEnd(pool: Pool, w: nat, ghost trace: seq<Event>) returns (ghost trace': seq<Event>)
    requires pool.Valid() && Tells(trace, pool.accepted, pool.place, pool.exits, pool.taskQueue.Length)
    modifies pool
    ensures pool.Valid() && Tells(trace', pool.accepted, pool.place, pool.exits, pool.taskQueue.Length)
    ensures OfferedIn(trace') == OfferedIn(trace)
  {
    trace' := trace;
    if w < |pool.phases| && pool.phases[w].Running? {
      EndKeepsOnce(pool.phases, pool.place, w);
      TellsDone(trace, pool.accepted, pool.place, pool.exits, pool.phases[w].k, pool.taskQueue.Length);
      trace' := trace + [Done(pool.phases[w].k)];
      TraceGrows(trace, Done(pool.phases[w].k));
      pool.EndTask(w);
    }
  }

  method PlayShrink(pool: Pool, busySample: int, liveSample: int, ghost trace: seq<Event>) returns (ghost trace': seq<Event>)
    requires pool.Valid() && Tells(trace, pool.accepted, pool.place, pool.exits, pool.taskQueue.Length)
    modifies pool
    ensures pool.Valid() && Tells(trace', pool.accepted, pool.place, pool.exits, pool.taskQueue.Length)
    ensures OfferedIn(trace') == OfferedIn(trace)
  {
    trace' := trace;
    var asked := pool.RequestShrink(busySample, liveSample);
    if asked {
      PrefixesKept(trace, ExitsRequested, pool.taskQueue.Length);
      TraceGrows(trace, ExitsRequested);
      trace' := trace + [ExitsRequested];
    }
  }

  method PlayAdd(pool: Pool, task: int, ghost trace: seq<Event>) returns (ghost trace': seq<Event>)
    requires pool.Valid() && Tells(trace, pool.accepted, pool.place, pool.exits, pool.taskQueue.Length)
    modifies pool, pool.taskQueue
    ensures pool.Valid() && Tells(trace', pool.accepted, pool.place, pool.exits, pool.taskQueue.Length)
    ensures OfferedIn(trace') == OfferedIn(trace) + [task]
  {
    Bounds(pool);
    var blocked := pool.Add(task);
    if blocked {
      PrefixesKept(trace, Blocked(task), pool.taskQueue.Length);
      TraceGrows(trace, Blocked(task));
      trace' := trace + [Blocked(task)];
    } else {
      TellsAccepted(trace, old(pool.accepted), pool.place, pool.exits, task, pool.taskQueue.Length);
      TraceGrows(trace, Accepted(task));
      trace' := trace + [Accepted(task)];
    }
  }

  method PlayLock(pool: Pool, w: nat, ghost trace: seq<Event>) returns (ghost trace': seq<Event>)
    requires pool.Valid() && Tells(trace, pool.accepted, pool.place, pool.exits, pool.taskQueue.Length)
    modifies pool
    ensures pool.Valid() && Tells(trace', pool.accepted, pool.place, pool.exits, pool.taskQueue.Length)
    ensures OfferedIn(trace') == OfferedIn(trace)
  {
    trace' := trace;
    if w < |pool.phases| && (pool.phases[w] == Woken || pool.phases[w] == Locking) {
      ghost var place, exits := pool.place, pool.exits;
      var task := pool.Section(w, pool.phases[w] == Woken);
      if pool.exits > exits {
        PrefixesKept(trace, IdleExit, pool.taskQueue.Length);
        trace' := trace + [IdleExit];
        TraceGrows(trace, IdleExit);
      } else if |pool.place| > |place| {
        TellsTook(trace, pool.accepted, place, exits, w, pool.taskQueue.Length);
        trace' := trace + [Took(task)];
        TraceGrows(trace, Took(task));
      }
    }
  }

  /** Every interleaving of callers, workers and manager, before shutdown: the bounds hold,
      a caller has to wait exactly if the queue is full, tasks are dequeued in the order of
      their acceptance and run once each, and no request to shrink is followed by more than
      ten idle exits before the next. */
  method Play(minThr: nat, maxThr: nat, queueMaxSize: nat, script: seq<Action>)
      returns (pool: Pool, ghost trace: seq<Event>)
    requires minThr <= maxThr && 0 < queueMaxSize
    ensures pool.Valid() && pool.minThr == minThr && pool.maxThr == maxThr && pool.taskQueue.Length == queueMaxSize
    ensures forall j :: 0 <= j < |trace| ==> Answered(trace, j, queueMaxSize)
    ensures WellRun(pool, trace) && OfferedIn(trace) == AddsIn(script)
    ensures forall from, to :: 0 <= from <= to <= |trace| && (forall j :: from <= j < to ==> !trace[j].ExitsRequested?) ==>
      ExitsIn(trace, from, to) <= DEFAULT_THREAD_VARY
    ensures pool.queueSize == 0 && (forall w :: 0 <= w < |pool.phases| ==> EmptyHanded(pool.phases[w])) ==>
      forall k :: 0 <= k < |AcceptedIn(trace)| ==> k in DoneIn(trace)
  {
    pool := new Pool(minThr, maxThr, queueMaxSize);
    trace := [];
    for n := 0 to |script|
      invariant fresh(pool) && fresh(pool.taskQueue) && fresh(pool.threads)
      invariant pool.Valid() && pool.minThr == minThr && pool.maxThr == maxThr && pool.taskQueue.Length == queueMaxSize
      invariant Tells(trace, pool.accepted, pool.place, pool.exits, pool.taskQueue.Length) && OfferedIn(trace) == AddsIn(script[..n])
    {
      assert script[..n + 1][..n] == script[..n];
      trace := PlayOne(pool, script[n], trace);
    }
    assert script[..|script|] == script;
    Bounds(pool);
    forall from, to | 0 <= from <= to <= |trace| && forall j :: from <= j < to ==> !trace[j].ExitsRequested?
      ensures ExitsIn(trace, from, to) <= DEFAULT_THREAD_VARY
    {
      ExitsBetweenRequests(trace, from, to);
    }
    if pool.queueSize == 0 && forall w :: 0 <= w < |pool.phases| ==> EmptyHanded(pool.phases[w]) {
      NothingForgotten(pool);
    }
  }

  lemma InitialState(phases: seq<Phase>, threads: seq<int>, minThr: nat)
    requires |phases| == minThr <= |threads|
    requires forall w :: 0 <= w < |phases| ==> phases[w] == Locking
    requires forall i :: 0 <= i < |threads| ==> threads[i] == if i < minThr then i else -1
    ensures Counts(phases, minThr, 0, minThr, |threads|) && Threads(threads, phases, [])
  {
    InitialCounts(phases);
    forall w | 0 <= w < |phases|
      ensures w in threads
    {
      assert threads[w] == w;
    }
  }

  lemma {:induction false} InitialCounts(phases: seq<Phase>)
    requires forall w :: 0 <= w < |phases| ==> phases[w] == Locking
    ensures |Live(phases)| == |phases| && Busy(phases) == {}
  {
    if phases == [] {
      assert Live(phases) == {} && Busy(phases) == {};
    } else {
      var rest := phases[..|phases| - 1];
      InitialCounts(rest);
      Started(rest);
      assert phases == rest + [Locking];
    }
  }
}
