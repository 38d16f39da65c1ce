/** The multi-producer, multi-consumer bounded buffer of produce_consume, for any number
    of producers and consumers, any ring size of at least two and any number of items.

    First the ring on its own, as a value and as the object the program updates in place;
    then the interleaved steps of the threads over three mutexes and two conditions. */
module ItemRing {

  /** One slot always stays empty, so that full and empty differ. */
  datatype Ring = Ring(items: seq<int>, read: nat, write: nat)
  {
    predicate Valid() {
      2 <= |items| && read < |items| && write < |items|
    }

    predicate Full()
      requires Valid()
    {
      (write + 1) % |items| == read
    }

    predicate Empty() {
      write == read
    }

    /** The items between the read and the write position, oldest first. */
    function Contents(): seq<int>
      requires Valid()
    {
      if read <= write then items[read..write] else items[read..] + items[..write]
    }

    function Put(item: int): (r: Ring)
      requires Valid()
      ensures r.Valid() && |r.items| == |items|
    {
      Ring(items[write := item], read, if write + 1 == |items| then 0 else write + 1)
    }

    function Take(): (r: (int, Ring))
      requires Valid()
      ensures r.1.Valid() && r.1.items == items
    {
      (items[read], Ring(items, if read + 1 >= |items| then 0 else read + 1, write))
    }
  }

  /** The two tests the program makes mean what they are called, and one slot is lost. */
  lemma FullAndEmpty(r: Ring)
    requires r.Valid()
    ensures r.Full() <==> |r.Contents()| == |r.items| - 1
    ensures r.Empty() <==> r.Contents() == []
    ensures |r.Contents()| <= |r.items| - 1
  {
    NextSlot(r.write, |r.items|);
  }

  lemma NextSlot(slot: nat, size: nat)
    requires slot < size
    ensures (slot + 1) % size == if slot + 1 < size then slot + 1 else 0
  {
  }

  lemma PutAppends(r: Ring, item: int)
    requires r.Valid() && !r.Full()
    ensures r.Put(item).Valid() && r.Put(item).Contents() == r.Contents() + [item]
  {
    FullAndEmpty(r);
    var t := r.Put(item);
    if r.read <= r.write && r.write + 1 == |r.items| {
      assert t.Contents() == t.items[r.read..] + [];
    }
  }

  lemma TakeRemovesOldest(r: Ring)
    requires r.Valid() && !r.Empty()
    ensures r.Contents() != [] && r.Take().0 == r.Contents()[0]
    ensures r.Take().1.Valid() && r.Take().1.Contents() == r.Contents()[1..]
  {
    FullAndEmpty(r);
    var t := r.Take().1;
    if r.read > r.write && r.read + 1 == |r.items| {
      assert r.Contents() == [r.items[r.read]] + r.items[..r.write];
    }
  }

  /** The buffer with its array and positions updated in place. */
  class ItemRepository {
    var item_buffer: array<int>
    var read_position: nat
    var write_position: nat

    ghost function View(): Ring
      reads this, item_buffer
    {
      Ring(item_buffer[..], read_position, write_position)
    }

    constructor (size: nat)
      requires size >= 2
      ensures fresh(item_buffer) && item_buffer.Length == size
      ensures View().Valid() && View().Contents() == []
    {
      item_buffer := new int[size](_ => 0);
      read_position, write_position := 0, 0;
    }

    method IsFull() returns (full: bool)
      requires View().Valid()
      ensures full <==> |View().Contents()| == item_buffer.Length - 1
    {
      FullAndEmpty(View());
      full := (write_position + 1) % item_buffer.Length == read_position;
    }

    method IsEmpty() returns (empty: bool)
      requires View().Valid()
      ensures empty <==> View().Contents() == []
    {
      FullAndEmpty(View());
      empty := write_position == read_position;
    }

    /** The part of `ProduceItem` after its wait loop. */
    method Store(item: int)
      requires View().Valid() && |View().Contents()| < item_buffer.Length - 1
      modifies this`write_position, item_buffer
      ensures View() == old(View()).Put(item)
      ensures View().Valid() && View().Contents() == old(View().Contents()) + [item]
    {
      ghost var before := View();
      FullAndEmpty(before);
      PutAppends(before, item);
      item_buffer[write_position] := item;
      write_position := write_position + 1;
      if write_position == item_buffer.Length {
        write_position := 0;
      }
      assert View() == before.Put(item);
    }

    /** The part of `ConsumeItem` after its wait loop. */
    method Fetch() returns (data: int)
      requires View().Valid() && View().Contents() != []
      modifies this`read_position
      ensures (data, View()) == old(View()).Take()
      ensures View().Valid() && [data] + View().Contents() == old(View().Contents())
    {
      ghost var before := View();
      FullAndEmpty(before);
      TakeRemovesOldest(before);
      data := item_buffer[read_position];
      read_position := read_position + 1;
      if read_position >= item_buffer.Length {
        read_position := 0;
      }
      assert View() == before.Take().1;
    }
  }
}

/** The threads: every lock, test, sleep, notification and unlock is a step of its own. */
module ProducersConsumers {
  import opened Common
  import opened Sums
  import opened ItemRing

  /** A thread's position in its task function. `value` is the item: the argument of
      `ProduceItem`, or what `ConsumeItem` has read. */
  datatype Pc =
    | Start               // wants the counter mutex
    | Counting            // holds the counter mutex
    | Entering(value: int)  // also wants the repository mutex
    | Testing(value: int)   // holds both, about to test full or empty
    | Asleep(value: int)    // waits, repository mutex released
    | Acting(value: int)    // holds both, the ring is ready
    | Announcing(value: int) // moved an item, owes the notify_all
    | Leaving(value: int)   // about to release the repository mutex
    | Closing(value: int)   // about to release the counter mutex
    | Exited

  datatype Side = Producing | Consuming

  /** `goal` is the number of items to make; `stored` and `taken` are histories. */
  datatype State = State(
    goal: nat, ring: Ring, produced: nat, consumed: nat,
    mtx: Option<(Side, nat)>, producedMtx: Option<nat>, consumedMtx: Option<nat>,
    producers: seq<Pc>, consumers: seq<Pc>, stored: nat, taken: seq<int>)

  datatype Step = Advance(side: Side, i: nat) | Spurious(side: Side, i: nat)

  function Init(goal: nat, size: nat, producers: nat, consumers: nat): State {
    State(goal, Ring(seq(size, _ => 0), 0, 0), 0, 0, None, None, None,
          seq(producers, _ => Start), seq(consumers, _ => Start), 0, [])
  }

  function Threads(s: State, side: Side): seq<Pc> {
    if side.Producing? then s.producers else s.consumers
  }

  function CounterMtx(s: State, side: Side): Option<nat> {
    if side.Producing? then s.producedMtx else s.consumedMtx
  }

  predicate Enabled(s: State, step: Step) {
    step.i < |Threads(s, step.side)| &&
    var pc := Threads(s, step.side)[step.i];
    if step.Spurious? then pc.Asleep?
    else
      match pc
      case Start => CounterMtx(s, step.side).None?
      case Entering(_) => s.mtx.None?
      case Asleep(_) => false
      case Exited => false
      case _ => true
  }

  function WakeAll(pcs: seq<Pc>): (awake: seq<Pc>)
    ensures |awake| == |pcs|
  {
    seq(|pcs|, i requires 0 <= i < |pcs| => if pcs[i].Asleep? then Entering(pcs[i].value) else pcs[i])
  }

  function ProducerStep(s: State, i: nat): State
    requires s.ring.Valid() && Enabled(s, Advance(Producing, i))
  {
    match s.producers[i]
    case Start => s.(producers := s.producers[i := Counting], producedMtx := Some(i))
    case Counting =>
      if s.produced < s.goal then s.(produced := s.produced + 1, producers := s.producers[i := Entering(s.produced + 1)])
      else s.(producers := s.producers[i := Exited], producedMtx := None)
    case Entering(item) => s.(producers := s.producers[i := Testing(item)], mtx := Some((Producing, i)))
    case Testing(item) =>
      if s.ring.Full() then s.(producers := s.producers[i := Asleep(item)], mtx := None)
      else s.(producers := s.producers[i := Acting(item)])
    case Acting(item) =>
      s.(producers := s.producers[i := Announcing(item)], ring := s.ring.Put(item), stored := s.stored + 1)
    case Announcing(item) => s.(producers := s.producers[i := Leaving(item)], consumers := WakeAll(s.consumers))
    case Leaving(item) => s.(producers := s.producers[i := Closing(item)], mtx := None)
    case Closing(_) => s.(producers := s.producers[i := Start], producedMtx := None)
  }

  function ConsumerStep(s: State, i: nat): State
    requires s.ring.Valid() && Enabled(s, Advance(Consuming, i))
  {
    match s.consumers[i]
    case Start => s.(consumers := s.consumers[i := Counting], consumedMtx := Some(i))
    case Counting =>
      if s.consumed < s.goal then s.(consumers := s.consumers[i := Entering(0)])
      else s.(consumers := s.consumers[i := Exited], consumedMtx := None)
    case Entering(data) => s.(consumers := s.consumers[i := Testing(data)], mtx := Some((Consuming, i)))
    case Testing(data) =>
      if s.ring.Empty() then s.(consumers := s.consumers[i := Asleep(data)], mtx := None)
      else s.(consumers := s.consumers[i := Acting(data)])
    case Acting(_) =>
      var (data, ring) := s.ring.Take();
      s.(consumers := s.consumers[i := Announcing(data)], ring := ring, taken := s.taken + [data])
    case Announcing(data) => s.(consumers := s.consumers[i := Leaving(data)], producers := WakeAll(s.producers))
    case Leaving(data) => s.(consumers := s.consumers[i := Closing(data)], mtx := None)
    case Closing(_) => s.(consumers := s.consumers[i := Start], consumedMtx := None, consumed := s.consumed + 1)
  }

  function Apply(s: State, step: Step): (t: State)
    requires s.ring.Valid() && Enabled(s, step)
    ensures t.ring.Valid() && |t.ring.items| == |s.ring.items|
  {
    match step
    case Advance(Producing, i) => ProducerStep(s, i)
    case Advance(Consuming, i) => ConsumerStep(s, i)
    case Spurious(Producing, i) => s.(producers := s.producers[i := Entering(s.producers[i].value)])
    case Spurious(Consuming, i) => s.(consumers := s.consumers[i := Entering(s.consumers[i].value)])
  }

  // ----- What every step keeps

  /** The items first, first + 1, ..., up to but not including `next`. */
  function Numbers(first: nat, next: nat): (s: seq<int>)
    requires first <= next
    ensures |s| == next - first && forall k :: 0 <= k < |s| ==> s[k] == first + k
  {
    seq(next - first, k => first + k)
  }

  predicate HoldsCounter(pc: Pc) {
    !pc.Start? && !pc.Exited?
  }

  predicate HoldsRepository(pc: Pc) {
    pc.Testing? || pc.Acting? || pc.Announcing? || pc.Leaving?
  }

  /** The three mutexes are held by exactly the threads whose position says so. */
  ghost predicate MutexInv(s: State) {
    CounterMutexInv(s) && RepositoryMutexInv(s)
  }

  ghost predicate CounterMutexInv(s: State) {
    Held(s.producers, s.producedMtx) && Held(s.consumers, s.consumedMtx)
  }

  ghost predicate RepositoryMutexInv(s: State) {
    Entered(s.producers, Producing, s.mtx) && Entered(s.consumers, Consuming, s.mtx)
  }

  ghost predicate Held(pcs: seq<Pc>, mutex: Option<nat>) {
    && (forall i :: 0 <= i < |pcs| ==> (HoldsCounter(pcs[i]) <==> mutex == Some(i)))
    && (mutex.Some? ==> mutex.value < |pcs|)
  }

  ghost predicate Entered(pcs: seq<Pc>, side: Side, mutex: Option<(Side, nat)>) {
    && (forall i :: 0 <= i < |pcs| ==> (HoldsRepository(pcs[i]) <==> mutex == Some((side, i))))
    && (mutex.Some? && mutex.value.0 == side ==> mutex.value.1 < |pcs|)
  }

  /** The ring holds the items stored and not yet taken, in order, and both ends of the
      sequence are in step with the counters. */
  ghost predicate DataInv(s: State) {
    && s.ring.Valid()
    && |s.taken| <= s.stored <= s.produced <= s.goal
    && Sequence(s.ring, s.taken, s.stored)
  }

  ghost predicate Sequence(ring: Ring, taken: seq<int>, stored: nat)
    requires ring.Valid() && |taken| <= stored
  {
    && taken == Numbers(1, |taken| + 1)
    && ring.Contents() == Numbers(|taken| + 1, stored + 1)
  }

  predicate BeforeTransfer(pc: Pc) {
    pc.Entering? || pc.Testing? || pc.Asleep? || pc.Acting?
  }

  predicate AfterTransfer(pc: Pc) {
    pc.Announcing? || pc.Leaving? || pc.Closing?
  }

  ghost predicate ProducerInv(s: State) {
    if s.producedMtx.Some? && s.producedMtx.value < |s.producers| then
      var pc := s.producers[s.producedMtx.value];
      && s.produced == (if BeforeTransfer(pc) then s.stored + 1 else s.stored)
      && (BeforeTransfer(pc) ==> pc.value == s.produced)
      && (pc.Acting? ==> s.ring.Valid() && !s.ring.Full())
    else
      s.produced == s.stored
  }

  ghost predicate ConsumerInv(s: State) {
    if s.consumedMtx.Some? && s.consumedMtx.value < |s.consumers| then
      var pc := s.consumers[s.consumedMtx.value];
      && |s.taken| == (if AfterTransfer(pc) then s.consumed + 1 else s.consumed)
      && (BeforeTransfer(pc) ==> s.consumed < s.goal)
      && (pc.Acting? ==> !s.ring.Empty())
    else
      |s.taken| == s.consumed
  }

  predicate Announces(s: State, side: Side) {
    s.mtx.Some? && s.mtx.value.0 == side && s.mtx.value.1 < |Threads(s, side)| &&
    Threads(s, side)[s.mtx.value.1].Announcing?
  }

  /** A sleeper's reason to sleep still holds, unless its notification is on the way. */
  ghost predicate SleepInv(s: State)
    requires s.ring.Valid()
  {
    && (forall i :: 0 <= i < |s.producers| && s.producers[i].Asleep? ==> s.ring.Full() || Announces(s, Consuming))
    && (forall i :: 0 <= i < |s.consumers| && s.consumers[i].Asleep? ==> s.ring.Empty() || Announces(s, Producing))
    && (forall i :: 0 <= i < |s.producers| && s.producers[i].Exited? ==> s.stored == s.goal)
    && (forall i :: 0 <= i < |s.consumers| && s.consumers[i].Exited? ==> s.consumed == s.goal)
  }

  ghost predicate Inv(s: State) {
    MutexInv(s) && DataInv(s) && ProducerInv(s) && ConsumerInv(s) && SleepInv(s)
  }

  lemma InitInv(goal: nat, size: nat, producers: nat, consumers: nat)
    requires size >= 2
    ensures Inv(Init(goal, size, producers, consumers))
  {
  }

  lemma ProducerKeepsCounterMutex(s: State, i: nat)
    requires MutexInv(s) && s.ring.Valid() && Enabled(s, Advance(Producing, i))
    ensures CounterMutexInv(ProducerStep(s, i))
  {
  }

  lemma ProducerKeepsRepositoryMutex(s: State, i: nat)
    requires MutexInv(s) && s.ring.Valid() && Enabled(s, Advance(Producing, i))
    ensures RepositoryMutexInv(ProducerStep(s, i))
  {
  }

  lemma ConsumerKeepsCounterMutex(s: State, i: nat)
    requires MutexInv(s) && s.ring.Valid() && Enabled(s, Advance(Consuming, i))
    ensures CounterMutexInv(ConsumerStep(s, i))
  {
  }

  lemma ConsumerKeepsRepositoryMutex(s: State, i: nat)
    requires MutexInv(s) && s.ring.Valid() && Enabled(s, Advance(Consuming, i))
    ensures RepositoryMutexInv(ConsumerStep(s, i))
  {
  }

  lemma ProducerKeepsData(s: State, i: nat)
    requires Inv(s) && Enabled(s, Advance(Producing, i))
    ensures DataInv(ProducerStep(s, i))
  {
    if s.producers[i].Acting? {
      assert s.producedMtx == Some(i);
      StoreKeepsData(s, i);
    } else {
      OtherMakersKeepData(s, i);
    }
  }

  lemma StoreKeepsData(s: State, i: nat)
    requires DataInv(s) && ProducerInv(s) && s.producedMtx == Some(i)
    requires Enabled(s, Advance(Producing, i)) && s.producers[i].Acting?
    ensures DataInv(ProducerStep(s, i))
  {
    PutKeepsData(s);
  }

  lemma OtherMakersKeepData(s: State, i: nat)
    requires DataInv(s) && Enabled(s, Advance(Producing, i)) && !s.producers[i].Acting?
    ensures DataInv(ProducerStep(s, i))
  {
  }

  lemma NumbersSplit(first: nat, next: nat)
    requires first < next
    ensures Numbers(first, next)[0] == first && Numbers(first, next)[1..] == Numbers(first + 1, next)
    ensures Numbers(first, next) == Numbers(first, next - 1) + [next - 1]
  {
  }

  lemma TakeKeepsData(s: State)
    requires DataInv(s) && !s.ring.Empty()
    ensures |s.taken| < s.stored && s.ring.Take().1.Valid()
    ensures s.taken + [s.ring.Take().0] == Numbers(1, |s.taken| + 2)
    ensures s.ring.Take().1.Contents() == Numbers(|s.taken| + 2, s.stored + 1)
  {
    TakeRemovesOldest(s.ring);
    NumbersSplit(|s.taken| + 1, s.stored + 1);
    NumbersSplit(1, |s.taken| + 2);
  }

  lemma PutKeepsData(s: State)
    requires DataInv(s) && !s.ring.Full()
    ensures s.ring.Put(s.stored + 1).Valid()
    ensures s.ring.Put(s.stored + 1).Contents() == Numbers(|s.taken| + 1, s.stored + 2)
  {
    PutAppends(s.ring, s.stored + 1);
    NumbersSplit(|s.taken| + 1, s.stored + 2);
  }

  lemma ConsumerKeepsData(s: State, i: nat)
    requires Inv(s) && Enabled(s, Advance(Consuming, i))
    ensures DataInv(ConsumerStep(s, i))
  {
    if s.consumers[i].Acting? {
      TakeKeepsData(s);
    } else {
      OtherTakersKeepData(s, i);
    }
  }

  lemma OtherTakersKeepData(s: State, i: nat)
    requires DataInv(s) && Enabled(s, Advance(Consuming, i)) && !s.consumers[i].Acting?
    ensures DataInv(ConsumerStep(s, i))
  {
  }

  lemma ProducerKeepsThreads(s: State, i: nat)
    requires Inv(s) && Enabled(s, Advance(Producing, i))
    ensures ProducerInv(ProducerStep(s, i)) && ConsumerInv(ProducerStep(s, i))
  {
    ProducerKeepsData(s, i);
  }

  lemma ConsumerKeepsThreads(s: State, i: nat)
    requires Inv(s) && Enabled(s, Advance(Consuming, i))
    ensures ProducerInv(ConsumerStep(s, i)) && ConsumerInv(ConsumerStep(s, i))
  {
    ConsumerKeepsData(s, i);
  }

  lemma ProducerKeepsSleep(s: State, i: nat)
    requires Inv(s) && Enabled(s, Advance(Producing, i))
    ensures ProducerStep(s, i).ring.Valid() && SleepInv(ProducerStep(s, i))
  {
    ProducerKeepsData(s, i);
  }

  lemma ConsumerKeepsSleep(s: State, i: nat)
    requires Inv(s) && Enabled(s, Advance(Consuming, i))
    ensures ConsumerStep(s, i).ring.Valid() && SleepInv(ConsumerStep(s, i))
  {
    ConsumerKeepsData(s, i);
  }

  lemma StepKeepsInv(s: State, step: Step)
    requires Inv(s) && Enabled(s, step)
    ensures Inv(Apply(s, step))
  {
    match step {
      case Advance(Producing, i) =>
        ProducerKeepsCounterMutex(s, i); ProducerKeepsRepositoryMutex(s, i);
        ProducerKeepsData(s, i); ProducerKeepsThreads(s, i); ProducerKeepsSleep(s, i);
      case Advance(Consuming, i) =>
        ConsumerKeepsCounterMutex(s, i); ConsumerKeepsRepositoryMutex(s, i);
        ConsumerKeepsData(s, i); ConsumerKeepsThreads(s, i); ConsumerKeepsSleep(s, i);
      case Spurious(side, i) => SpuriousKeepsInv(s, side, i);
    }
  }

  lemma SpuriousKeepsInv(s: State, side: Side, i: nat)
    requires Inv(s) && Enabled(s, Spurious(side, i))
    ensures Inv(Apply(s, Spurious(side, i)))
  {
  }

  // ----- Whole runs

  predicate IsRun(s: State, steps: seq<Step>)
    requires s.ring.Valid()
    decreases |steps|
  {
    steps == [] || (Enabled(s, steps[0]) && IsRun(Apply(s, steps[0]), steps[1..]))
  }

  function After(s: State, steps: seq<Step>): State
    requires s.ring.Valid() && IsRun(s, steps)
    decreases |steps|
  {
    if steps == [] then s else After(Apply(s, steps[0]), steps[1..])
  }

  ghost predicate Reaches(s: State, t: State)
    requires s.ring.Valid()
  {
    exists steps :: IsRun(s, steps) && After(s, steps) == t
  }

  predicate SameShape(s: State, t: State) {
    |t.producers| == |s.producers| && |t.consumers| == |s.consumers| && t.goal == s.goal &&
    |t.ring.items| == |s.ring.items|
  }

  lemma StepKeepsShape(s: State, step: Step)
    requires s.ring.Valid() && Enabled(s, step)
    ensures SameShape(s, Apply(s, step))
  {
  }

  lemma {:induction false} RunKeepsInv(s: State, steps: seq<Step>)
    requires Inv(s) && IsRun(s, steps)
    ensures Inv(After(s, steps)) && SameShape(s, After(s, steps))
    decreases |steps|
  {
    if steps != [] {
      StepKeepsInv(s, steps[0]);
      StepKeepsShape(s, steps[0]);
      RunKeepsInv(Apply(s, steps[0]), steps[1..]);
    }
  }

  /** Every interleaving leads to states that satisfy the invariant. */
  lemma Reachable(goal: nat, size: nat, producers: nat, consumers: nat)
    requires size >= 2
    ensures forall s :: Reaches(Init(goal, size, producers, consumers), s) ==>
      Inv(s) && SameShape(Init(goal, size, producers, consumers), s)
  {
    var init := Init(goal, size, producers, consumers);
    InitInv(goal, size, producers, consumers);
    forall s | Reaches(init, s)
      ensures Inv(s) && SameShape(init, s)
    {
      var steps :| IsRun(init, steps) && After(init, steps) == s;
      RunKeepsInv(init, steps);
    }
  }

  /** First in, first out, in every interleaving: what has been consumed is 1, 2, 3, ...
      without gap or repetition, what lies in the ring is its continuation, and one slot
      always stays free. */
  lemma FifoRefinement(goal: nat, size: nat, producers: nat, consumers: nat, s: State)
    requires size >= 2 && Reaches(Init(goal, size, producers, consumers), s)
    ensures s.ring.Valid() && |s.ring.Contents()| <= size - 1
    ensures |s.taken| <= s.stored <= goal
    ensures s.taken + s.ring.Contents() == Numbers(1, s.stored + 1)
  {
    Reachable(goal, size, producers, consumers);
    FullAndEmpty(s.ring);
    assert Numbers(1, |s.taken| + 1) + Numbers(|s.taken| + 1, s.stored + 1) == Numbers(1, s.stored + 1);
  }

  /** No two threads are ever inside the repository, nor two producers or two consumers
      inside their counter's section. */
  lemma MutualExclusion(goal: nat, size: nat, producers: nat, consumers: nat, s: State, side: Side, i: nat, j: nat)
    requires size >= 2 && Reaches(Init(goal, size, producers, consumers), s)
    requires i < |Threads(s, side)| && j < |Threads(s, side)|
    requires HoldsCounter(Threads(s, side)[i]) && HoldsCounter(Threads(s, side)[j])
    ensures i == j
    ensures forall k :: 0 <= k < |s.producers| && HoldsRepository(s.producers[k]) ==>
      forall l :: 0 <= l < |s.consumers| ==> !HoldsRepository(s.consumers[l])
  {
    Reachable(goal, size, producers, consumers);
  }

  // ----- Progress

  predicate Final(s: State) {
    (forall i :: 0 <= i < |s.producers| ==> s.producers[i].Exited?) &&
    (forall i :: 0 <= i < |s.consumers| ==> s.consumers[i].Exited?)
  }

  /** With nobody in the repository, whoever holds a counter can step unless it sleeps; a
      free counter lets in anyone who has not exited. */
  lemma SideCanStep(s: State, side: Side, waiting: nat) returns (i: nat)
    requires Inv(s) && s.mtx.None?
    requires CounterMtx(s, side).Some? ==> !Threads(s, side)[CounterMtx(s, side).value].Asleep?
    requires waiting < |Threads(s, side)| && !Threads(s, side)[waiting].Exited?
    ensures Enabled(s, Advance(side, i))
  {
    i := if CounterMtx(s, side).Some? then CounterMtx(s, side).value else waiting;
  }

  function Other(side: Side): Side {
    if side.Producing? then Consuming else Producing
  }

  /** A sleeping producer and a sleeping consumer exclude each other, and neither is left
      alone with an exited other side. */
  lemma SleepersAreNotStuck(s: State, side: Side)
    requires Inv(s) && s.mtx.None? && |s.producers| >= 1 && |s.consumers| >= 1
    requires CounterMtx(s, side).Some? && Threads(s, side)[CounterMtx(s, side).value].Asleep?
    ensures !Threads(s, Other(side))[0].Exited?
    ensures CounterMtx(s, Other(side)).Some? ==>
      !Threads(s, Other(side))[CounterMtx(s, Other(side)).value].Asleep?
  {
    FullAndEmpty(s.ring);
  }

  lemma SomeoneCanStep(s: State) returns (side: Side, i: nat)
    requires Inv(s) && |s.producers| >= 1 && |s.consumers| >= 1 && !Final(s)
    ensures Enabled(s, Advance(side, i))
  {
    if s.mtx.Some? {
      side, i := s.mtx.value.0, s.mtx.value.1;
    } else if s.producedMtx.Some? && s.producers[s.producedMtx.value].Asleep? {
      SleepersAreNotStuck(s, Producing);
      side := Consuming;
      i := SideCanStep(s, Consuming, 0);
    } else if s.consumedMtx.Some? && s.consumers[s.consumedMtx.value].Asleep? {
      SleepersAreNotStuck(s, Consuming);
      side := Producing;
      i := SideCanStep(s, Producing, 0);
    } else {
      side := if exists k :: 0 <= k < |s.producers| && !s.producers[k].Exited? then Producing else Consuming;
      var waiting: nat :| waiting < |Threads(s, side)| && !Threads(s, side)[waiting].Exited?;
      i := SideCanStep(s, side, waiting);
    }
  }

  /** Deadlock freedom: until all threads have exited, one of them can step. */
  lemma Progress(s: State)
    requires Inv(s) && |s.producers| >= 1 && |s.consumers| >= 1
    ensures Final(s) <==> !exists side: Side, i: nat :: Enabled(s, Advance(side, i))
  {
    if !Final(s) {
      var side, i := SomeoneCanStep(s);
    }
  }

  /** When all threads have exited, the items 1, ..., goal have each been consumed once, in
      order, and the ring is empty. */
  lemma EverythingIsConsumed(goal: nat, size: nat, producers: nat, consumers: nat, s: State)
    requires size >= 2 && producers >= 1 && consumers >= 1
    requires Reaches(Init(goal, size, producers, consumers), s) && Final(s)
    ensures s.taken == Numbers(1, goal + 1) && s.ring.Valid() && s.ring.Contents() == []
  {
    Reachable(goal, size, producers, consumers);
    assert s.consumers[0].Exited?;
  }

  // ----- Termination

  function Weight(pc: Pc): nat {
    match pc
    case Exited => 0
    case Asleep(_) => 0
    case Acting(_) => 6
    case Testing(_) => 7
    case Entering(_) => 8
    case Counting => 9
    case Start => 10
    case Closing(_) => 11
    case Leaving(_) => 12
    case Announcing(_) => 21
  }

  predicate InBounds(s: State) {
    |s.taken| <= s.stored <= s.goal
  }

  function Measure(s: State): nat
    requires InBounds(s)
  {
    16 * (s.goal - s.stored) + 16 * (s.goal - |s.taken|) + Sum(Weight, s.producers) + Sum(Weight, s.consumers)
  }

  /** Only the holder of a counter mutex can sleep, so a notify_all wakes at most one. */
  lemma WakeAllWakesOne(pcs: seq<Pc>, mutex: Option<nat>)
    requires Held(pcs, mutex)
    ensures Sum(Weight, WakeAll(pcs)) <= Sum(Weight, pcs) + 8
  {
    if mutex.Some? && pcs[mutex.value].Asleep? {
      assert WakeAll(pcs) == pcs[mutex.value := Entering(pcs[mutex.value].value)];
      SumUpdate(Weight, pcs, mutex.value, Entering(pcs[mutex.value].value));
    } else {
      assert WakeAll(pcs) == pcs;
    }
  }

  lemma ProducerMoves(s: State, i: nat)
    requires s.ring.Valid() && Enabled(s, Advance(Producing, i)) && !s.producers[i].Announcing?
    ensures var t := ProducerStep(s, i);
      t.producers == s.producers[i := t.producers[i]] && t.consumers == s.consumers &&
      Weight(t.producers[i]) + 1 <= Weight(s.producers[i]) + (if s.producers[i].Acting? then 16 else 0)
  {
  }

  lemma ProducerStepCosts(s: State, i: nat)
    requires s.ring.Valid() && Enabled(s, Advance(Producing, i)) && !s.producers[i].Announcing?
    ensures var t := ProducerStep(s, i);
      Sum(Weight, t.producers) + 1 <= Sum(Weight, s.producers) + (if s.producers[i].Acting? then 16 else 0) &&
      t.consumers == s.consumers
  {
    var x := ProducerStep(s, i).producers[i];
    ProducerMoves(s, i);
    SumUpdate(Weight, s.producers, i, x);
  }

  lemma ProducerAnnounceCosts(s: State, i: nat)
    requires Held(s.consumers, s.consumedMtx) && s.ring.Valid()
    requires Enabled(s, Advance(Producing, i)) && s.producers[i].Announcing?
    ensures var t := ProducerStep(s, i);
      Sum(Weight, t.producers) + Sum(Weight, t.consumers) < Sum(Weight, s.producers) + Sum(Weight, s.consumers)
  {
    SumUpdate(Weight, s.producers, i, ProducerStep(s, i).producers[i]);
    WakeAllWakesOne(s.consumers, s.consumedMtx);
  }

  lemma ProducerUsesBudget(s: State, i: nat)
    requires Held(s.consumers, s.consumedMtx) && s.ring.Valid()
    requires Enabled(s, Advance(Producing, i)) && InBounds(s) && InBounds(ProducerStep(s, i))
    ensures Measure(ProducerStep(s, i)) < Measure(s)
  {
    if s.producers[i].Announcing? {
      ProducerAnnounceCosts(s, i);
    } else {
      ProducerStepCosts(s, i);
    }
  }

  lemma ConsumerMoves(s: State, i: nat)
    requires s.ring.Valid() && Enabled(s, Advance(Consuming, i)) && !s.consumers[i].Announcing?
    ensures var t := ConsumerStep(s, i);
      t.consumers == s.consumers[i := t.consumers[i]] && t.producers == s.producers &&
      Weight(t.consumers[i]) + 1 <= Weight(s.consumers[i]) + (if s.consumers[i].Acting? then 16 else 0)
  {
  }

  lemma ConsumerStepCosts(s: State, i: nat)
    requires s.ring.Valid() && Enabled(s, Advance(Consuming, i)) && !s.consumers[i].Announcing?
    ensures var t := ConsumerStep(s, i);
      Sum(Weight, t.consumers) + 1 <= Sum(Weight, s.consumers) + (if s.consumers[i].Acting? then 16 else 0) &&
      t.producers == s.producers
  {
    var x := ConsumerStep(s, i).consumers[i];
    ConsumerMoves(s, i);
    SumUpdate(Weight, s.consumers, i, x);
  }

  lemma ConsumerAnnounceCosts(s: State, i: nat)
    requires Held(s.producers, s.producedMtx) && s.ring.Valid()
    requires Enabled(s, Advance(Consuming, i)) && s.consumers[i].Announcing?
    ensures var t := ConsumerStep(s, i);
      Sum(Weight, t.consumers) + Sum(Weight, t.producers) < Sum(Weight, s.consumers) + Sum(Weight, s.producers)
  {
    SumUpdate(Weight, s.consumers, i, ConsumerStep(s, i).consumers[i]);
    WakeAllWakesOne(s.producers, s.producedMtx);
  }

  lemma ConsumerUsesBudget(s: State, i: nat)
    requires Held(s.producers, s.producedMtx) && s.ring.Valid()
    requires Enabled(s, Advance(Consuming, i)) && InBounds(s) && InBounds(ConsumerStep(s, i))
    ensures Measure(ConsumerStep(s, i)) < Measure(s)
  {
    if s.consumers[i].Announcing? {
      ConsumerAnnounceCosts(s, i);
    } else {
      ConsumerStepCosts(s, i);
    }
  }

  /** Without spurious wakeups every step uses up some of a finite budget. */
  lemma MeasureDecreases(s: State, side: Side, i: nat)
    requires Inv(s) && Enabled(s, Advance(side, i))
    ensures Inv(Apply(s, Advance(side, i))) && Measure(Apply(s, Advance(side, i))) < Measure(s)
  {
    StepKeepsInv(s, Advance(side, i));
    if side.Producing? { ProducerUsesBudget(s, i); } else { ConsumerUsesBudget(s, i); }
  }

  /** Under every scheduler the program ends after at most `Measure` steps. */
  lemma {:induction false} RunsAreBounded(s: State, steps: seq<Step>)
    requires Inv(s) && IsRun(s, steps)
    requires forall i :: 0 <= i < |steps| ==> steps[i].Advance?
    ensures |steps| <= Measure(s)
    decreases |steps|
  {
    if steps != [] {
      MeasureDecreases(s, steps[0].side, steps[0].i);
      assert forall i :: 0 <= i < |steps[1..]| ==> steps[1..][i] == steps[i + 1];
      RunsAreBounded(Apply(s, steps[0]), steps[1..]);
    }
  }

  /** The program ends and hands over every item: from the start, the threads make a number
      of steps that is linear in the items and the threads, under every scheduler, and when
      none of them can go on they have all exited, the items 1, ..., goal have been consumed
      in order and the ring is empty. */
  lemma ProgramEnds(goal: nat, size: nat, producers: nat, consumers: nat, steps: seq<Step>)
    requires size >= 2 && producers >= 1 && consumers >= 1
    requires IsRun(Init(goal, size, producers, consumers), steps)
    requires forall i :: 0 <= i < |steps| ==> steps[i].Advance?
    ensures |steps| <= 32 * goal + 10 * producers + 10 * consumers
    ensures var t := After(Init(goal, size, producers, consumers), steps);
      (!exists side: Side, i: nat :: Enabled(t, Advance(side, i))) ==>
        Final(t) && t.taken == Numbers(1, goal + 1) && t.ring.Valid() && t.ring.Contents() == []
  {
    var init := Init(goal, size, producers, consumers);
    var t := After(init, steps);
    InitInv(goal, size, producers, consumers);
    SumBounded(Weight, init.producers, 10);
    SumBounded(Weight, init.consumers, 10);
    RunsAreBounded(init, steps);
    RunKeepsInv(init, steps);
    Progress(t);
    if Final(t) {
      EverythingIsConsumed(goal, size, producers, consumers, t);
    }
  }
}
