/**
 The queue of producer-consumer.c, its fields updated in place. Each method is one
 critical section of thread `tid`, and takes the same step of the system of threads as
 `QueueModel`: what is proved of every run there holds of the queue here.
 */
module ProducerConsumer {
  import opened QueueModel
  import opened QueueOrder
  import opened QueueSafety
  import opened Sizes

  /** No other thread moves. */
  ghost predicate OthersStay<T>(s: System<T>, s': System<T>, tid: nat) {
    forall t | t != tid :: At(s', t) == At(s, t)
  }

  /** Nothing is stored or taken. */
  ghost predicate SameHistory<T>(s: System<T>, s': System<T>) {
    s'.written == s.written && s'.taken == s.taken && s'.q == s.q.(size := s'.q.size)
  }

  class PcQueue<T(0)> {
    const pcqBuffer: array<T>
    const pcqCapacity: nat
    var pcqCurrentSize: nat
    var pcqHead: nat
    var pcqTail: nat
    // where the threads are, and what was stored and taken so far
    ghost var model: System<T>
    // the slots as malloc returned them, and the sections gone through so far
    ghost const memory: seq<T>
    ghost var history: seq<Event<T>>

    ghost function Fields(): Queue<T>
      reads this, pcqBuffer
    {
      Queue(pcqCapacity, pcqBuffer[..], pcqHead, pcqTail, pcqCurrentSize)
    }

    ghost predicate Valid()
      reads this, pcqBuffer
    {
      Fields() == model.q && |memory| < SIZE_T_RANGE && model == Run(Initial(memory), history)
    }

    /** A section goes on the history. */
    lemma Goes(ev: Event<T>)
      requires Valid()
      ensures Accounted(model) && Run(Initial(memory), history + [ev]) == Step(model, ev) && Accounted(Step(model, ev))
    {
      AlwaysAccounted(memory, history);
      AlwaysAccounted(memory, history + [ev]);
      assert (history + [ev])[..|history|] == history;
    }

    /** What holds of every run holds of the queue: while one thread of each side is past its check, takes are in order. */
    lemma OneEachInOrder()
      requires Valid() && forall n | 0 <= n <= |history| :: OneEach(Run(Initial(memory), history[..n]))
      ensures Fifo(model) && Reserved(model) && model.taken <= model.written
    {
      OneEachIsFifo(memory, history);
    }

    /** pcq_create: the slots hold whatever malloc returned, and no thread is inside. */
    constructor Create(capacity: nat)
      requires capacity < SIZE_T_RANGE
      ensures Valid() && fresh(pcqBuffer) && pcqCapacity == capacity && history == []
      ensures pcqBuffer.Length == capacity && pcqCurrentSize == pcqHead == pcqTail == 0
      ensures memory == pcqBuffer[..] && model == Initial(memory) && Fifo(model) && Reserved(model)
    {
      var buffer := new T[capacity];
      pcqBuffer := buffer;
      pcqCapacity := capacity;
      pcqCurrentSize := 0;
      pcqHead := 0;
      pcqTail := 0;
      memory := buffer[..];
      model, history := Initial(buffer[..]), [];
      InitialFifo(buffer[..]);
    }

    /** A thread calls pcq_enqueue or pcq_dequeue. */
    ghost method Arrive(ev: Event<T>)
      requires Valid() && At(model, ev.tid).Idle? && (ev.Enqueue? || ev.Dequeue?)
      modifies this`model, this`history
      ensures Valid() && history == old(history) + [ev] && model == Step(old(model), ev)
      ensures At(model, ev.tid) == if ev.Enqueue? then Offering(ev.elem) else Wanting
      ensures OthersStay(old(model), model, ev.tid) && SameHistory(old(model), model)
    {
      Goes(ev);
      model, history := Step(model, ev), history + [ev];
    }

    // ---------- pcq_enqueue ----------

    /**
     First section, the guard of the wait loop: the thread goes on or sleeps. While every
     thread past its check has its element or slot, it goes on exactly if a slot is left
     over beside the elements that are counted.
     */
    method EnqueueCheck(ghost tid: nat) returns (passes: bool)
      requires Valid() && (At(model, tid).Offering? || At(model, tid).PutAsleep?)
      modifies this`model, this`history
      ensures Valid() && history == old(history) + [CheckPut(tid)] && model == Step(old(model), CheckPut(tid))
      ensures passes <==> pcqCurrentSize != pcqCapacity
      ensures At(model, tid) == if passes then Putting(At(old(model), tid).elem) else PutAsleep(At(old(model), tid).elem, false)
      ensures OthersStay(old(model), model, tid) && SameHistory(old(model), model)
      ensures Reserved(model) ==> (passes <==> Balance(model) < pcqCapacity)
    {
      Goes(CheckPut(tid));
      CheckKeeps(model, CheckPut(tid));
      passes := pcqCurrentSize != pcqCapacity;
      model, history := Step(model, CheckPut(tid)), history + [CheckPut(tid)];
      BalanceFits(model);
    }

    /** Second section: the element goes into the next slot, behind those stored before. */
    method EnqueueAccess(ghost tid: nat, elem: T)
      requires Valid() && At(model, tid) == Putting(elem)
      modifies this`pcqHead, this`model, this`history, pcqBuffer
      ensures Valid() && history == old(history) + [Put(tid)] && model == Step(old(model), Put(tid))
      ensures 0 < pcqCapacity && old(pcqHead) < pcqBuffer.Length
      ensures pcqBuffer[..] == old(pcqBuffer[..])[old(pcqHead) := elem] && pcqHead == (old(pcqHead) + 1) % pcqCapacity
      ensures At(model, tid).HasPut? && model.written == old(model.written) + [elem] && model.taken == old(model.taken)
      ensures OthersStay(old(model), model, tid)
    {
      hide Run, Accounted, Step;
      Goes(Put(tid));
      PutGoes(model, tid);
      pcqBuffer[pcqHead] := elem;
      pcqHead := (pcqHead + 1) % pcqCapacity;
      model, history := Step(model, Put(tid)), history + [Put(tid)];
    }

    /**
     Third section: the element is counted and a sleeping consumer that was not signalled
     yet, if there is one, is signalled, whatever signals are still pending.
     */
    method EnqueueCount(ghost tid: nat, ghost wake: nat)
      requires Valid() && At(model, tid).HasPut? && SignalFits(model, wake, SleepsToGet)
      modifies this`pcqCurrentSize, this`model, this`history
      ensures Valid() && history == old(history) + [CountPut(tid, wake)] && model == Step(old(model), CountPut(tid, wake))
      ensures At(model, tid).Idle? && Counters(model) == Counters(old(model)) - 1
      ensures Balance(model) == Balance(old(model)) + 1 && pcqCurrentSize == Balance(model) % SIZE_T_RANGE
      ensures SleepsToGet(At(old(model), wake)) ==> At(model, wake) == GetAsleep(true)
      ensures forall t | t != tid && (t != wake || !SleepsToGet(At(old(model), wake))) :: At(model, t) == At(old(model), t)
      ensures Unsignalled(model, SleepsToGet)
           == Unsignalled(old(model), SleepsToGet) - if Unsignalled(old(model), SleepsToGet) > 0 then 1 else 0
      ensures SameHistory(old(model), model)
    {
      hide Run, Step, Enabled, BufferHolds, Balance, Counters, Unsignalled;
      Goes(CountPut(tid, wake));
      CountPutGoes(model, tid, wake);
      CountPutCounts(model, tid, wake);
      pcqCurrentSize := (pcqCurrentSize + 1) % SIZE_T_RANGE;
      model, history := Step(model, CountPut(tid, wake)), history + [CountPut(tid, wake)];
    }

    // ---------- pcq_dequeue ----------

    /** First section: the thread goes on exactly if an element is counted, under the same condition. */
    method DequeueCheck(ghost tid: nat) returns (passes: bool)
      requires Valid() && (At(model, tid).Wanting? || At(model, tid).GetAsleep?)
      modifies this`model, this`history
      ensures Valid() && history == old(history) + [CheckGet(tid)] && model == Step(old(model), CheckGet(tid))
      ensures passes <==> pcqCurrentSize != 0
      ensures At(model, tid) == if passes then Getting else GetAsleep(false)
      ensures OthersStay(old(model), model, tid) && SameHistory(old(model), model)
      ensures Reserved(model) ==> (passes <==> Balance(model) > 0)
    {
      Goes(CheckGet(tid));
      CheckKeeps(model, CheckGet(tid));
      passes := pcqCurrentSize != 0;
      model, history := Step(model, CheckGet(tid)), history + [CheckGet(tid)];
      BalanceFits(model);
    }

    /** Second section: in a first-in first-out state the oldest element not taken is returned. */
    method DequeueAccess(ghost tid: nat) returns (ret: T)
      requires Valid() && At(model, tid).Getting?
      modifies this`pcqTail, this`model, this`history
      ensures Valid() && history == old(history) + [Get(tid)] && model == Step(old(model), Get(tid))
      ensures 0 < pcqCapacity && old(pcqTail) < pcqBuffer.Length
      ensures ret == pcqBuffer[old(pcqTail)] && pcqTail == (old(pcqTail) + 1) % pcqCapacity
      ensures At(model, tid) == HasGot(ret) && model.taken == old(model.taken) + [ret] && model.written == old(model.written)
      ensures OthersStay(old(model), model, tid)
      ensures Fifo(old(model)) ==>
                |old(model).taken| < |model.written| && ret == model.written[|old(model).taken|]
    {
      hide Run, Accounted, Step, Fifo;
      Goes(Get(tid));
      GetGoes(model, tid);
      ret := pcqBuffer[pcqTail];
      pcqTail := (pcqTail + 1) % pcqCapacity;
      model, history := Step(model, Get(tid)), history + [Get(tid)];
    }

    /** Third section: the element is no longer counted, and a sleeping producer is signalled in the same way. */
    method DequeueCount(ghost tid: nat, ghost wake: nat)
      requires Valid() && At(model, tid).HasGot? && SignalFits(model, wake, SleepsToPut)
      modifies this`pcqCurrentSize, this`model, this`history
      ensures Valid() && history == old(history) + [CountGet(tid, wake)] && model == Step(old(model), CountGet(tid, wake))
      ensures At(model, tid).Idle? && Returners(model) == Returners(old(model)) - 1
      ensures Balance(model) == Balance(old(model)) - 1 && pcqCurrentSize == Balance(model) % SIZE_T_RANGE
      ensures SleepsToPut(At(old(model), wake)) ==> At(model, wake) == PutAsleep(At(old(model), wake).elem, true)
      ensures forall t | t != tid && (t != wake || !SleepsToPut(At(old(model), wake))) :: At(model, t) == At(old(model), t)
      ensures Unsignalled(model, SleepsToPut)
           == Unsignalled(old(model), SleepsToPut) - if Unsignalled(old(model), SleepsToPut) > 0 then 1 else 0
      ensures SameHistory(old(model), model)
    {
      hide Run, Step, Enabled, BufferHolds, Balance, Returners, Unsignalled;
      Goes(CountGet(tid, wake));
      CountGetGoes(model, tid, wake);
      CountGetCounts(model, tid, wake);
      pcqCurrentSize := (pcqCurrentSize - 1) % SIZE_T_RANGE;
      model, history := Step(model, CountGet(tid, wake)), history + [CountGet(tid, wake)];
    }
  }

  lemma PutGoes<T>(s: System<T>, tid: nat)
    requires Accounted(s) && At(s, tid).Putting?
    ensures s.q.capacity > 0 && s.q.head < |s.q.buffer|
    ensures var s', e := Step(s, Put(tid)), At(s, tid).elem;
            && s'.q == s.q.(buffer := s.q.buffer[s.q.head := e], head := (s.q.head + 1) % s.q.capacity)
            && At(s', tid).HasPut? && s'.written == s.written + [e] && s'.taken == s.taken && OthersStay(s, s', tid)
  {
    PastMeansCapacity(s, tid);
  }

  lemma GetGoes<T>(s: System<T>, tid: nat)
    requires Accounted(s) && At(s, tid).Getting?
    ensures s.q.capacity > 0 && s.q.tail < |s.q.buffer|
    ensures var s', e := Step(s, Get(tid)), s.q.buffer[s.q.tail];
            && s'.q == s.q.(tail := (s.q.tail + 1) % s.q.capacity)
            && At(s', tid) == HasGot(e) && s'.taken == s.taken + [e] && s'.written == s.written && OthersStay(s, s', tid)
            && (Fifo(s) ==> |s.taken| < |s.written| && e == s.written[|s.taken|])
  {
    PastMeansCapacity(s, tid);
    if Fifo(s) {
      AccessIsSound(s, Event<T>.Get(tid));
    }
  }

  lemma CountPutGoes<T>(s: System<T>, tid: nat, wake: nat)
    requires At(s, tid).HasPut? && SignalFits(s, wake, SleepsToGet)
    ensures var s' := Step(s, CountPut(tid, wake));
            && s'.q == s.q.(size := (s.q.size + 1) % SIZE_T_RANGE) && SameHistory(s, s') && At(s', tid).Idle?
            && (SleepsToGet(At(s, wake)) ==> At(s', wake) == GetAsleep(true))
            && (forall t | t != tid && (t != wake || !SleepsToGet(At(s, wake))) :: At(s', t) == At(s, t))
  {
  }

  lemma CountGetGoes<T>(s: System<T>, tid: nat, wake: nat)
    requires At(s, tid).HasGot? && SignalFits(s, wake, SleepsToPut)
    ensures var s' := Step(s, CountGet(tid, wake));
            && s'.q == s.q.(size := (s.q.size - 1) % SIZE_T_RANGE) && SameHistory(s, s') && At(s', tid).Idle?
            && (SleepsToPut(At(s, wake)) ==> At(s', wake) == PutAsleep(At(s, wake).elem, true))
            && (forall t | t != tid && (t != wake || !SleepsToPut(At(s, wake))) :: At(s', t) == At(s, t))
  {
  }

  lemma CountPutCounts<T>(s: System<T>, tid: nat, wake: nat)
    requires At(s, tid).HasPut? && SignalFits(s, wake, SleepsToGet)
    ensures var s' := Step(s, CountPut(tid, wake));
            && Counters(s') == Counters(s) - 1 && Balance(s') == Balance(s) + 1
            && Unsignalled(s', SleepsToGet) == Unsignalled(s, SleepsToGet) - if Unsignalled(s, SleepsToGet) > 0 then 1 else 0
  {
    StepCounts(s, CountPut(tid, wake));
    StepBalance(s, CountPut(tid, wake));
    CountPutSignals(s, tid, wake);
  }

  lemma CountGetCounts<T>(s: System<T>, tid: nat, wake: nat)
    requires At(s, tid).HasGot? && SignalFits(s, wake, SleepsToPut)
    ensures var s' := Step(s, CountGet(tid, wake));
            && Returners(s') == Returners(s) - 1 && Balance(s') == Balance(s) - 1
            && Unsignalled(s', SleepsToPut) == Unsignalled(s, SleepsToPut) - if Unsignalled(s, SleepsToPut) > 0 then 1 else 0
  {
    StepCounts(s, Event<T>.CountGet(tid, wake));
    StepBalance(s, Event<T>.CountGet(tid, wake));
    CountGetSignals(s, tid, wake);
  }

  /** A check changes nothing but where its thread is. */
  lemma CheckKeeps<T>(s: System<T>, ev: Event<T>)
    requires Enabled(s, ev) && (ev.CheckPut? || ev.CheckGet?)
    ensures Balance(Step(s, ev)) == Balance(s) && Step(s, ev).q == s.q
  {
    StepBalance(s, ev);
  }

  /** While threads have their element or slot, the size field is the balance. */
  lemma BalanceFits<T>(s: System<T>)
    requires Accounted(s)
    ensures Reserved(s) ==> s.q.size == Balance(s)
  {
    if Reserved(s) {
      SizeExact(s);
    }
  }
}
