/**
 The bounded queue as its threads see it: an operation is three critical sections,
 check, access and count, and the sections of different threads interleave freely.
 The system keeps the history of the accesses beside the queue's own fields.
 */
module QueueModel {
  import opened Sizes

  // ---------- The queue's fields, section by section ----------

  datatype Queue<T> = Queue(capacity: nat, buffer: seq<T>, head: nat, tail: nat, size: nat)

  /** pcq_create; the buffer's contents are whatever malloc returned. */
  function Created<T>(memory: seq<T>): Queue<T> {
    Queue(|memory|, memory, 0, 0, 0)
  }

  predicate IsFull<T>(q: Queue<T>) { q.size == q.capacity }

  predicate IsEmpty<T>(q: Queue<T>) { q.size == 0 }

  function Store<T>(q: Queue<T>, e: T): Queue<T>
    requires q.capacity > 0 && q.head < |q.buffer|
  {
    q.(buffer := q.buffer[q.head := e], head := (q.head + 1) % q.capacity)
  }

  function Take<T>(q: Queue<T>): (Queue<T>, T)
    requires q.capacity > 0 && q.tail < |q.buffer|
  {
    (q.(tail := (q.tail + 1) % q.capacity), q.buffer[q.tail])
  }

  // size_t arithmetic wraps around.
  function CountUp<T>(q: Queue<T>): Queue<T> { q.(size := (q.size + 1) % SIZE_T_RANGE) }

  function CountDown<T>(q: Queue<T>): Queue<T> { q.(size := (q.size - 1) % SIZE_T_RANGE) }

  // ---------- Threads ----------

  /** Where a thread is: outside the queue, before or asleep at its check, past it, or past its access. */
  datatype Thread<T> =
    | Idle
    | Offering(elem: T) | PutAsleep(elem: T, woken: bool) | Putting(elem: T) | HasPut
    | Wanting | GetAsleep(woken: bool) | Getting | HasGot(ret: T)

  predicate IsPutting<T>(t: Thread<T>) { t.Putting? }
  predicate IsHasPut<T>(t: Thread<T>) { t.HasPut? }
  predicate IsGetting<T>(t: Thread<T>) { t.Getting? }
  predicate IsHasGot<T>(t: Thread<T>) { t.HasGot? }

  datatype System<T> = System(q: Queue<T>, threads: map<nat, Thread<T>>, written: seq<T>, taken: seq<T>)

  /** A thread's next section; a count also signals one of the sleepers of the other side, if there are any. */
  datatype Event<T> =
    | Enqueue(tid: nat, elem: T) | Dequeue(tid: nat)
    | CheckPut(tid: nat) | Put(tid: nat) | CountPut(tid: nat, wake: nat)
    | CheckGet(tid: nat) | Get(tid: nat) | CountGet(tid: nat, wake: nat)

  function At<T>(s: System<T>, tid: nat): Thread<T> {
    if tid in s.threads then s.threads[tid] else Idle
  }

  function Move<T>(s: System<T>, tid: nat, t: Thread<T>): System<T> {
    s.(threads := s.threads[tid := t])
  }

  predicate SleepsToPut<T>(t: Thread<T>) { t.PutAsleep? && !t.woken }

  predicate SleepsToGet<T>(t: Thread<T>) { t.GetAsleep? && !t.woken }

  ghost predicate Enabled<T>(s: System<T>, ev: Event<T>) {
    match ev
    case Enqueue(tid, _) => At(s, tid).Idle?
    case Dequeue(tid) => At(s, tid).Idle?
    // a sleeper may also wake up spuriously
    case CheckPut(tid) => At(s, tid).Offering? || At(s, tid).PutAsleep?
    case Put(tid) => At(s, tid).Putting? && s.q.capacity > 0 && s.q.head < |s.q.buffer|
    case CountPut(tid, w) => At(s, tid).HasPut? && SignalFits(s, w, SleepsToGet)
    case CheckGet(tid) => At(s, tid).Wanting? || At(s, tid).GetAsleep?
    case Get(tid) => At(s, tid).Getting? && s.q.capacity > 0 && s.q.tail < |s.q.buffer|
    case CountGet(tid, w) => At(s, tid).HasGot? && SignalFits(s, w, SleepsToPut)
  }

  /** pthread_cond_signal reaches a sleeper if there is one. */
  ghost predicate SignalFits<T>(s: System<T>, w: nat, sleeps: Thread<T> -> bool) {
    sleeps(At(s, w)) || forall t | t in s.threads :: !sleeps(s.threads[t])
  }

  function Wake<T>(s: System<T>, w: nat): System<T> {
    match At(s, w)
    case PutAsleep(e, _) => Move(s, w, PutAsleep(e, true))
    case GetAsleep(_) => Move(s, w, GetAsleep(true))
    case _ => s
  }

  ghost function Step<T>(s: System<T>, ev: Event<T>): System<T> {
    if !Enabled(s, ev) then s
    else
      match ev
      case Enqueue(tid, e) => Move(s, tid, Offering(e))
      case Dequeue(tid) => Move(s, tid, Wanting)
      case CheckPut(tid) =>
        var e := At(s, tid).elem;
        Move(s, tid, if IsFull(s.q) then PutAsleep(e, false) else Putting(e))
      case Put(tid) =>
        var e := At(s, tid).elem;
        Move(s, tid, HasPut).(q := Store(s.q, e), written := s.written + [e])
      case CountPut(tid, w) =>
        var s1 := if SleepsToGet(At(s, w)) then Wake(s, w) else s;
        Move(s1, tid, Idle).(q := CountUp(s.q))
      case CheckGet(tid) =>
        Move(s, tid, if IsEmpty(s.q) then GetAsleep(false) else Getting)
      case Get(tid) =>
        var (q, e) := Take(s.q);
        Move(s, tid, HasGot(e)).(q := q, taken := s.taken + [e])
      case CountGet(tid, w) =>
        var s1 := if SleepsToPut(At(s, w)) then Wake(s, w) else s;
        Move(s1, tid, Idle).(q := CountDown(s.q))
  }

  ghost function Initial<T>(memory: seq<T>): System<T> {
    System(Created(memory), map[], [], [])
  }

  ghost function Run<T>(s: System<T>, evs: seq<Event<T>>): System<T>
    decreases |evs|
  {
    if evs == [] then s else Step(Run(s, evs[..|evs| - 1]), evs[|evs| - 1])
  }

  // ---------- Counting threads ----------

  ghost function Those<T>(threads: map<nat, Thread<T>>, p: Thread<T> -> bool): set<nat> {
    set t | t in threads && p(threads[t])
  }

  ghost function Putters<T>(s: System<T>): nat { |Those(s.threads, IsPutting)| }
  ghost function Counters<T>(s: System<T>): nat { |Those(s.threads, IsHasPut)| }
  ghost function Getters<T>(s: System<T>): nat { |Those(s.threads, IsGetting)| }
  ghost function Returners<T>(s: System<T>): nat { |Those(s.threads, IsHasGot)| }

  /** Elements stored and not yet taken; negative if more were taken than stored. */
  ghost function Stored<T>(s: System<T>): int { |s.written| - |s.taken| }

  lemma ThoseMoved<T>(threads: map<nat, Thread<T>>, tid: nat, t: Thread<T>, p: Thread<T> -> bool)
    ensures |Those(threads[tid := t], p)|
         == |Those(threads, p)| - (if tid in threads && p(threads[tid]) then 1 else 0) + (if p(t) then 1 else 0)
  {
    assert Those(threads[tid := t], p) == Those(threads, p) - {tid} + if p(t) then {tid} else {};
  }

  lemma CountsMoved<T>(s: System<T>, tid: nat, t: Thread<T>)
    ensures var s' := Move(s, tid, t);
            && Putters(s') == Putters(s) - (if IsPutting(At(s, tid)) then 1 else 0) + (if IsPutting(t) then 1 else 0)
            && Counters(s') == Counters(s) - (if IsHasPut(At(s, tid)) then 1 else 0) + (if IsHasPut(t) then 1 else 0)
            && Getters(s') == Getters(s) - (if IsGetting(At(s, tid)) then 1 else 0) + (if IsGetting(t) then 1 else 0)
            && Returners(s') == Returners(s) - (if IsHasGot(At(s, tid)) then 1 else 0) + (if IsHasGot(t) then 1 else 0)
  {
    ThoseMoved(s.threads, tid, t, IsPutting);
    ThoseMoved(s.threads, tid, t, IsHasPut);
    ThoseMoved(s.threads, tid, t, IsGetting);
    ThoseMoved(s.threads, tid, t, IsHasGot);
  }

  lemma WakeCounts<T>(s: System<T>, w: nat)
    ensures var s' := Wake(s, w);
            && Putters(s') == Putters(s) && Counters(s') == Counters(s)
            && Getters(s') == Getters(s) && Returners(s') == Returners(s)
    ensures forall t | !At(s, t).PutAsleep? && !At(s, t).GetAsleep? :: At(Wake(s, w), t) == At(s, t)
    ensures Wake(s, w) == s.(threads := Wake(s, w).threads)
  {
    match At(s, w)
    case PutAsleep(e, _) => CountsMoved(s, w, PutAsleep(e, true));
    case GetAsleep(_) => CountsMoved(s, w, GetAsleep(true));
    case _ =>
  }

  /** What a step does to the counts of threads past their check. */
  lemma StepCounts<T>(s: System<T>, ev: Event<T>)
    requires Enabled(s, ev)
    ensures var s' := Step(s, ev);
            && Putters(s') == Putters(s) + (if ev.CheckPut? && !IsFull(s.q) then 1 else if ev.Put? then -1 else 0)
            && Counters(s') == Counters(s) + (if ev.Put? then 1 else if ev.CountPut? then -1 else 0)
            && Getters(s') == Getters(s) + (if ev.CheckGet? && !IsEmpty(s.q) then 1 else if ev.Get? then -1 else 0)
            && Returners(s') == Returners(s) + (if ev.Get? then 1 else if ev.CountGet? then -1 else 0)
  {
    if ev.CountPut? || ev.CountGet? {
      CountStepCounts(s, ev);
    } else {
      CountsMoved(s, ev.tid, At(Step(s, ev), ev.tid));
    }
  }

  lemma CountStepCounts<T>(s: System<T>, ev: Event<T>)
    requires Enabled(s, ev) && (ev.CountPut? || ev.CountGet?)
    ensures var s' := Step(s, ev);
            && Putters(s') == Putters(s) && Getters(s') == Getters(s)
            && Counters(s') == Counters(s) - (if ev.CountPut? then 1 else 0)
            && Returners(s') == Returners(s) - (if ev.CountGet? then 1 else 0)
  {
    WakeCounts(s, ev.wake);
    CountsMoved(s, ev.tid, Idle);
    CountsMoved(Wake(s, ev.wake), ev.tid, Idle);
  }

  // ---------- Signals ----------

  /** How many threads of one side sleep without a signal. */
  ghost function Unsignalled<T>(s: System<T>, sleeps: Thread<T> -> bool): nat {
    |Those(s.threads, sleeps)|
  }

  lemma NobodySleeps<T>(s: System<T>, w: nat, sleeps: Thread<T> -> bool)
    requires SignalFits(s, w, sleeps) && !sleeps(Idle)
    ensures Unsignalled(s, sleeps) > 0 <==> sleeps(At(s, w))
  {
    assert sleeps(At(s, w)) ==> w in Those(s.threads, sleeps);
    assert !sleeps(At(s, w)) ==> Those(s.threads, sleeps) == {};
  }

  /** A count signals one of the sleeping consumers, if there are any, however many signals are pending. */
  lemma CountPutSignals<T>(s: System<T>, tid: nat, wake: nat)
    requires At(s, tid).HasPut? && SignalFits(s, wake, SleepsToGet)
    ensures Unsignalled(Step(s, CountPut(tid, wake)), SleepsToGet)
         == Unsignalled(s, SleepsToGet) - if Unsignalled(s, SleepsToGet) > 0 then 1 else 0
  {
    NobodySleeps(s, wake, SleepsToGet);
    var s1 := if SleepsToGet(At(s, wake)) then Wake(s, wake) else s;
    ThoseMoved(s.threads, wake, GetAsleep(true), SleepsToGet);
    ThoseMoved(s1.threads, tid, Idle, SleepsToGet);
  }

  lemma CountGetSignals<T>(s: System<T>, tid: nat, wake: nat)
    requires At(s, tid).HasGot? && SignalFits(s, wake, SleepsToPut)
    ensures Unsignalled(Step(s, CountGet(tid, wake)), SleepsToPut)
         == Unsignalled(s, SleepsToPut) - if Unsignalled(s, SleepsToPut) > 0 then 1 else 0
  {
    NobodySleeps(s, wake, SleepsToPut);
    var s1 := if SleepsToPut(At(s, wake)) then Wake(s, wake) else s;
    if SleepsToPut(At(s, wake)) {
      ThoseMoved(s.threads, wake, PutAsleep(At(s, wake).elem, true), SleepsToPut);
    }
    ThoseMoved(s1.threads, tid, Idle, SleepsToPut);
  }
}
