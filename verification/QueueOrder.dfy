/**
 When the queue is first-in first-out whatever the threads do next: every order of the
 accesses still to come is sound, at every point of a run, exactly if every check the run
 passes finds an element, or a free slot, that nobody else past a check counts on.
 */
module QueueOrder {
  import opened Arithmetic
  import opened QueueModel
  import opened QueueSafety
  import opened Sizes

  // ---------- The accesses still to come ----------

  /** The access of a thread past its check. */
  ghost function Access<T>(s: System<T>, tid: nat): System<T> {
    if IsPutting(At(s, tid)) then Step(s, Put(tid))
    else if IsGetting(At(s, tid)) then Step(s, Get(tid))
    else s
  }

  /** It overwrites nothing unread, or reads something unread. */
  ghost predicate SoundAccess<T>(s: System<T>, tid: nat) {
    (IsPutting(At(s, tid)) ==> Stored(s) < s.q.capacity) && (IsGetting(At(s, tid)) ==> Stored(s) > 0)
  }

  ghost predicate SoundSchedule<T>(s: System<T>, tids: seq<nat>)
    decreases |tids|
  {
    tids == [] || (SoundAccess(s, tids[0]) && SoundSchedule(Access(s, tids[0]), tids[1..]))
  }

  /** Whatever order the threads past their checks go on in, every access is sound. */
  ghost predicate SoundInEveryOrder<T>(s: System<T>) {
    forall tids :: SoundSchedule(s, tids)
  }

  ghost predicate Covered<T>(s: System<T>) {
    Getters(s) <= Stored(s) && Stored(s) + Putters(s) <= s.q.capacity
  }

  lemma AccessCounts<T>(s: System<T>, tid: nat)
    requires Accounted(s)
    ensures var s' := Access(s, tid);
            && Accounted(s') && s'.q.capacity == s.q.capacity
            && Stored(s') == Stored(s) + (if IsPutting(At(s, tid)) then 1 else if IsGetting(At(s, tid)) then -1 else 0)
            && Putters(s') == Putters(s) - (if IsPutting(At(s, tid)) then 1 else 0)
            && Getters(s') == Getters(s) - (if IsGetting(At(s, tid)) then 1 else 0)
            && forall t | t != tid :: At(s', t) == At(s, t)
  {
    PastMeansCapacity(s, tid);
    if IsPutting(At(s, tid)) {
      StepAccounted(s, Put(tid));
      StepCounts(s, Event<T>.Put(tid));
    } else if IsGetting(At(s, tid)) {
      StepAccounted(s, Get(tid));
      StepCounts(s, Event<T>.Get(tid));
    }
  }

  lemma PastMeansCapacity<T>(s: System<T>, tid: nat)
    requires Accounted(s)
    ensures IsPutting(At(s, tid)) ==> Enabled(s, Put(tid)) && Putters(s) > 0
    ensures IsGetting(At(s, tid)) ==> Enabled(s, Get(tid)) && Getters(s) > 0
  {
    assert IsPutting(At(s, tid)) ==> tid in Those(s.threads, IsPutting);
    assert IsGetting(At(s, tid)) ==> tid in Those(s.threads, IsGetting);
  }

  lemma {:induction false} CoveredIsSound<T>(s: System<T>, tids: seq<nat>)
    requires Accounted(s) && Covered(s)
    ensures SoundSchedule(s, tids)
    decreases |tids|
  {
    if tids != [] {
      hide BufferHolds, Access, Putters, Getters, Step;
      PastMeansCapacity(s, tids[0]);
      AccessCounts(s, tids[0]);
      CoveredIsSound(Access(s, tids[0]), tids[1..]);
    }
  }

  ghost predicate Distinct(tids: seq<nat>) {
    forall i, j | 0 <= i < j < |tids| :: tids[i] != tids[j]
  }

  lemma {:induction false} Enumerate(a: set<nat>) returns (tids: seq<nat>)
    ensures |tids| == |a| && Distinct(tids) && forall i | 0 <= i < |tids| :: tids[i] in a
  {
    if a == {} {
      tids := [];
    } else {
      var x :| x in a;
      var rest := Enumerate(a - {x});
      tids := [x] + rest;
    }
  }

  /** More consumers past their check than elements: letting them go on reads a slot twice. */
  lemma {:induction false} TooManyGetters<T>(s: System<T>, tids: seq<nat>)
    requires Accounted(s) && Distinct(tids) && |tids| > Stored(s) >= 0
    requires forall i | 0 <= i < |tids| :: IsGetting(At(s, tids[i]))
    ensures !SoundSchedule(s, tids)
    decreases |tids|
  {
    if Stored(s) > 0 {
      hide BufferHolds, Access, Putters, Getters, Step;
      AccessCounts(s, tids[0]);
      assert forall i | 1 <= i < |tids| :: tids[i] != tids[0];
      TooManyGetters(Access(s, tids[0]), tids[1..]);
    }
  }

  /** More producers past their check than free slots: letting them go on overwrites an unread slot. */
  lemma {:induction false} TooManyPutters<T>(s: System<T>, tids: seq<nat>)
    requires Accounted(s) && Distinct(tids) && |tids| > s.q.capacity - Stored(s) >= 0
    requires forall i | 0 <= i < |tids| :: IsPutting(At(s, tids[i]))
    ensures !SoundSchedule(s, tids)
    decreases |tids|
  {
    if Stored(s) < s.q.capacity {
      hide BufferHolds, Access, Putters, Getters, Step;
      AccessCounts(s, tids[0]);
      assert forall i | 1 <= i < |tids| :: tids[i] != tids[0];
      TooManyPutters(Access(s, tids[0]), tids[1..]);
    }
  }

  /**
   The threads past their check do no harm in any order exactly if there is an element for
   each of the consumers among them and a free slot for each of the producers.
   */
  lemma SafeExactlyWhenCovered<T>(s: System<T>)
    requires Accounted(s) && 0 <= Stored(s) <= s.q.capacity
    ensures SoundInEveryOrder(s) <==> Covered(s)
  {
    if Covered(s) {
      forall tids
        ensures SoundSchedule(s, tids)
      {
        CoveredIsSound(s, tids);
      }
    } else if Getters(s) > Stored(s) {
      var tids := Enumerate(Those(s.threads, IsGetting));
      TooManyGetters(s, tids);
    } else {
      var tids := Enumerate(Those(s.threads, IsPutting));
      TooManyPutters(s, tids);
    }
  }

  /**
   What an access that is not sound does: a take delivers something that was not the next
   element, and a store overwrites the oldest element not taken.
   */
  lemma UnsoundAccessBreaks<T>(s: System<T>, tid: nat)
    requires Accounted(s) && 0 <= Stored(s) <= s.q.capacity && !SoundAccess(s, tid)
    ensures IsGetting(At(s, tid)) ==> !(Access(s, tid).taken <= Access(s, tid).written)
    ensures IsPutting(At(s, tid)) ==>
              && |s.taken| < |s.written| && s.q.head == |s.taken| % s.q.capacity < |s.q.buffer|
              && s.q.buffer[s.q.head] == s.written[|s.taken|]
              && Access(s, tid).q.buffer == s.q.buffer[s.q.head := At(s, tid).elem]
  {
    PastMeansCapacity(s, tid);
    if IsPutting(At(s, tid)) {
      SameSlotAgain(|s.taken|, s.q.capacity);
    }
  }

  lemma SameSlotAgain(n: nat, cap: nat)
    requires cap > 0
    ensures (n + cap) % cap == n % cap
  {
    ModOf(n + cap, cap, n / cap + 1, n % cap);
  }

  // ---------- Runs ----------

  /** What was taken is what was stored first, and every access still to come is sound in any order. */
  ghost predicate Fifo<T>(s: System<T>) {
    Accounted(s) && Covered(s) && s.taken <= s.written
  }

  /** The check this step passes, if it passes one, finds an element, or a free slot, that nobody else counts on. */
  ghost predicate LeavesRoom<T>(s: System<T>, ev: Event<T>) {
    && (ev.CheckPut? && !IsFull(s.q) ==> Stored(s) + Putters(s) < s.q.capacity)
    && (ev.CheckGet? && !IsEmpty(s.q) ==> Getters(s) < Stored(s))
  }

  /** A take returns the oldest element not taken; a store never hits an element not taken. */
  lemma AccessIsSound<T>(s: System<T>, ev: Event<T>)
    requires Fifo(s) && Enabled(s, ev)
    ensures ev.Get? ==> |s.taken| < |s.written| && Step(s, ev).taken == s.taken + [s.written[|s.taken|]]
    ensures ev.Put? ==> Stored(s) < s.q.capacity
                        && forall k | |s.taken| <= k < |s.written| :: k % s.q.capacity != s.q.head
  {
    EnabledPast(s, ev);
    if ev.Put? {
      forall k | |s.taken| <= k < |s.written|
        ensures k % s.q.capacity != s.q.head
      {
        DistinctIndices(k, |s.written|, s.q.capacity);
      }
    }
  }

  lemma StepPrefix<T>(s: System<T>, ev: Event<T>)
    requires Fifo(s) && Enabled(s, ev)
    ensures Step(s, ev).taken <= Step(s, ev).written
  {
    AccessIsSound(s, ev);
    StepHistory(s, ev);
  }

  /**
   After a step from a first-in first-out state the accesses still to come are sound in
   every order exactly if the step's check left room; otherwise some order of them takes
   out of turn or overwrites an element not taken.
   */
  lemma StepFifoExactly<T>(s: System<T>, ev: Event<T>)
    requires Fifo(s) && Enabled(s, ev)
    ensures SoundInEveryOrder(Step(s, ev)) <==> LeavesRoom(s, ev)
    ensures Fifo(Step(s, ev)) <==> LeavesRoom(s, ev)
  {
    StepAccounted(s, ev);
    StepPrefix(s, ev);
    hide BufferHolds, Step, Enabled, Putters, Counters, Getters, Returners, SoundInEveryOrder;
    StepCounts(s, ev);
    StepHistory(s, ev);
    EnabledPast(s, ev);
    SafeExactlyWhenCovered(Step(s, ev));
  }

  ghost predicate FifoAt<T>(memory: seq<T>, evs: seq<Event<T>>, n: nat)
    requires n <= |evs|
  {
    Fifo(Run(Initial(memory), evs[..n]))
  }

  ghost predicate RoomAt<T>(memory: seq<T>, evs: seq<Event<T>>, n: nat)
    requires n < |evs|
  {
    var s := Run(Initial(memory), evs[..n]);
    Enabled(s, evs[n]) ==> LeavesRoom(s, evs[n])
  }

  /** Every order of the accesses of the threads past their checks is sound at this point of the run. */
  ghost predicate SoundAt<T>(memory: seq<T>, evs: seq<Event<T>>, n: nat)
    requires n <= |evs|
  {
    SoundInEveryOrder(Run(Initial(memory), evs[..n]))
  }

  /**
   At every point of a run every order of the accesses to come is sound exactly if every
   check the run passes leaves room; then what was taken is at every point what was stored first.
   */
  lemma RunFifoExactly<T>(memory: seq<T>, evs: seq<Event<T>>)
    requires |memory| < SIZE_T_RANGE
    ensures (forall n | 0 <= n <= |evs| :: SoundAt(memory, evs, n)) <==> (forall n | 0 <= n < |evs| :: RoomAt(memory, evs, n))
    ensures (forall n | 0 <= n < |evs| :: RoomAt(memory, evs, n)) ==>
              forall n | 0 <= n <= |evs| :: Run(Initial(memory), evs[..n]).taken <= Run(Initial(memory), evs[..n]).written
  {
    hide FifoAt, RoomAt, SoundAt, Run;
    StartsFifo(memory, evs);
    if (forall n | 0 <= n <= |evs| :: SoundAt(memory, evs, n)) || (forall n | 0 <= n < |evs| :: RoomAt(memory, evs, n)) {
      FifoUpTo(memory, evs, |evs|);
      forall n | 0 <= n < |evs|
        ensures (FifoAt(memory, evs, n + 1) <==> RoomAt(memory, evs, n)) && (SoundAt(memory, evs, n + 1) <==> RoomAt(memory, evs, n))
      {
        StepAt(memory, evs, n);
      }
      forall n | 0 <= n <= |evs|
        ensures SoundAt(memory, evs, n) && Run(Initial(memory), evs[..n]).taken <= Run(Initial(memory), evs[..n]).written
      {
        FifoIsSound(memory, evs, n);
      }
    }
  }

  lemma FifoIsSound<T>(memory: seq<T>, evs: seq<Event<T>>, n: nat)
    requires n <= |evs| && FifoAt(memory, evs, n)
    ensures SoundAt(memory, evs, n) && Run(Initial(memory), evs[..n]).taken <= Run(Initial(memory), evs[..n]).written
  {
    SafeExactlyWhenCovered(Run(Initial(memory), evs[..n]));
  }

  /** A run that is sound in every order so far, or has left room so far, has taken in order so far. */
  lemma {:induction false} FifoUpTo<T>(memory: seq<T>, evs: seq<Event<T>>, n: nat)
    requires |memory| < SIZE_T_RANGE && n <= |evs|
    requires (forall m | 0 <= m <= n :: SoundAt(memory, evs, m)) || (forall m | 0 <= m < n :: RoomAt(memory, evs, m))
    ensures forall m | 0 <= m <= n :: FifoAt(memory, evs, m)
  {
    hide FifoAt, RoomAt, SoundAt;
    if n == 0 {
      StartsFifo(memory, evs);
    } else {
      FifoUpTo(memory, evs, n - 1);
      StepAt(memory, evs, n - 1);
    }
  }

  lemma StepAt<T>(memory: seq<T>, evs: seq<Event<T>>, n: nat)
    requires n < |evs| && FifoAt(memory, evs, n)
    ensures FifoAt(memory, evs, n + 1) <==> RoomAt(memory, evs, n)
    ensures SoundAt(memory, evs, n + 1) <==> RoomAt(memory, evs, n)
  {
    hide Fifo, LeavesRoom, Enabled, SoundInEveryOrder;
    var s, ev := Run(Initial(memory), evs[..n]), evs[n];
    assert evs[..n + 1][..n] == evs[..n];
    assert Run(Initial(memory), evs[..n + 1]) == Step(s, ev);
    if Enabled(s, ev) {
      StepFifoExactly(s, ev);
    } else {
      FifoIsSound(memory, evs, n);
    }
  }

  lemma StartsFifo<T>(memory: seq<T>, evs: seq<Event<T>>)
    requires |memory| < SIZE_T_RANGE
    ensures FifoAt(memory, evs, 0)
  {
    InitialFifo(memory);
    assert evs[..0] == [];
  }

  lemma InitialFifo<T>(memory: seq<T>)
    requires |memory| < SIZE_T_RANGE
    ensures Fifo(Initial(memory)) && Reserved(Initial(memory))
  {
    InitialAccounted(memory);
  }

  // ---------- At most one thread of each side past its check ----------

  /** At most one producer and one consumer are past their check. */
  ghost predicate OneEach<T>(s: System<T>) {
    Putters(s) + Counters(s) <= 1 && Getters(s) + Returners(s) <= 1
  }

  /** What such runs keep: the threads past their check have their element or slot, counted or not. */
  ghost predicate Reserved<T>(s: System<T>) {
    Counters(s) + Getters(s) <= Stored(s) && Stored(s) + Returners(s) + Putters(s) <= s.q.capacity
  }

  lemma SizeExact<T>(s: System<T>)
    requires Accounted(s) && Reserved(s)
    ensures s.q.size == Balance(s) && Stored(s) <= s.q.capacity
  {
  }

  lemma OneEachReserves<T>(s: System<T>, ev: Event<T>)
    requires Fifo(s) && Reserved(s) && Enabled(s, ev) && OneEach(Step(s, ev))
    ensures Fifo(Step(s, ev)) && Reserved(Step(s, ev))
  {
    SizeExact(s);
    StepFifoExactly(s, ev);
    hide BufferHolds, Step, Enabled, Putters, Counters, Getters, Returners, SoundInEveryOrder;
    StepCounts(s, ev);
    StepHistory(s, ev);
    EnabledPast(s, ev);
  }

  /**
   In every run with at most one producer and one consumer past their check at a time,
   what was taken is a prefix of what was written and nothing unread is overwritten.
   */
  lemma {:induction false} OneEachIsFifo<T>(memory: seq<T>, evs: seq<Event<T>>)
    requires |memory| < SIZE_T_RANGE
    requires forall n | 0 <= n <= |evs| :: OneEach(Run(Initial(memory), evs[..n]))
    ensures Fifo(Run(Initial(memory), evs)) && Reserved(Run(Initial(memory), evs))
    decreases |evs|
  {
    InitialFifo(memory);
    if evs != [] {
      var init, front := evs[..|evs| - 1], Run(Initial(memory), evs[..|evs| - 1]);
      forall n | 0 <= n <= |init|
        ensures OneEach(Run(Initial(memory), init[..n]))
      {
        assert init[..n] == evs[..n];
      }
      OneEachIsFifo(memory, init);
      assert evs[..|evs|] == evs;
      var ev := evs[|evs| - 1];
      if Enabled(front, ev) {
        OneEachReserves(front, ev);
      }
    }
  }

  // ---------- Two consumers pass the check on one element ----------

  /** A queue at rest: nothing stored, no thread inside an operation. */
  ghost predicate AtRest<T>(s: System<T>) {
    Accounted(s) && s.q.capacity > 0 && Stored(s) == 0 && forall t | t in s.threads :: s.threads[t].Idle?
  }

  /** One producer stores `e`; then two consumers pass the check before either takes. */
  function TwoConsumers<T>(p: nat, c: nat, d: nat, e: T): seq<Event<T>> {
    [Enqueue(p, e), CheckPut(p), Put(p), CountPut(p, p), Dequeue(c), Dequeue(d), CheckGet(c), CheckGet(d), Get(c), Get(d)]
  }

  /** The element is stored and counted, and threads `c` and `d` are past the check. */
  ghost function BothPast<T>(s: System<T>, p: nat, c: nat, d: nat, e: T): System<T>
    requires s.q.capacity > 0 && s.q.head < |s.q.buffer|
  {
    System(s.q.(buffer := s.q.buffer[s.q.head := e], head := (s.q.head + 1) % s.q.capacity, size := 1),
           s.threads[p := Idle][c := Getting][d := Getting], s.written + [e], s.taken)
  }

  lemma RestIsEmpty<T>(s: System<T>)
    requires AtRest(s)
    ensures NobodyPast(s) && s.q.size == 0 && |s.q.buffer| == s.q.capacity && s.q.head == s.q.tail < |s.q.buffer|
  {
    assert Those(s.threads, IsPutting) == {} && Those(s.threads, IsHasPut) == {};
    assert Those(s.threads, IsGetting) == {} && Those(s.threads, IsHasGot) == {};
  }

  lemma ElementStored<T>(s: System<T>, p: nat, e: T)
    requires AtRest(s)
    ensures s.q.head < |s.q.buffer|
    ensures Step(Step(Step(s, Enqueue(p, e)), CheckPut(p)), Put(p))
         == System(Store(s.q, e), s.threads[p := HasPut], s.written + [e], s.taken)
  {
    RestIsEmpty(s);
  }

  lemma BothPass<T>(s: System<T>, p: nat, c: nat, d: nat, e: T)
    requires AtRest(s) && p != c && p != d && c != d
    ensures s.q.head < |s.q.buffer|
    ensures var s1 := System(Store(s.q, e), s.threads[p := HasPut], s.written + [e], s.taken);
            Step(Step(Step(Step(Step(s1, CountPut(p, p)), Dequeue(c)), Dequeue(d)), CheckGet(c)), CheckGet(d))
            == BothPast(s, p, c, d, e)
  {
    RestIsEmpty(s);
    var s1 := System(Store(s.q, e), s.threads[p := HasPut], s.written + [e], s.taken);
    var s2 := Step(s1, CountPut(p, p));
    assert s2 == System(Store(s.q, e).(size := 1), s.threads[p := Idle], s.written + [e], s.taken);
  }

  lemma BothTake<T>(s: System<T>, p: nat, c: nat, d: nat, e: T)
    requires AtRest(s) && p != c && p != d && c != d
    ensures s.q.head < |s.q.buffer|
    ensures var buffer := s.q.buffer[s.q.head := e];
            var next := buffer[(s.q.head + 1) % s.q.capacity];
            var s' := Step(Step(BothPast(s, p, c, d, e), Get(c)), Get(d));
            && s'.written == s.written + [e] && s'.taken == s.taken + [e, next]
            && At(s', c) == HasGot(e) && At(s', d) == HasGot(next)
  {
    RestIsEmpty(s);
  }

  /**
   From any state at rest, whatever the capacity, two consumers can both pass the check on
   one element: the second delivers an element that was delivered before, the one stored
   `capacity` places earlier, or memory that was never written.
   */
  lemma TwoConsumersTakeOneElement<T>(s: System<T>, p: nat, c: nat, d: nat, e: T)
    requires AtRest(s) && p != c && p != d && c != d
    ensures var s' := Run(s, TwoConsumers(p, c, d, e));
            && s'.written == s.written + [e] && |s'.taken| == |s'.written| + 1
            && At(s', c) == HasGot(e) && At(s', d).HasGot?
            && (|s'.written| >= s.q.capacity ==> At(s', d).ret == s'.written[|s'.written| - s.q.capacity])
  {
    hide Run, Step;
    RunTwoConsumers(s, p, c, d, e);
    ElementStored(s, p, e);
    BothPass(s, p, c, d, e);
    BothTake(s, p, c, d, e);
    SecondIsOld(s, e);
  }

  lemma RunTwoConsumers<T>(s: System<T>, p: nat, c: nat, d: nat, e: T)
    ensures Run(s, TwoConsumers(p, c, d, e))
         == Step(Step(Step(Step(Step(Step(Step(Step(Step(Step(s, Enqueue(p, e)), CheckPut(p)), Put(p)), CountPut(p, p)),
                 Dequeue(c)), Dequeue(d)), CheckGet(c)), CheckGet(d)), Get(c)), Get(d))
  {
    hide Run, Step;
    var evs := TwoConsumers(p, c, d, e);
    RunNothing(s, evs);
    RunLast(s, evs, 1);
    RunLast(s, evs, 2);
    RunLast(s, evs, 3);
    RunLast(s, evs, 4);
    RunLast(s, evs, 5);
    RunLast(s, evs, 6);
    RunLast(s, evs, 7);
    RunLast(s, evs, 8);
    RunLast(s, evs, 9);
    RunLast(s, evs, 10);
    assert evs[..10] == evs;
  }

  lemma RunNothing<T>(s: System<T>, evs: seq<Event<T>>)
    ensures Run(s, evs[..0]) == s
  {
  }

  lemma RunLast<T>(s: System<T>, evs: seq<Event<T>>, n: nat)
    requires 0 < n <= |evs|
    ensures Run(s, evs[..n]) == Step(Run(s, evs[..n - 1]), evs[n - 1])
  {
    assert evs[..n][..n - 1] == evs[..n - 1];
  }

  /** The slot behind the new element holds what was written a whole round before. */
  lemma SecondIsOld<T>(s: System<T>, e: T)
    requires AtRest(s)
    ensures s.q.head < |s.q.buffer|
    ensures var n, cap := |s.written| + 1, s.q.capacity;
            n >= cap ==> s.q.buffer[s.q.head := e][(s.q.head + 1) % cap] == (s.written + [e])[n - cap]
  {
    RestIsEmpty(s);
    var n, cap := |s.written| + 1, s.q.capacity;
    if n >= cap {
      NextIndex(n - 1, cap);
      SameSlotAgain(n - cap, cap);
      if cap > 1 {
        DistinctIndices(n - cap, n - 1, cap);
      }
    }
  }
}
