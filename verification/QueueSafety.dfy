/** What every interleaving of the queue's critical sections keeps, for any number of threads. */
module QueueSafety {
  import opened Arithmetic
  import opened QueueModel
  import opened Sizes

  // ---------- Indices modulo the capacity ----------

  lemma NextIndex(n: nat, cap: nat)
    requires cap > 0
    ensures (n % cap + 1) % cap == (n + 1) % cap
  {
    var q, r := n / cap, n % cap;
    if r + 1 == cap {
      OneMore(cap, q);
      ModOf(n + 1, cap, q + 1, 0);
      ModOf(cap, cap, 1, 0);
    } else {
      ModOf(n + 1, cap, q, r + 1);
      ModOf(r + 1, cap, 0, r + 1);
    }
  }

  lemma DistinctIndices(k: nat, n: nat, cap: nat)
    requires 0 < n - k < cap
    ensures k % cap != n % cap
  {
    assert cap * (n / cap - k / cap) == (n - k) - (n % cap - k % cap);
    Multiple(cap, n / cap - k / cap);
  }

  // ---------- Accounting, for any number of threads ----------

  ghost function Balance<T>(s: System<T>): int {
    Stored(s) - Counters(s) + Returners(s)
  }

  /** The buffer holds the last elements written. */
  ghost predicate BufferHolds<T>(s: System<T>) {
    && |s.q.buffer| == s.q.capacity
    && (s.q.capacity > 0 ==> s.q.head == |s.written| % s.q.capacity && s.q.tail == |s.taken| % s.q.capacity)
    && forall k | 0 <= k < |s.written| && |s.written| - s.q.capacity <= k :: s.q.buffer[k % s.q.capacity] == s.written[k]
  }

  ghost predicate NobodyPast<T>(s: System<T>) {
    Putters(s) == Counters(s) == Getters(s) == Returners(s) == 0
  }

  /**
   writes - reads = size + (stored, not yet counted) - (taken, not yet counted), in the
   arithmetic of size_t; the indices count the accesses modulo the capacity.
   */
  ghost predicate Accounted<T>(s: System<T>) {
    && s.q.capacity < SIZE_T_RANGE
    && s.q.size == Balance(s) % SIZE_T_RANGE
    && (s.q.capacity == 0 ==> NobodyPast(s) && s.written == [] && s.taken == [])
    && BufferHolds(s)
  }

  lemma InitialAccounted<T>(memory: seq<T>)
    requires |memory| < SIZE_T_RANGE
    ensures Accounted(Initial(memory)) && NobodyPast(Initial(memory))
  {
    var s := Initial(memory);
    assert Those(s.threads, IsPutting) == {} && Those(s.threads, IsHasPut) == {};
    assert Those(s.threads, IsGetting) == {} && Those(s.threads, IsHasGot) == {};
  }

  lemma PutHolds<T>(s: System<T>, ev: Event<T>)
    requires Enabled(s, ev) && ev.Put? && BufferHolds(s)
    ensures BufferHolds(Step(s, ev))
  {
    var s', n, cap := Step(s, ev), |s.written|, s.q.capacity;
    NextIndex(n, cap);
    forall k | 0 <= k < |s'.written| && |s'.written| - cap <= k
      ensures s'.q.buffer[k % cap] == s'.written[k]
    {
      if k < n {
        DistinctIndices(k, n, cap);
      }
    }
  }

  lemma StepHolds<T>(s: System<T>, ev: Event<T>)
    requires Enabled(s, ev) && BufferHolds(s)
    ensures BufferHolds(Step(s, ev))
  {
    match ev
    case Put(tid) => PutHolds(s, ev);
    case Get(tid) => NextIndex(|s.taken|, s.q.capacity);
    case CountPut(tid, w) => WakeCounts(s, w);
    case CountGet(tid, w) => WakeCounts(s, w);
    case _ =>
  }

  lemma StepHistory<T>(s: System<T>, ev: Event<T>)
    requires Enabled(s, ev)
    ensures var s' := Step(s, ev);
            && |s'.written| == |s.written| + (if ev.Put? then 1 else 0)
            && |s'.taken| == |s.taken| + (if ev.Get? then 1 else 0)
            && s'.q.capacity == s.q.capacity
            && s'.q.size == (if ev.CountPut? then (s.q.size + 1) % SIZE_T_RANGE
                             else if ev.CountGet? then (s.q.size - 1) % SIZE_T_RANGE else s.q.size)
            && (!ev.Put? ==> s'.written == s.written) && (!ev.Get? ==> s'.taken == s.taken)
  {
    if ev.CountPut? || ev.CountGet? {
      WakeCounts(s, ev.wake);
    }
  }

  /** Every step of every thread keeps the accounting. */
  lemma StepAccounted<T>(s: System<T>, ev: Event<T>)
    requires Accounted(s)
    ensures Accounted(Step(s, ev))
  {
    if Enabled(s, ev) {
      hide *;
      AccountedParts(s);
      StepHolds(s, ev);
      StepBalance(s, ev);
      StepHistory(s, ev);
      WrapStep(Balance(s));
      if s.q.capacity == 0 {
        NothingHappens(s, ev);
      }
      AccountedFrom(Step(s, ev));
    }
  }

  lemma WrapStep(b: int)
    ensures (b % SIZE_T_RANGE + 1) % SIZE_T_RANGE == (b + 1) % SIZE_T_RANGE
    ensures (b % SIZE_T_RANGE - 1) % SIZE_T_RANGE == (b - 1) % SIZE_T_RANGE
  {
  }

  lemma AccountedParts<T>(s: System<T>)
    ensures Accounted(s) ==> s.q.capacity < SIZE_T_RANGE && s.q.size == Balance(s) % SIZE_T_RANGE && BufferHolds(s)
  {
  }

  lemma AccountedFrom<T>(s: System<T>)
    requires s.q.capacity < SIZE_T_RANGE && s.q.size == Balance(s) % SIZE_T_RANGE && BufferHolds(s)
    requires s.q.capacity == 0 ==> NobodyPast(s) && s.written == [] && s.taken == []
    ensures Accounted(s)
  {
  }

  lemma StepBalance<T>(s: System<T>, ev: Event<T>)
    requires Enabled(s, ev)
    ensures Balance(Step(s, ev)) == Balance(s) + (if ev.CountPut? then 1 else if ev.CountGet? then -1 else 0)
  {
    hide Step, Enabled, Putters, Counters, Getters, Returners;
    StepCounts(s, ev);
    StepHistory(s, ev);
  }

  /** A queue of capacity 0 never lets a thread past its check. */
  lemma NothingHappens<T>(s: System<T>, ev: Event<T>)
    requires Accounted(s) && Enabled(s, ev) && s.q.capacity == 0
    ensures NobodyPast(Step(s, ev)) && Step(s, ev).written == [] && Step(s, ev).taken == []
  {
    hide Step, Enabled, Putters, Counters, Getters, Returners, BufferHolds;
    EnabledPast(s, ev);
    StepCounts(s, ev);
    StepHistory(s, ev);
  }

  lemma EnabledPast<T>(s: System<T>, ev: Event<T>)
    requires Enabled(s, ev)
    ensures ev.Put? ==> Putters(s) > 0
    ensures ev.CountPut? ==> Counters(s) > 0
    ensures ev.Get? ==> Getters(s) > 0
    ensures ev.CountGet? ==> Returners(s) > 0
  {
    if ev.Put? {
      assert ev.tid in Those(s.threads, IsPutting);
    } else if ev.CountPut? {
      assert ev.tid in Those(s.threads, IsHasPut);
    } else if ev.Get? {
      assert ev.tid in Those(s.threads, IsGetting);
    } else if ev.CountGet? {
      assert ev.tid in Those(s.threads, IsHasGot);
    }
  }

  /** Accounting holds after every run, however many producers and consumers take part. */
  lemma {:induction false} AlwaysAccounted<T>(memory: seq<T>, evs: seq<Event<T>>)
    requires |memory| < SIZE_T_RANGE
    ensures Accounted(Run(Initial(memory), evs))
    decreases |evs|
  {
    InitialAccounted(memory);
    if evs != [] {
      AlwaysAccounted(memory, evs[..|evs| - 1]);
      StepAccounted(Run(Initial(memory), evs[..|evs| - 1]), evs[|evs| - 1]);
    }
  }
}
