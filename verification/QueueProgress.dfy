/** One producer and one consumer: first-in first-out in every run, and never both asleep. */
module QueueProgress {
  import opened QueueModel
  import opened QueueOrder
  import opened Sizes
  import opened QueueSafety

  // ---------- One producer and one consumer ----------

  ghost predicate Roles<T>(evs: seq<Event<T>>, p: nat, c: nat) {
    p != c && forall i | 0 <= i < |evs| ::
      (evs[i].Enqueue? ==> evs[i].tid == p) && (evs[i].Dequeue? ==> evs[i].tid == c)
  }

  ghost predicate Produces<T>(t: Thread<T>) {
    t.Idle? || t.Offering? || t.PutAsleep? || t.Putting? || t.HasPut?
  }

  ghost predicate Consumes<T>(t: Thread<T>) {
    t.Idle? || t.Wanting? || t.GetAsleep? || t.Getting? || t.HasGot?
  }

  ghost predicate InRole<T>(s: System<T>, p: nat, c: nat) {
    && p != c
    && Produces(At(s, p)) && Consumes(At(s, c))
    && forall t | t != p && t != c :: At(s, t).Idle?
  }

  lemma StepInRole<T>(s: System<T>, ev: Event<T>, p: nat, c: nat)
    requires InRole(s, p, c) && Roles([ev], p, c)
    ensures InRole(Step(s, ev), p, c)
  {
    assert [ev][0] == ev;
    if Enabled(s, ev) {
      assert ev.tid == p || ev.tid == c;
      assert (ev.CountPut? || ev.CountGet?) && ev.wake != p && ev.wake != c ==> At(s, ev.wake).Idle?;
      forall t | t != p && t != c
        ensures At(Step(s, ev), t).Idle?
      {
        assert At(s, t).Idle?;
      }
    }
  }

  lemma InRoleOneEach<T>(s: System<T>, p: nat, c: nat)
    requires InRole(s, p, c)
    ensures OneEach(s)
  {
    forall t | t in s.threads
      ensures t == p || t == c || s.threads[t].Idle?
    {
      assert At(s, t) == s.threads[t];
    }
    var a, b := Those(s.threads, IsPutting), Those(s.threads, IsHasPut);
    assert a == if IsPutting(At(s, p)) then {p} else {};
    assert b == if IsHasPut(At(s, p)) then {p} else {};
    var d, e := Those(s.threads, IsGetting), Those(s.threads, IsHasGot);
    assert d == if IsGetting(At(s, c)) then {c} else {};
    assert e == if IsHasGot(At(s, c)) then {c} else {};
  }

  lemma {:induction false} RolesKept<T>(memory: seq<T>, evs: seq<Event<T>>, p: nat, c: nat)
    requires Roles(evs, p, c)
    ensures InRole(Run(Initial(memory), evs), p, c)
    decreases |evs|
  {
    if evs != [] {
      RolesKept(memory, evs[..|evs| - 1], p, c);
      StepInRole(Run(Initial(memory), evs[..|evs| - 1]), evs[|evs| - 1], p, c);
    }
  }

  /** With one producer and one consumer the queue is first-in first-out in every run. */
  lemma OneProducerOneConsumer<T>(memory: seq<T>, evs: seq<Event<T>>, p: nat, c: nat)
    requires |memory| < SIZE_T_RANGE && Roles(evs, p, c)
    ensures Fifo(Run(Initial(memory), evs))
  {
    forall n | 0 <= n <= |evs|
      ensures OneEach(Run(Initial(memory), evs[..n]))
    {
      RolesKept(memory, evs[..n], p, c);
      InRoleOneEach(Run(Initial(memory), evs[..n]), p, c);
    }
    OneEachIsFifo(memory, evs);
  }

  /** A producer sleeps unsignalled only on a full queue, a consumer only on an empty one. */
  ghost predicate SleepsRightly<T>(s: System<T>, p: nat, c: nat) {
    && (SleepsToPut(At(s, p)) ==> s.q.size == s.q.capacity)
    && (SleepsToGet(At(s, c)) ==> s.q.size == 0)
  }

  lemma StepSleepsRightly<T>(s: System<T>, ev: Event<T>, p: nat, c: nat)
    requires InRole(s, p, c) && SleepsRightly(s, p, c) && Roles([ev], p, c)
    ensures SleepsRightly(Step(s, ev), p, c)
  {
    assert [ev][0] == ev;
    if Enabled(s, ev) && (ev.CountPut? || ev.CountGet?) {
      SignalReaches(s, ev, p, c);
    }
  }

  /** The count of one side wakes the other side if it sleeps. */
  lemma SignalReaches<T>(s: System<T>, ev: Event<T>, p: nat, c: nat)
    requires InRole(s, p, c) && Enabled(s, ev) && (ev.CountPut? || ev.CountGet?)
    ensures !SleepsToPut(At(Step(s, ev), p)) && !SleepsToGet(At(Step(s, ev), c))
  {
    assert At(s, ev.tid).HasPut? ==> ev.tid == p;
    assert At(s, ev.tid).HasGot? ==> ev.tid == c;
    assert p in s.threads ==> s.threads[p] == At(s, p);
    assert c in s.threads ==> s.threads[c] == At(s, c);
    assert SleepsToGet(At(s, ev.wake)) ==> ev.wake == c;
    assert SleepsToPut(At(s, ev.wake)) ==> ev.wake == p;
  }

  lemma {:induction false} AlwaysSleepsRightly<T>(memory: seq<T>, evs: seq<Event<T>>, p: nat, c: nat)
    requires Roles(evs, p, c)
    ensures SleepsRightly(Run(Initial(memory), evs), p, c)
    decreases |evs|
  {
    if evs != [] {
      RolesKept(memory, evs[..|evs| - 1], p, c);
      AlwaysSleepsRightly(memory, evs[..|evs| - 1], p, c);
      StepSleepsRightly(Run(Initial(memory), evs[..|evs| - 1]), evs[|evs| - 1], p, c);
    }
  }

  /** A thread that is not asleep unsignalled can take its next step. */
  lemma AwakeCanStep<T>(s: System<T>, tid: nat, e: T)
    requires Accounted(s) && s.q.capacity > 0
    requires !SleepsToPut(At(s, tid)) && !SleepsToGet(At(s, tid))
    ensures exists ev: Event<T> :: ev.tid == tid && Enabled(s, ev)
  {
    match At(s, tid)
    case Idle => assert Enabled(s, Enqueue(tid, e));
    case Offering(_) => assert Enabled(s, CheckPut(tid));
    case PutAsleep(_, _) => assert Enabled(s, CheckPut(tid));
    case Putting(_) => assert Enabled(s, Put(tid));
    case HasPut =>
      var w := SomeSleeper(s, SleepsToGet);
      assert Enabled(s, CountPut(tid, w));
    case Wanting => assert Enabled(s, Event<T>.CheckGet(tid));
    case GetAsleep(_) => assert Enabled(s, Event<T>.CheckGet(tid));
    case Getting => assert Enabled(s, Event<T>.Get(tid));
    case HasGot(_) =>
      var w := SomeSleeper(s, SleepsToPut);
      assert Enabled(s, Event<T>.CountGet(tid, w));
  }

  lemma SomeSleeper<T>(s: System<T>, sleeps: Thread<T> -> bool) returns (w: nat)
    ensures SignalFits(s, w, sleeps)
  {
    if t :| t in s.threads && sleeps(s.threads[t]) {
      w := t;
    } else {
      w := 0;
    }
  }

  /** No lost wakeup: with one producer and one consumer one of the two can always go on. */
  lemma NeverBothStuck<T>(memory: seq<T>, evs: seq<Event<T>>, p: nat, c: nat, e: T)
    requires 0 < |memory| < SIZE_T_RANGE && Roles(evs, p, c)
    ensures var s := Run(Initial(memory), evs);
            exists ev: Event<T> :: Enabled(s, ev)
              && ((ev.tid == p && !SleepsToPut(At(s, p))) || (ev.tid == c && !SleepsToGet(At(s, c))))
  {
    var s := Run(Initial(memory), evs);
    AlwaysSleepsRightly(memory, evs, p, c);
    RolesKept(memory, evs, p, c);
    AlwaysAccounted(memory, evs);
    CapacityKept(memory, evs);
    AwakeCanStep(s, if SleepsToPut(At(s, p)) then c else p, e);
  }

  lemma {:induction false} CapacityKept<T>(memory: seq<T>, evs: seq<Event<T>>)
    ensures Run(Initial(memory), evs).q.capacity == |memory|
    decreases |evs|
  {
    if evs != [] {
      CapacityKept(memory, evs[..|evs| - 1]);
      var s, ev := Run(Initial(memory), evs[..|evs| - 1]), evs[|evs| - 1];
      if Enabled(s, ev) {
        StepHistory(s, ev);
      }
    }
  }

  // ---------- Any number of threads ----------

  predicate WokenToPut<T>(t: Thread<T>) { t.PutAsleep? && t.woken }

  predicate WokenToGet<T>(t: Thread<T>) { t.GetAsleep? && t.woken }

  /** Producers signalled, or past their check and not counted yet. */
  ghost function PutsComing<T>(s: System<T>): nat {
    |Those(s.threads, WokenToPut)| + Putters(s) + Counters(s)
  }

  /** Consumers signalled, or past their check and not counted yet. */
  ghost function GetsComing<T>(s: System<T>): nat {
    |Those(s.threads, WokenToGet)| + Getters(s) + Returners(s)
  }

  /** While a consumer sleeps unsignalled, for every element counted another one is on its way; so for free slots and producers. */
  ghost predicate NobodyLeftBehind<T>(s: System<T>) {
    && (Unsignalled(s, SleepsToGet) > 0 ==> Balance(s) <= GetsComing(s))
    && (Unsignalled(s, SleepsToPut) > 0 ==> s.q.capacity - Balance(s) <= PutsComing(s))
  }

  /** A step that is not a count moves its own thread only. */
  lemma StepThose<T>(s: System<T>, ev: Event<T>, p: Thread<T> -> bool)
    requires Enabled(s, ev) && !ev.CountPut? && !ev.CountGet? && !p(Idle)
    ensures |Those(Step(s, ev).threads, p)|
         == |Those(s.threads, p)| - (if p(At(s, ev.tid)) then 1 else 0) + (if p(At(Step(s, ev), ev.tid)) then 1 else 0)
  {
    ThoseMoved(s.threads, ev.tid, At(Step(s, ev), ev.tid), p);
  }

  lemma CountPutWakes<T>(s: System<T>, ev: Event<T>)
    requires Enabled(s, ev) && ev.CountPut?
    ensures var s' := Step(s, ev);
            && Unsignalled(s', SleepsToPut) == Unsignalled(s, SleepsToPut)
            && |Those(s'.threads, WokenToPut)| == |Those(s.threads, WokenToPut)|
            && |Those(s'.threads, WokenToGet)|
               == |Those(s.threads, WokenToGet)| + if Unsignalled(s, SleepsToGet) > 0 then 1 else 0
  {
    var w := ev.wake;
    NobodySleeps(s, w, SleepsToGet);
    var s1 := if SleepsToGet(At(s, w)) then Wake(s, w) else s;
    ThoseMoved(s.threads, w, GetAsleep(true), SleepsToPut);
    ThoseMoved(s.threads, w, GetAsleep(true), WokenToPut);
    ThoseMoved(s.threads, w, GetAsleep(true), WokenToGet);
    ThoseMoved(s1.threads, ev.tid, Idle, SleepsToPut);
    ThoseMoved(s1.threads, ev.tid, Idle, WokenToPut);
    ThoseMoved(s1.threads, ev.tid, Idle, WokenToGet);
  }

  lemma CountGetWakes<T>(s: System<T>, ev: Event<T>)
    requires Enabled(s, ev) && ev.CountGet?
    ensures var s' := Step(s, ev);
            && Unsignalled(s', SleepsToGet) == Unsignalled(s, SleepsToGet)
            && |Those(s'.threads, WokenToGet)| == |Those(s.threads, WokenToGet)|
            && |Those(s'.threads, WokenToPut)|
               == |Those(s.threads, WokenToPut)| + if Unsignalled(s, SleepsToPut) > 0 then 1 else 0
  {
    var w := ev.wake;
    NobodySleeps(s, w, SleepsToPut);
    var s1 := if SleepsToPut(At(s, w)) then Wake(s, w) else s;
    if SleepsToPut(At(s, w)) {
      var woken := PutAsleep(At(s, w).elem, true);
      ThoseMoved(s.threads, w, woken, SleepsToGet);
      ThoseMoved(s.threads, w, woken, WokenToGet);
      ThoseMoved(s.threads, w, woken, WokenToPut);
    }
    ThoseMoved(s1.threads, ev.tid, Idle, SleepsToGet);
    ThoseMoved(s1.threads, ev.tid, Idle, WokenToGet);
    ThoseMoved(s1.threads, ev.tid, Idle, WokenToPut);
  }

  /** Where a step that is not a count leaves its thread. */
  lemma StepLeaves<T>(s: System<T>, ev: Event<T>)
    requires Enabled(s, ev) && !ev.CountPut? && !ev.CountGet?
    ensures var t, t' := At(s, ev.tid), At(Step(s, ev), ev.tid);
            && (SleepsToPut(t') ==> ev.CheckPut? && IsFull(s.q)) && (SleepsToGet(t') ==> ev.CheckGet? && IsEmpty(s.q))
            && !WokenToPut(t') && !WokenToGet(t')
            && (SleepsToPut(t) || WokenToPut(t) ==> ev.CheckPut?) && (SleepsToGet(t) || WokenToGet(t) ==> ev.CheckGet?)
  {
  }

  lemma StepLeavesNobody<T>(s: System<T>, ev: Event<T>)
    requires Accounted(s) && NobodyLeftBehind(s) && Enabled(s, ev)
    requires Balance(s) < SIZE_T_RANGE && s.q.capacity - Balance(s) < SIZE_T_RANGE
    ensures NobodyLeftBehind(Step(s, ev))
  {
    hide Step, Enabled, Putters, Counters, Getters, Returners, Stored, BufferHolds, Those, Balance, NobodyPast;
    StepCounts(s, ev);
    StepBalance(s, ev);
    StepHistory(s, ev);
    if ev.CountPut? {
      CountPutWakes(s, ev);
      SignalledOne(s, ev);
    } else if ev.CountGet? {
      CountGetWakes(s, ev);
      SignalledOne(s, ev);
    } else {
      StepThose(s, ev, SleepsToPut);
      StepThose(s, ev, SleepsToGet);
      StepThose(s, ev, WokenToPut);
      StepThose(s, ev, WokenToGet);
      StepLeaves(s, ev);
    }
  }

  lemma SignalledOne<T>(s: System<T>, ev: Event<T>)
    requires Enabled(s, ev) && (ev.CountPut? || ev.CountGet?)
    ensures ev.CountPut? ==> Unsignalled(Step(s, ev), SleepsToGet)
                             == Unsignalled(s, SleepsToGet) - if Unsignalled(s, SleepsToGet) > 0 then 1 else 0
    ensures ev.CountGet? ==> Unsignalled(Step(s, ev), SleepsToPut)
                             == Unsignalled(s, SleepsToPut) - if Unsignalled(s, SleepsToPut) > 0 then 1 else 0
  {
    if ev.CountPut? {
      CountPutSignals(s, ev.tid, ev.wake);
    } else {
      CountGetSignals(s, ev.tid, ev.wake);
    }
  }

  /**
   No wakeup is lost among any number of threads: while a consumer sleeps unsignalled,
   as many consumers are on their way as there are elements counted; so for producers.
   */
  lemma {:induction false} NeverLeftBehind<T>(memory: seq<T>, evs: seq<Event<T>>)
    requires |memory| + |evs| < SIZE_T_RANGE
    ensures var s := Run(Initial(memory), evs); NobodyLeftBehind(s) && -|evs| <= Balance(s) <= |evs|
    decreases |evs|
  {
    if evs == [] {
      NobodyAtFirst(memory);
    } else {
      hide Step, Enabled, Balance, NobodyLeftBehind;
      var front, ev := Run(Initial(memory), evs[..|evs| - 1]), evs[|evs| - 1];
      NeverLeftBehind(memory, evs[..|evs| - 1]);
      AlwaysAccounted(memory, evs[..|evs| - 1]);
      CapacityKept(memory, evs[..|evs| - 1]);
      if Enabled(front, ev) {
        StepBalance(front, ev);
        StepLeavesNobody(front, ev);
      } else {
        NothingMoves(front, ev);
      }
    }
  }

  lemma NothingMoves<T>(s: System<T>, ev: Event<T>)
    requires !Enabled(s, ev)
    ensures Step(s, ev) == s
  {
  }

  lemma NobodyAtFirst<T>(memory: seq<T>)
    ensures NobodyLeftBehind(Initial(memory)) && Balance(Initial(memory)) == 0
  {
    var none := Initial(memory).threads;
    assert Those(none, SleepsToGet) == {} && Those(none, SleepsToPut) == {};
    assert Those(none, IsHasPut) == {} && Those(none, IsHasGot) == {};
  }
}
