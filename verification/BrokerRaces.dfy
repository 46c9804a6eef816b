/**
 What the broker's unprotected steps lead to: exactly the steps it admits leave every live
 session its box, its file and its handle, however the removals under way go on.
 */
module BrokerRaces {
  import opened FsSpec
  import opened Sizes
  import opened Boxes
  import opened BrokerModel
  import opened BrokerSafety
  import opened BrokerTheorems

  // ---------- What a session can lose ----------

  /** A live session has its box, the box's file, and a handle that still has the file. */
  ghost predicate HasItsOwn(b: Broker, s: Session) {
    && !s.Astray?
    && (IsLivePub(s) || IsLiveSub(s) ==> Present(b, s.name, s.id) && s.name in b.fs.files)
    && (NeedsHandle(s) ==> IsLive(b.fs, s.fd) && b.fs.handles[s.fd].name == s.name)
  }

  /**
   Nothing is lost: no session used a freed box or added a second box of a name, every live
   one has its own, and every box that is not on its way out has a file.
   */
  ghost predicate Intact(b: Broker) {
    && (forall sid | sid in b.sessions :: HasItsOwn(b, b.sessions[sid]))
    && (forall n | n in b.table && !Unlinked(b.sessions, n) :: n in b.fs.files)
  }

  /** The next step of a removal that is past its check. */
  ghost function RemoveStep(b: Broker, m: nat): Broker {
    match At(b, m)
    case RemoveChecked(n) => StepUnlinkBox(b, m, n)
    case RemoveUnlinked(n) => StepDropBox(b, m, n)
    case _ => b
  }

  /** Nothing is lost while the removals go on, the managers `ms` stepping in that order. */
  ghost predicate SoundRemovals(b: Broker, ms: seq<nat>)
    decreases |ms|
  {
    Intact(b) && (ms == [] || SoundRemovals(RemoveStep(b, ms[0]), ms[1..]))
  }

  lemma InvIsIntact(b: Broker)
    requires Inv(b)
    ensures Intact(b)
  {
    hide Inv, SessionOk, BeingRemoved, Unlinked, Flat, Log;
    forall sid | sid in b.sessions
      ensures HasItsOwn(b, b.sessions[sid])
    {
      SessionHasItsOwn(b, sid);
    }
    forall n | n in b.table && !Unlinked(b.sessions, n)
      ensures n in b.fs.files
    {
      BoxFacts(b, n);
    }
  }

  lemma SessionHasItsOwn(b: Broker, sid: nat)
    requires Inv(b) && sid in b.sessions
    ensures HasItsOwn(b, b.sessions[sid])
  {
    hide Inv, BeingRemoved, Unlinked, Flat, Log;
    assert At(b, sid) == b.sessions[sid];
    AtOk(b, sid);
    if IsLivePub(At(b, sid)) || IsLiveSub(At(b, sid)) {
      LiveFacts(b, sid);
    }
  }

  lemma RemoveStepKeeps(b: Broker, m: nat)
    requires Inv(b)
    ensures Inv(RemoveStep(b, m))
  {
    hide Inv;
    match At(b, m)
    case RemoveChecked(n) => UnlinkBoxKeeps(b, m);
    case RemoveUnlinked(n) => DropBoxKeeps(b, m);
    case _ =>
  }

  /** Under the invariant no removal takes anything from anyone. */
  lemma {:induction false} InvIsSound(b: Broker, ms: seq<nat>)
    requires Inv(b)
    ensures SoundRemovals(b, ms)
    decreases |ms|
  {
    hide Inv, Intact, RemoveStep;
    InvIsIntact(b);
    if ms != [] {
      RemoveStepKeeps(b, ms[0]);
      InvIsSound(RemoveStep(b, ms[0]), ms[1..]);
    }
  }

  /** A live session on a name that is being removed loses its box or its file. */
  lemma RemovalTakes(b: Broker, sid: nat, m: nat)
    requires sid in b.sessions && (IsLivePub(At(b, sid)) || IsLiveSub(At(b, sid)))
    requires IsRemoving(At(b, m)) && At(b, m).name == At(b, sid).name != []
    ensures !SoundRemovals(b, [m])
  {
    hide Unlink, Unlinked;
    var n := At(b, m).name;
    UnlinkShape(b.fs, n);
    var b' := RemoveStep(b, m);
    assert [m][1..] == [];
    assert b.sessions[sid] == At(b, sid) && sid in b'.sessions;
    if n in b.fs.files {
      assert b'.sessions[sid] == At(b, sid);
      assert !HasItsOwn(b', b'.sessions[sid]);
    } else {
      assert !HasItsOwn(b, b.sessions[sid]);
    }
    assert SoundRemovals(b, [m]) ==> Intact(b) && SoundRemovals(b', []);
  }

  /** A step that is not admitted lets something be lost, at once or by a removal under way. */
  lemma RefusedStepLoses(b: Broker, ev: Event) returns (ms: seq<nat>)
    requires Inv(b) && !Admits(b, ev)
    ensures !SoundRemovals(Step(b, ev), ms)
  {
    hide Inv, SoundRemovals, Unlinked;
    var sid, b' := ev.sid, Step(b, ev);
    var n := At(b, sid).name;
    assert sid in b.sessions && sid in b'.sessions;
    if At(b', sid).Astray? || ev.AddBox? {
      ms := [];
      LostAtOnce(b, ev);
    } else {
      var m :| m in b.sessions && IsRemoving(b.sessions[m]) && b.sessions[m].name == n;
      assert At(b', m) == b.sessions[m];
      ms := [m];
      BoxFacts(b, n);
      RemovalTakes(b', sid, m);
    }
  }

  lemma LostAtOnce(b: Broker, ev: Event)
    requires Inv(b) && !Admits(b, ev) && (At(Step(b, ev), ev.sid).Astray? || ev.AddBox?)
    ensures !SoundRemovals(Step(b, ev), [])
  {
    hide Inv, Unlinked, BeingRemoved;
    var sid, b' := ev.sid, Step(b, ev);
    assert sid in b.sessions && sid in b'.sessions;
    if At(b', sid).Astray? {
      assert !HasItsOwn(b', b'.sessions[sid]);
    } else {
      RemovalsMoved(b.sessions, sid, b'.sessions[sid], At(b, sid).name);
    }
  }

  /**
   After a step the removals under way go on without loss in every order exactly if the
   step is admitted; so nothing weaker than `Admits` keeps the invariant.
   */
  lemma StepSoundExactly(b: Broker, ev: Event)
    requires Inv(b)
    ensures (forall ms :: SoundRemovals(Step(b, ev), ms)) <==> Admits(b, ev)
    ensures Inv(Step(b, ev)) <==> Admits(b, ev)
  {
    hide Inv, SoundRemovals, Step, Admits;
    if Admits(b, ev) {
      StepKeepsInv(b, ev);
      forall ms
        ensures SoundRemovals(Step(b, ev), ms)
      {
        InvIsSound(Step(b, ev), ms);
      }
    } else {
      var ms := RefusedStepLoses(b, ev);
      if Inv(Step(b, ev)) {
        InvIsSound(Step(b, ev), ms);
      }
    }
  }

  // ---------- The race between a registration and a removal ----------

  /** The registration of a session that has found its box. */
  function Raise(b: Broker, sid: nat): Broker {
    match At(b, sid)
    case PubFound(n, id) => StepRaisePub(b, sid, n, id)
    case SubFound(n, id) => StepRaiseSub(b, sid, n, id)
    case _ => b
  }

  /**
   A client registers after a manager's check and before its box_remove: in the end the
   manager is told that the box is gone, and the client is registered with a freed box.
   */
  lemma RegistrationRaceLosesBox(b: Broker, m: nat, sid: nat)
    requires Inv(b) && IsRemoving(At(b, m)) && (At(b, sid).PubFound? || At(b, sid).SubFound?)
    requires At(b, sid).name == At(b, m).name && Present(b, At(b, sid).name, At(b, sid).id)
    requires At(b, m).RemoveChecked? ==> !Unlinked(b.sessions, At(b, m).name)
    ensures var n := At(b, m).name;
            var b1 := Raise(b, sid);
            var b3 := RemoveStep(RemoveStep(b1, m), m);
            && (IsLivePub(At(b1, sid)) || IsLiveSub(At(b1, sid))) && Present(b1, n, At(b, sid).id)
            && At(b3, sid) == At(b1, sid) && n !in b3.table && At(b3, m) == Answered(Code(0))
  {
    hide Inv, Unlink, BeingRemoved, Unlinked, Flat, Log;
    IsBeingRemoved(b.sessions, m);
    BoxFacts(b, At(b, sid).name);
    UnlinkShape(b.fs, At(b, sid).name);
  }

  /** If it also opened the file before tfs_unlink, its handle has lost the file. */
  lemma RegistrationRaceLosesHandle(b: Broker, m: nat, sid: nat)
    requires Inv(b) && At(b, m).RemoveChecked? && At(b, sid).PubFound? && At(b, sid).name == At(b, m).name
    requires Present(b, At(b, sid).name, At(b, sid).id) && At(b, sid).name in b.fs.files
    ensures var PubFound(n, id) := At(b, sid);
            var b1 := StepRaisePub(b, sid, n, id);
            var b2 := StepOpenPub(b1, sid, n, id);
            var b3 := StepUnlinkBox(b2, m, n);
            At(b2, sid).PubReady? ==>
              At(b3, sid) == At(b2, sid) && At(b3, sid).fd in b3.fs.handles && b3.fs.handles[At(b3, sid).fd] == Stale
  {
    hide ContentOk, CountsOk, SizesOk, SessionsOk, TableOk, RemovalsOk, Unlink, Open, BeingRemoved, Flat, Log;
    var PubFound(n, id) := At(b, sid);
    OpenShape(b.fs, n, true);
    var (fs, fd) := Open(PARAMS, b.fs, PathOf(n), APPEND);
    UnlinkShape(fs, n);
    BoxFacts(b, n);
  }

  /** Managers 0 and 2 and publisher 1, one after the other; 2 checks while 1 has found the box and not registered. */
  function RaceEvents(n: BoxName): seq<Event> {
    [StartCreate(0, n), CreateOpen(0), CreateClose(0), AddBox(0),
     StartPublisher(1, n), FindForPub(1), StartRemove(2, n), CheckBox(2)]
  }

  function RaceState(n: BoxName): Broker {
    BoxMade(n).(sessions := map[0 := Answered(Code(0)), 1 := PubFound(n, 0), 2 := RemoveChecked(n)])
  }

  function BoxMade(n: BoxName): Broker {
    Broker(Fs(map[n := []], map[]), map[n := BoxState(0, 0, 0, 0)], map[0 := Answered(Code(0))], map[0 := []], 1)
  }

  /** The race is reached from the start by steps the broker admits. */
  lemma RaceArises(n: BoxName)
    requires n != []
    ensures Guarded(RaceEvents(n)) && Run(RaceEvents(n)) == RaceState(n)
    ensures var b := RaceState(n);
            At(b, 2) == RemoveChecked(n) && At(b, 1) == PubFound(n, 0) && Present(b, n, 0) && n in b.fs.files
  {
    hide Inv, Step, Admits, Run, Guarded;
    var evs := RaceEvents(n);
    BoxArises(n);
    assert evs[..4] + [evs[4]] == evs[..5] && evs[..5] + [evs[5]] == evs[..6];
    assert evs[..6] + [evs[6]] == evs[..7] && evs[..7] + [evs[7]] == evs[..8] == evs;
    PublisherStarts(n);
    RunNext(evs[..4], evs[4]);
    PublisherFinds(n);
    RunNext(evs[..5], evs[5]);
    RemoverStarts(n);
    RunNext(evs[..6], evs[6]);
    RemoverChecks(n);
    RunNext(evs[..7], evs[7]);
  }

  lemma BoxArises(n: BoxName)
    requires n != []
    ensures Guarded(RaceEvents(n)[..4]) && Run(RaceEvents(n)[..4]) == BoxMade(n)
  {
    hide Inv, Step, Admits;
    var evs := RaceEvents(n);
    assert evs[..0] == [];
    assert evs[..0] + [evs[0]] == evs[..1] && evs[..1] + [evs[1]] == evs[..2];
    assert evs[..2] + [evs[2]] == evs[..3] && evs[..3] + [evs[3]] == evs[..4];
    CreatorStarts(n);
    RunNext(evs[..0], evs[0]);
    CreatorOpens(n);
    RunNext(evs[..1], evs[1]);
    CreatorCloses(n);
    RunNext(evs[..2], evs[2]);
    CreatorAdds(n);
    RunNext(evs[..3], evs[3]);
  }

  function Creating(s: Session, fs: Fs): Broker {
    Initial().(sessions := map[0 := s], fs := fs)
  }

  lemma CreatorStarts(n: BoxName)
    ensures Admits(Initial(), StartCreate(0, n))
    ensures Inv(Initial()) ==> Step(Initial(), StartCreate(0, n)) == Creating(CreateFound(n), Fs(map[], map[]))
  {
    hide Inv;
  }

  lemma CreatorOpens(n: BoxName)
    requires n != []
    ensures var b := Creating(CreateFound(n), Fs(map[], map[]));
            && Admits(b, CreateOpen(0))
            && (Inv(b) ==>
                  Step(b, CreateOpen(0)) == Creating(CreateOpened(n, 0), Fs(map[n := []], map[0 := Live(n, 0)])))
  {
    hide Inv;
    PathIs(n);
  }

  lemma CreatorCloses(n: BoxName)
    ensures var b := Creating(CreateOpened(n, 0), Fs(map[n := []], map[0 := Live(n, 0)]));
            && Admits(b, CreateClose(0))
            && (Inv(b) ==> Step(b, CreateClose(0)) == Creating(CreateClosed(n), Fs(map[n := []], map[])))
  {
    hide Inv;
    var handles: map<int, Handle> := map[0 := Live(n, 0)];
    assert handles - {0} == map[];
  }

  lemma CreatorAdds(n: BoxName)
    ensures var b := Creating(CreateClosed(n), Fs(map[n := []], map[]));
            Admits(b, AddBox(0)) && (Inv(b) ==> Step(b, AddBox(0)) == BoxMade(n))
  {
    hide Inv;
  }

  lemma PublisherStarts(n: BoxName)
    ensures var b, s := BoxMade(n), map[0 := Answered(Code(0)), 1 := PubStarting(n)];
            Admits(b, StartPublisher(1, n)) && (Inv(b) ==> Step(b, StartPublisher(1, n)) == b.(sessions := s))
  {
    hide Inv;
  }

  lemma PublisherFinds(n: BoxName)
    ensures var b := BoxMade(n).(sessions := map[0 := Answered(Code(0)), 1 := PubStarting(n)]);
            var s := map[0 := Answered(Code(0)), 1 := PubFound(n, 0)];
            Admits(b, FindForPub(1)) && (Inv(b) ==> Step(b, FindForPub(1)) == b.(sessions := s))
  {
    hide Inv;
  }

  lemma RemoverStarts(n: BoxName)
    ensures var b := BoxMade(n).(sessions := map[0 := Answered(Code(0)), 1 := PubFound(n, 0)]);
            var s := map[0 := Answered(Code(0)), 1 := PubFound(n, 0), 2 := RemoveFound(n, 0)];
            Admits(b, StartRemove(2, n)) && (Inv(b) ==> Step(b, StartRemove(2, n)) == b.(sessions := s))
  {
    hide Inv;
  }

  lemma RemoverChecks(n: BoxName)
    ensures var b := BoxMade(n).(sessions := map[0 := Answered(Code(0)), 1 := PubFound(n, 0), 2 := RemoveFound(n, 0)]);
            Admits(b, CheckBox(2)) && (Inv(b) ==> Step(b, CheckBox(2)) == RaceState(n))
  {
    hide Inv;
  }
}
