/**
 The steps the broker admits include every run in which registering, creating and removing
 are each done in one go, as they would be if the code kept its locks.
 */
module BrokerAtomic {
  import opened Sizes
  import opened FsSpec
  import opened BrokerModel
  import opened BrokerSafety
  import opened BrokerTheorems

  /** A whole registration, creation or removal, or one step of anything else. */
  datatype Operation =
    | RegisterPublisher(sid: nat) | RegisterSubscriber(sid: nat)
    | CreateBox(sid: nat, name: BoxName) | RemoveBox(sid: nat, name: BoxName)
    | Single(ev: Event)

  function Steps(op: Operation): seq<Event> {
    match op
    case RegisterPublisher(sid) => [FindForPub(sid)] + [RaisePub(sid)]
    case RegisterSubscriber(sid) => [FindForSub(sid)] + [RaiseSub(sid)]
    case CreateBox(sid, n) => [StartCreate(sid, n)] + [CreateOpen(sid)] + [CreateClose(sid)] + [AddBox(sid)]
    case RemoveBox(sid, n) => [StartRemove(sid, n)] + [CheckBox(sid)] + [UnlinkBox(sid)] + [DropBox(sid)]
    case Single(ev) => [ev]
  }

  predicate IsPart(ev: Event) {
    || ev.FindForPub? || ev.RaisePub? || ev.FindForSub? || ev.RaiseSub?
    || ev.StartCreate? || ev.CreateOpen? || ev.CreateClose? || ev.AddBox?
    || ev.StartRemove? || ev.CheckBox? || ev.UnlinkBox? || ev.DropBox?
  }

  function AllSteps(ops: seq<Operation>): seq<Event> {
    if ops == [] then [] else AllSteps(ops[..|ops| - 1]) + Steps(ops[|ops| - 1])
  }

  /** The session is in the middle of an operation. */
  predicate IsInside(s: Session) {
    || s.PubFound? || s.SubFound? || s.CreateFound? || s.CreateOpened? || s.CreateClosed?
    || s.RemoveFound? || IsRemoving(s)
  }

  /** Nobody but session `sid` is in the middle of an operation. */
  ghost predicate QuietBut(b: Broker, sid: nat) {
    forall p | p != sid :: !IsInside(At(b, p))
  }

  ghost predicate Quiet(b: Broker) {
    forall p :: !IsInside(At(b, p))
  }

  /** One more admitted step of the session that is inside. */
  lemma OneMore(evs: seq<Event>, sid: nat, ev: Event)
    requires Guarded(evs) && QuietBut(Run(evs), sid) && ev.sid == sid && Admits(Run(evs), ev)
    ensures Guarded(evs + [ev]) && Run(evs + [ev]) == Step(Run(evs), ev) && QuietBut(Run(evs + [ev]), sid)
  {
    hide Inv, Step, Admits, Run, Guarded, IsInside;
    RunNext(evs, ev);
    StepTells(Run(evs), ev);
  }

  lemma NobodyRemoves(b: Broker, sid: nat, n: BoxName)
    requires QuietBut(b, sid) && !IsRemoving(At(b, sid))
    ensures !BeingRemoved(b.sessions, n)
  {
    forall p | p in b.sessions
      ensures !IsRemoving(b.sessions[p])
    {
      assert At(b, p) == b.sessions[p];
    }
  }

  // ---------- Registering ----------

  lemma FindLeadsTo(b: Broker, sid: nat, ev: Event)
    requires Inv(b) && (ev == FindForPub(sid) || ev == FindForSub(sid)) && !IsInside(At(b, sid))
    ensures Admits(b, ev)
    ensures var b', s' := Step(b, ev), At(Step(b, ev), sid);
            && (s'.PubFound? || s'.SubFound? ==> Present(b', s'.name, s'.id))
            && (s'.PubFound? ==> ev.FindForPub?) && (s'.SubFound? ==> ev.FindForSub?)
            && (IsInside(s') ==> s'.PubFound? || s'.SubFound?)
  {
    hide Inv;
  }

  lemma RaiseLeadsOut(b: Broker, sid: nat, ev: Event)
    requires Inv(b) && (ev == RaisePub(sid) || ev == RaiseSub(sid))
    requires IsInside(At(b, sid)) ==> if ev.RaisePub? then At(b, sid).PubFound? else At(b, sid).SubFound?
    ensures !IsInside(At(Step(b, ev), sid))
  {
    hide Inv;
  }

  lemma RegisterIsAdmitted(evs: seq<Event>, sid: nat, find: Event, raise: Event)
    requires Guarded(evs) && Quiet(Run(evs))
    requires (find == FindForPub(sid) && raise == RaisePub(sid)) || (find == FindForSub(sid) && raise == RaiseSub(sid))
    ensures Guarded(evs + ([find] + [raise])) && Quiet(Run(evs + ([find] + [raise])))
  {
    hide Inv, Step, Run, Guarded, IsInside, BeingRemoved;
    FindLeadsTo(Run(evs), sid, find);
    OneMore(evs, sid, find);
    var evs1 := evs + [find];
    if At(Run(evs1), sid).PubFound? || At(Run(evs1), sid).SubFound? {
      NobodyRemoves(Run(evs1), sid, At(Run(evs1), sid).name);
    }
    OneMore(evs1, sid, raise);
    RaiseLeadsOut(Run(evs1), sid, raise);
    assert evs1 + [raise] == evs + ([find] + [raise]);
    QuietAgain(Run(evs1 + [raise]), sid);
  }

  lemma QuietAgain(b: Broker, sid: nat)
    requires QuietBut(b, sid) && !IsInside(At(b, sid))
    ensures Quiet(b)
  {
    hide IsInside;
  }

  // ---------- Creating ----------

  /** Where a creation that is not disturbed stands after each of its steps. */
  ghost predicate Creates(b: Broker, s: Session) {
    && (IsInside(s) ==> s.CreateFound? || s.CreateOpened? || s.CreateClosed?)
    && (IsInside(s) ==> s.name !in b.table)
    && (s.CreateOpened? || s.CreateClosed? ==> s.name in b.fs.files)
  }

  lemma StartCreateLeadsTo(b: Broker, sid: nat, n: BoxName)
    requires Inv(b) && !IsInside(At(b, sid))
    ensures var b' := Step(b, StartCreate(sid, n));
            Creates(b', At(b', sid)) && (IsInside(At(b', sid)) ==> At(b', sid).CreateFound?)
  {
    hide Inv;
  }

  lemma CreateOpenLeadsTo(b: Broker, sid: nat)
    requires Inv(b) && Creates(b, At(b, sid)) && (IsInside(At(b, sid)) ==> At(b, sid).CreateFound?)
    ensures var b' := Step(b, CreateOpen(sid));
            Creates(b', At(b', sid)) && (IsInside(At(b', sid)) ==> At(b', sid).CreateOpened?)
  {
    hide ContentOk, CountsOk, SizesOk, SessionsOk, TableOk, RemovalsOk, Open;
    if At(b, sid).CreateFound? {
      CreateShape(b.fs, At(b, sid).name);
    }
  }

  lemma CreateCloseLeadsTo(b: Broker, sid: nat)
    requires Inv(b) && Creates(b, At(b, sid)) && (IsInside(At(b, sid)) ==> At(b, sid).CreateOpened?)
    ensures var b' := Step(b, CreateClose(sid));
            Creates(b', At(b', sid)) && (IsInside(At(b', sid)) ==> At(b', sid).CreateClosed?)
  {
    hide Inv;
  }

  lemma AddBoxLeadsOut(b: Broker, sid: nat)
    requires Inv(b) && Creates(b, At(b, sid)) && (IsInside(At(b, sid)) ==> At(b, sid).CreateClosed?)
    ensures Admits(b, AddBox(sid)) && !IsInside(At(Step(b, AddBox(sid)), sid))
  {
    hide Inv, Unlinked;
  }

  lemma CreateIsAdmitted(evs: seq<Event>, sid: nat, n: BoxName)
    requires Guarded(evs) && Quiet(Run(evs))
    ensures var all := evs + Steps(CreateBox(sid, n)); Guarded(all) && Quiet(Run(all))
  {
    hide Inv, Step, Run, Guarded, IsInside, Creates, Unlinked, BeingRemoved;
    StartCreateLeadsTo(Run(evs), sid, n);
    OneMore(evs, sid, StartCreate(sid, n));
    var evs1 := evs + [StartCreate(sid, n)];
    CreateOpenLeadsTo(Run(evs1), sid);
    OneMore(evs1, sid, CreateOpen(sid));
    var evs2 := evs1 + [CreateOpen(sid)];
    CreateCloseLeadsTo(Run(evs2), sid);
    OneMore(evs2, sid, CreateClose(sid));
    var evs3 := evs2 + [CreateClose(sid)];
    AddBoxLeadsOut(Run(evs3), sid);
    OneMore(evs3, sid, AddBox(sid));
    assert evs3 + [AddBox(sid)] == evs + Steps(CreateBox(sid, n));
    QuietAgain(Run(evs3 + [AddBox(sid)]), sid);
  }

  // ---------- Removing ----------

  lemma StartRemoveLeadsTo(b: Broker, sid: nat, n: BoxName)
    requires Inv(b) && !IsInside(At(b, sid))
    ensures var b', s' := Step(b, StartRemove(sid, n)), At(Step(b, StartRemove(sid, n)), sid);
            && (IsInside(s') ==> s'.RemoveFound? && Present(b', s'.name, s'.id)) && Admits(b', CheckBox(sid))
  {
    hide Inv;
  }

  lemma CheckBoxLeadsTo(b: Broker, sid: nat)
    requires Inv(b) && Admits(b, CheckBox(sid)) && (IsInside(At(b, sid)) ==> At(b, sid).RemoveFound?)
    ensures var s' := At(Step(b, CheckBox(sid)), sid); IsInside(s') ==> s'.RemoveChecked?
  {
    hide Inv;
  }

  lemma UnlinkBoxLeadsTo(b: Broker, sid: nat)
    requires Inv(b) && (IsInside(At(b, sid)) ==> At(b, sid).RemoveChecked?)
    ensures var s' := At(Step(b, UnlinkBox(sid)), sid); IsInside(s') ==> s'.RemoveUnlinked?
  {
    hide Inv, Unlink;
  }

  lemma DropBoxLeadsOut(b: Broker, sid: nat)
    requires Inv(b) && (IsInside(At(b, sid)) ==> At(b, sid).RemoveUnlinked?)
    ensures !IsInside(At(Step(b, DropBox(sid)), sid))
  {
    hide Inv;
  }

  lemma RemoveIsAdmitted(evs: seq<Event>, sid: nat, n: BoxName)
    requires Guarded(evs) && Quiet(Run(evs))
    ensures var all := evs + Steps(RemoveBox(sid, n)); Guarded(all) && Quiet(Run(all))
  {
    hide Inv, Step, Run, Guarded, IsInside, Unlinked, BeingRemoved;
    StartRemoveLeadsTo(Run(evs), sid, n);
    OneMore(evs, sid, StartRemove(sid, n));
    var evs1 := evs + [StartRemove(sid, n)];
    CheckBoxLeadsTo(Run(evs1), sid);
    OneMore(evs1, sid, CheckBox(sid));
    var evs2 := evs1 + [CheckBox(sid)];
    UnlinkBoxLeadsTo(Run(evs2), sid);
    OneMore(evs2, sid, UnlinkBox(sid));
    var evs3 := evs2 + [UnlinkBox(sid)];
    DropBoxLeadsOut(Run(evs3), sid);
    OneMore(evs3, sid, DropBox(sid));
    assert evs3 + [DropBox(sid)] == evs + Steps(RemoveBox(sid, n));
    QuietAgain(Run(evs3 + [DropBox(sid)]), sid);
  }

  // ---------- Whole runs ----------

  lemma SingleStaysOut(b: Broker, ev: Event)
    requires Inv(b) && !IsPart(ev) && !IsInside(At(b, ev.sid))
    ensures Admits(b, ev) && !IsInside(At(Step(b, ev), ev.sid))
  {
    hide Inv, Open, Close, StepReceive, StepReadSub;
    match ev
    case Receive(sid, input) => if At(b, sid).PubReady? { ReceiveStaysOut(b, sid, input); }
    case ReadSub(sid) => if At(b, sid).SubReady? { ReadStaysOut(b, sid); }
    case _ =>
  }

  lemma ReceiveStaysOut(b: Broker, sid: nat, input: PipeInput)
    requires Inv(b) && At(b, sid).PubReady?
    ensures !IsInside(At(StepReceive(b, sid, input), sid))
  {
    hide Inv, Write;
  }

  lemma ReadStaysOut(b: Broker, sid: nat)
    requires Inv(b) && At(b, sid).SubReady?
    ensures !IsInside(At(StepReadSub(b, sid), sid))
  {
    hide Inv, Read;
  }

  predicate IsWhole(op: Operation) {
    op.Single? ==> !IsPart(op.ev)
  }

  lemma OperationIsAdmitted(evs: seq<Event>, op: Operation)
    requires Guarded(evs) && Quiet(Run(evs)) && IsWhole(op)
    ensures Guarded(evs + Steps(op)) && Quiet(Run(evs + Steps(op)))
  {
    hide Inv, Step, Run, Guarded, Quiet, IsInside, IsPart, Admits;
    match op {
      case RegisterPublisher(sid) => RegisterIsAdmitted(evs, sid, FindForPub(sid), RaisePub(sid));
      case RegisterSubscriber(sid) => RegisterIsAdmitted(evs, sid, FindForSub(sid), RaiseSub(sid));
      case CreateBox(sid, n) => CreateIsAdmitted(evs, sid, n);
      case RemoveBox(sid, n) => RemoveIsAdmitted(evs, sid, n);
      case Single(ev) => SingleIsAdmitted(evs, ev);
    }
  }

  lemma SingleIsAdmitted(evs: seq<Event>, ev: Event)
    requires Guarded(evs) && Quiet(Run(evs)) && !IsPart(ev)
    ensures Guarded(evs + [ev]) && Quiet(Run(evs + [ev]))
  {
    hide Inv, Step, Run, Guarded, IsInside, IsPart, Admits;
    SingleStaysOut(Run(evs), ev);
    OneMore(evs, ev.sid, ev);
    QuietAgain(Run(evs + [ev]), ev.sid);
  }

  lemma StartsQuiet()
    ensures Guarded([]) && Quiet(Run([]))
  {
    hide Inv, Step;
  }

  /** Every run of whole operations, in any order and by any sessions, is one the broker admits. */
  lemma {:induction false} AtomicRunsAreAdmitted(ops: seq<Operation>)
    requires forall i | 0 <= i < |ops| :: IsWhole(ops[i])
    ensures Guarded(AllSteps(ops)) && Quiet(Run(AllSteps(ops)))
    decreases |ops|
  {
    hide Run, Guarded, Quiet, Steps, IsWhole;
    if ops == [] {
      StartsQuiet();
    } else {
      AtomicRunsAreAdmitted(ops[..|ops| - 1]);
      OperationIsAdmitted(AllSteps(ops[..|ops| - 1]), ops[|ops| - 1]);
    }
  }
}
