/**
 What holds in every state the broker can reach by steps it admits, whatever its clients
 do and in whatever order; and what happens when it does not turn a step away.
 */
module BrokerTheorems {
  import opened FsSpec
  import opened Sizes
  import opened FsLaws
  import opened BrokerModel
  import opened BrokerSafety

  lemma InitialInv()
    ensures Inv(Initial())
  {
    var b := Initial();
    assert NonEmpty(b.fs.files) == {};
  }

  /** A sequence of steps each of which the broker admits. */
  ghost predicate Guarded(evs: seq<Event>)
    decreases |evs|, 0
  {
    evs == [] || (Guarded(evs[..|evs| - 1]) && Admits(Run(evs[..|evs| - 1]), evs[|evs| - 1]))
  }

  /** The state after such a sequence; it satisfies the invariant. */
  ghost function Run(evs: seq<Event>): (b: Broker)
    requires Guarded(evs)
    ensures Inv(b)
    decreases |evs|, 1
  {
    if evs == [] then InitialInv(); Initial()
    else
      var b := Run(evs[..|evs| - 1]);
      StepKeepsInv(b, evs[|evs| - 1]);
      Step(b, evs[|evs| - 1])
  }

  lemma RunNext(evs: seq<Event>, ev: Event)
    requires Guarded(evs) && Admits(Run(evs), ev)
    ensures Guarded(evs + [ev]) && Run(evs + [ev]) == Step(Run(evs), ev)
  {
    hide Inv, Admits, Step;
    assert (evs + [ev])[..|evs|] == evs;
  }

  // ---------- End to end ----------

  /** What the subscriber of a session has delivered, and the box it came from. */
  predicate IsSubscriber(s: Session) {
    s.SubReady? || s.SubSending? || s.SubLeaving? || s.SubClosing? || s.SubEnded?
  }

  /**
   After every run of admitted steps each subscriber has delivered a prefix of the messages its
   box's publishers sent, whole and in order; they are the first hundred.
   */
  lemma DeliveredIsPrefix(evs: seq<Event>, sid: nat)
    requires Guarded(evs)
    ensures var b := Run(evs);
            var s := At(b, sid);
            IsSubscriber(s) ==>
              s.id in b.sent && s.got <= Log(b.sent[s.id]) <= b.sent[s.id] && |Log(b.sent[s.id])| <= LOG_LEN
  {
    hide Inv, Run, Guarded;
    var b := Run(evs);
    AtOk(b, sid);
    var s := At(b, sid);
    if s.SubSending? {
      assert s.got <= s.got + [s.response];
    }
  }

  /** What has been delivered stays delivered, and the history of a box only grows. */
  lemma HistoryGrows(evs: seq<Event>, ev: Event, id: nat)
    requires Guarded(evs + [ev]) && Guarded(evs) && id in Run(evs).sent
    ensures id in Run(evs + [ev]).sent && Run(evs).sent[id] <= Run(evs + [ev]).sent[id]
  {
    hide Inv, SessionOk, Admits;
    assert (evs + [ev])[..|evs|] == evs;
    StepSent(Run(evs), ev, id);
  }

  lemma NextIdIsNew(b: Broker)
    requires Inv(b)
    ensures b.nextId !in b.sent
  {
    hide Consistent, ContentOk, CountsOk, SizesOk, SessionsOk, RemovalsOk;
  }

  lemma StepSent(b: Broker, ev: Event, id: nat)
    requires Inv(b) && id in b.sent
    ensures id in Step(b, ev).sent && b.sent[id] <= Step(b, ev).sent[id]
  {
    hide Inv, StepReceive, Open, Close, Read, Unlink, BeingRemoved;
    match ev
    case Receive(sid, input) => if At(b, sid).PubReady? { ReceiveSent(b, sid, input, id); }
    case AddBox(_) => NextIdIsNew(b);
    case _ =>
  }

  lemma ReceiveSent(b: Broker, sid: nat, input: PipeInput, id: nat)
    requires Inv(b) && id in b.sent && At(b, sid).PubReady?
    ensures id in StepReceive(b, sid, input).sent && b.sent[id] <= StepReceive(b, sid, input).sent[id]
  {
    hide Inv, Write;
  }

  // ---------- Sessions and counters ----------

  /**
   At most one live publisher per box, counted by pub_num; live subscribers are counted by
   sub_num; a live session's box is in the table, is not being removed and has its file.
   */
  lemma LiveSessionsAreCounted(evs: seq<Event>, n: BoxName)
    requires Guarded(evs)
    ensures var b := Run(evs);
            && (n in b.table ==>
                  && |LivePubs(b.sessions, n)| <= b.table[n].pubNum <= 1
                  && |LiveSubs(b.sessions, n)| <= b.table[n].subNum)
            && (forall sid | PubOn(At(b, sid), n) || SubOn(At(b, sid), n) ::
                  Present(b, n, At(b, sid).id) && !BeingRemoved(b.sessions, n) && n in b.fs.files)
  {
    hide Inv, Run, Guarded, LivePubs, LiveSubs, BeingRemoved, Unlinked, Flat, Log;
    var b := Run(evs);
    if n in b.table {
      BoxFacts(b, n);
    }
    forall sid | PubOn(At(b, sid), n) || SubOn(At(b, sid), n)
      ensures Present(b, n, At(b, sid).id) && !BeingRemoved(b.sessions, n) && n in b.fs.files
    {
      LiveFacts(b, sid);
    }
  }

  /** No step of a removal takes the box, the file or the handle from a session that may still use it. */
  lemma RemovalIsSafe(evs: seq<Event>, m: nat, sid: nat)
    requires Guarded(evs) && (At(Run(evs), m).RemoveChecked? || At(Run(evs), m).RemoveUnlinked?)
    ensures KeepsItsHandle(Run(evs), Step(Run(evs), UnlinkBox(m)), At(Run(evs), m).name, sid)
    ensures KeepsItsHandle(Run(evs), Step(Run(evs), DropBox(m)), At(Run(evs), m).name, sid)
  {
    hide Inv, Run, Guarded, KeepsItsHandle, Step;
    RemovalTakesNothing(Run(evs), m, sid, UnlinkBox(m));
    RemovalTakesNothing(Run(evs), m, sid, DropBox(m));
  }

  predicate KeepsItsHandle(b: Broker, b': Broker, n: BoxName, sid: nat) {
    var s := At(b, sid);
    && !PubOn(s, n) && !SubOn(s, n)
    && (IsLivePub(s) || IsLiveSub(s) ==> Present(b', s.name, s.id))
    && (NeedsHandle(s) ==> s.fd in b.fs.handles && s.fd in b'.fs.handles && b'.fs.handles[s.fd] == b.fs.handles[s.fd])
  }

  lemma RemovalTakesNothing(b: Broker, m: nat, sid: nat, ev: Event)
    requires Inv(b) && (At(b, m).RemoveChecked? || At(b, m).RemoveUnlinked?) && (ev == UnlinkBox(m) || ev == DropBox(m))
    ensures KeepsItsHandle(b, Step(b, ev), At(b, m).name, sid)
  {
    hide Inv, SessionOk, Unlink, NeedsHandle, DropHandles, BeingRemoved;
    var n := At(b, m).name;
    IsBeingRemoved(b.sessions, m);
    AtOk(b, sid);
    UnlinkShape(b.fs, n);
    if sid in b.sessions {
      RemovedIsUnused(b, n, sid);
      assert At(b, sid) == b.sessions[sid];
    }
    OtherBoxKeepsHandle(b, At(b, sid), n);
  }

  lemma UnlinkShape(fs: Fs, n: BoxName)
    ensures Unlink(fs, PathOf(n))
         == if n != [] && n in fs.files then (Fs(fs.files - {n}, DropHandles(fs.handles, n)), 0) else (fs, -1)
  {
    PathIs(n);
  }

  lemma OtherBoxKeepsHandle(b: Broker, s: Session, n: BoxName)
    requires SessionOk(b, s) && !PubOn(s, n) && !SubOn(s, n)
    ensures NeedsHandle(s) ==>
              s.fd in b.fs.handles && s.fd in DropHandles(b.fs.handles, n)
              && DropHandles(b.fs.handles, n)[s.fd] == b.fs.handles[s.fd]
    ensures IsLivePub(s) || IsLiveSub(s) ==> s.name != n && Present(b, s.name, s.id)
  {
  }

  // ---------- Files, logs and sizes ----------

  /**
   A publisher always writes at the end of its file, and the box's size field plus what
   was written and not yet counted is the size of the file, a whole number of messages.
   */
  lemma PublisherAppends(evs: seq<Event>, sid: nat)
    requires Guarded(evs) && (At(Run(evs), sid).PubReady? || At(Run(evs), sid).PubCounting?)
    ensures WritesAtEnd(Run(evs), At(Run(evs), sid))
  {
    hide Inv, Run, Guarded, WritesAtEnd;
    LivePubWritesAtEnd(Run(evs), sid);
  }

  predicate WritesAtEnd(b: Broker, s: Session)
    requires s.PubReady? || s.PubCounting?
  {
    && s.name in b.table && s.name in b.fs.files && s.fd in b.fs.handles
    && b.fs.handles[s.fd] == Live(s.name, |b.fs.files[s.name]|)
    && b.table[s.name].size + (if s.PubCounting? then s.wrote else 0) == |b.fs.files[s.name]|
    && |b.fs.files[s.name]| <= MESSAGE_LEN * LOG_LEN
    && |b.fs.files[s.name]| % MESSAGE_LEN == 0
  }

  lemma LivePubWritesAtEnd(b: Broker, sid: nat)
    requires Inv(b) && (At(b, sid).PubReady? || At(b, sid).PubCounting?)
    ensures WritesAtEnd(b, At(b, sid))
  {
    hide Inv, BeingRemoved, Unlinked, Flat;
    AtOk(b, sid);
    LiveFacts(b, sid);
    if At(b, sid).PubReady? {
      PublisherNotCounting(b, sid);
    }
  }

  /** The size field is exact whenever no publisher is between its write and its count. */
  lemma SizeAgrees(evs: seq<Event>, n: BoxName)
    requires Guarded(evs) && n in Run(evs).table && !Counting(Run(evs).sessions, n) && !Unlinked(Run(evs).sessions, n)
    ensures var b := Run(evs);
            && n in b.fs.files && b.table[n].id in b.sent
            && b.table[n].size == |b.fs.files[n]| == MESSAGE_LEN * |Log(b.sent[b.table[n].id])|
  {
    hide Consistent, SessionsOk, CountsOk, RemovalsOk, Run, Guarded, Counting, Unlinked;
  }

  /** With the broker's parameters no publisher's write ever fails. */
  lemma WritesNeverFail(evs: seq<Event>, sid: nat, payload: Message)
    requires Guarded(evs) && At(Run(evs), sid).PubReady?
    ensures HasWritten(Run(evs), Step(Run(evs), Receive(sid, Packet(PUBLISHED, payload))), sid)
  {
    hide Consistent, TableOk, ContentOk, CountsOk, SizesOk, SessionsOk, RemovalsOk, Write, Run, Guarded;
    WriteShape(Run(evs), sid, payload);
  }

  /** The whole message was stored, or nothing of it because the box holds its hundred messages. */
  ghost predicate HasWritten(b: Broker, b': Broker, sid: nat) {
    && At(b, sid).PubReady?
    && var PubReady(n, id, fd) := At(b, sid);
       id in b.sent && At(b', sid) == PubCounting(n, id, fd, if |b.sent[id]| < LOG_LEN then MESSAGE_LEN else 0)
  }

  // ---------- What managers are told ----------

  /**
   The file of a new box can be made unless its name is empty, the handle table is full, or
   every inode is taken and the file is not there yet: the directory never fills up.
   */
  lemma CreationFailsExactly(evs: seq<Event>, sid: nat)
    requires Guarded(evs) && At(Run(evs), sid).CreateFound?
    ensures var b := Run(evs);
            var n := At(b, sid).name;
            At(Step(b, CreateOpen(sid)), sid) == Answered(Code(-1))
            <==> n == [] || |b.fs.handles| == PARAMS.maxOpenFiles
                 || (n !in b.fs.files && |b.fs.files| + 1 == PARAMS.maxInodes)
  {
    hide ContentOk, CountsOk, SizesOk, SessionsOk, TableOk, RemovalsOk, Open, Run, Guarded;
    var b := Run(evs);
    OpenFailsExactly(b.fs, At(b, sid).name);
  }

  lemma OpenFailsExactly(fs: Fs, n: BoxName)
    requires Consistent(PARAMS, fs)
    ensures Open(PARAMS, fs, PathOf(n), CREAT).1 == -1
       <==> n == [] || |fs.handles| == PARAMS.maxOpenFiles || (n !in fs.files && |fs.files| + 1 == PARAMS.maxInodes)
  {
    hide CutHandles;
    PathIs(n);
    HandlesFullExactly(PARAMS, fs);
    if n != [] && n !in fs.files {
      CreateFailsExactly(PARAMS, fs, PathOf(n));
    }
  }

  /** A manager that is to remove a box found it, still there, with a counter that is not 0. */
  predicate FoundInUse(b: Broker, s: Session) {
    s.RemoveFound? && Present(b, s.name, s.id) && (b.table[s.name].pubNum > 0 || b.table[s.name].subNum > 0)
  }

  /** Some step of the run was the check of session `sid`, and found its box in use. */
  ghost predicate FoundBoxInUse(evs: seq<Event>, sid: nat)
    requires Guarded(evs)
    decreases |evs|
  {
    evs != [] &&
    var m := |evs| - 1;
    FoundBoxInUse(evs[..m], sid) || (evs[m] == CheckBox(sid) && FoundInUse(Run(evs[..m]), At(Run(evs[..m]), sid)))
  }

  predicate Starts(b: Broker, ev: Event) {
    (ev.StartCreate? || ev.StartRemove?) && ev.sid !in b.sessions
  }

  /** Some step of the run was a manager's request to create or remove a box, as session `sid`. */
  ghost predicate IsManagersSession(evs: seq<Event>, sid: nat)
    requires Guarded(evs)
    decreases |evs|
  {
    evs != [] &&
    var m := |evs| - 1;
    IsManagersSession(evs[..m], sid) || (evs[m].sid == sid && Starts(Run(evs[..m]), evs[m]))
  }

  predicate IsManager(s: Session) {
    || s.CreateFound? || s.CreateOpened? || s.CreateClosed? || s.RemoveFound? || IsRemoving(s) || s.Answered?
  }

  /**
   A manager's session is at work or over, and once it is over its client has a return
   code, unless the manager found the box to be removed in use: then it never gets one.
   */
  lemma {:induction false} ManagersAnswerExactly(evs: seq<Event>, sid: nat)
    requires Guarded(evs)
    ensures IsManagersSession(evs, sid) <==> IsManager(At(Run(evs), sid))
    ensures At(Run(evs), sid) == Answered(NoReply) <==> FoundBoxInUse(evs, sid)
    decreases |evs|
  {
    hide Inv, Step, Admits, FoundInUse, IsManager;
    if evs == [] {
      NobodyAtFirst(sid);
    } else {
      var m := |evs| - 1;
      ManagersAnswerExactly(evs[..m], sid);
      StepTells(Run(evs[..m]), evs[m]);
    }
  }

  lemma NobodyAtFirst(sid: nat)
    ensures At(Initial(), sid) == Ended && !IsManager(Ended)
  {
  }

  /** A step moves no session but its own; managers stay managers, and only one step leaves a client without an answer. */
  ghost predicate Tells(b: Broker, b': Broker, ev: Event) {
    var s, s' := At(b, ev.sid), At(b', ev.sid);
    && (forall p | p != ev.sid :: At(b', p) == At(b, p))
    && (IsManager(s') <==> IsManager(s) || Starts(b, ev))
    && (s' == Answered(NoReply) <==> s == Answered(NoReply) || (ev.CheckBox? && FoundInUse(b, s)))
  }

  lemma StepTells(b: Broker, ev: Event)
    requires Inv(b) && Admits(b, ev)
    ensures Tells(b, Step(b, ev), ev)
  {
    hide Inv, Step, Tells, Admits;
    if ev.StartCreate? || ev.CreateOpen? || ev.CreateClose? || ev.AddBox? {
      CreatorTells(b, ev);
    } else if ev.StartRemove? || ev.CheckBox? || ev.UnlinkBox? || ev.DropBox? {
      RemoverTells(b, ev);
    } else if IsPublishers(ev) {
      PublisherTells(b, ev);
    } else {
      SubscriberTells(b, ev);
    }
  }

  lemma CreatorTells(b: Broker, ev: Event)
    requires Inv(b) && Admits(b, ev) && (ev.StartCreate? || ev.CreateOpen? || ev.CreateClose? || ev.AddBox?)
    ensures Tells(b, Step(b, ev), ev)
  {
    hide Inv, Open, Close, Unlinked;
  }

  lemma RemoverTells(b: Broker, ev: Event)
    requires Inv(b) && Admits(b, ev) && (ev.StartRemove? || ev.CheckBox? || ev.UnlinkBox? || ev.DropBox?)
    ensures Tells(b, Step(b, ev), ev)
  {
    hide Inv, Unlink;
  }

  predicate IsPublishers(ev: Event) {
    ev.StartPublisher? || ev.FindForPub? || ev.RaisePub? || ev.OpenPub? || ev.Receive? || ev.Count? || ev.ClosePub?
  }

  lemma PublisherTells(b: Broker, ev: Event)
    requires Inv(b) && Admits(b, ev) && IsPublishers(ev)
    ensures Tells(b, Step(b, ev), ev)
  {
    hide Inv, Step, Tells, Admits;
    if ev.StartPublisher? || ev.FindForPub? || ev.RaisePub? || ev.OpenPub? {
      PubComingTells(b, ev);
    } else {
      PubServedTells(b, ev);
    }
  }

  lemma PubComingTells(b: Broker, ev: Event)
    requires Inv(b) && Admits(b, ev) && (ev.StartPublisher? || ev.FindForPub? || ev.RaisePub? || ev.OpenPub?)
    ensures Tells(b, Step(b, ev), ev)
  {
    hide Inv, Open, BeingRemoved;
  }

  lemma PubServedTells(b: Broker, ev: Event)
    requires Inv(b) && (ev.Receive? || ev.Count? || ev.ClosePub?)
    ensures Tells(b, Step(b, ev), ev)
  {
    hide Inv, Close, StepReceive;
    match ev
    case Receive(sid, input) => if At(b, sid).PubReady? { ReceiveTells(b, sid, input); }
    case _ =>
  }

  predicate IsSubscribers(ev: Event) {
    || ev.StartSubscriber? || ev.FindForSub? || ev.RaiseSub? || ev.OpenSub? || ev.ReadSub? || ev.Send?
    || ev.UnregisterSub? || ev.CloseSub?
  }

  lemma SubscriberTells(b: Broker, ev: Event)
    requires Inv(b) && Admits(b, ev) && IsSubscribers(ev)
    ensures Tells(b, Step(b, ev), ev)
  {
    hide Inv, Step, Tells, Admits;
    if ev.StartSubscriber? || ev.FindForSub? || ev.RaiseSub? || ev.OpenSub? {
      SubComingTells(b, ev);
    } else {
      SubServedTells(b, ev);
    }
  }

  lemma SubComingTells(b: Broker, ev: Event)
    requires Inv(b) && Admits(b, ev) && (ev.StartSubscriber? || ev.FindForSub? || ev.RaiseSub? || ev.OpenSub?)
    ensures Tells(b, Step(b, ev), ev)
  {
    hide Inv, Open, BeingRemoved;
  }

  lemma SubServedTells(b: Broker, ev: Event)
    requires Inv(b) && (ev.ReadSub? || ev.Send? || ev.UnregisterSub? || ev.CloseSub?)
    ensures Tells(b, Step(b, ev), ev)
  {
    hide Inv, Close, StepReadSub, StepSend;
    match ev
    case ReadSub(sid) => if At(b, sid).SubReady? { ReadTells(b, sid); }
    case Send(sid, output) => if At(b, sid).SubSending? { SendTells(b, sid, output); }
    case _ =>
  }

  lemma ReceiveTells(b: Broker, sid: nat, input: PipeInput)
    requires Inv(b) && At(b, sid).PubReady?
    ensures Tells(b, StepReceive(b, sid, input), Receive(sid, input))
  {
    hide Inv, Write;
  }

  lemma ReadTells(b: Broker, sid: nat)
    requires Inv(b) && At(b, sid).SubReady?
    ensures Tells(b, StepReadSub(b, sid), ReadSub(sid))
  {
    hide Inv, Read;
  }

  lemma SendTells(b: Broker, sid: nat, output: PipeOutput)
    requires At(b, sid).SubSending?
    ensures Tells(b, StepSend(b, sid, output), Send(sid, output))
  {
  }
}
