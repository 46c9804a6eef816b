/**
 What each step of the broker does to the file system, the table and its own session,
 said case by case.
 */
module BrokerSteps {
  import opened CStrings
  import opened FsSpec
  import opened Sizes
  import opened Boxes
  import opened FsLaws
  import opened BrokerModel
  import opened BrokerSafety
  import opened BrokerTheorems

  // ---------- What no step does ----------

  /** A step moves no session but its own. */
  lemma OthersStay(b: Broker, ev: Event)
    requires Inv(b)
    ensures forall p | p != ev.sid :: At(Step(b, ev), p) == At(b, p)
    ensures MovesOne(b, Step(b, ev), ev.sid)
  {
    hide Inv, Step;
    if IsPublishers(ev) {
      PublisherMovesOne(b, ev);
    } else if IsSubscribers(ev) {
      SubscriberMovesOne(b, ev);
    } else {
      ManagerMovesOne(b, ev);
    }
  }

  ghost predicate MovesOne(b: Broker, b': Broker, sid: nat) {
    b'.sessions == b.sessions || b'.sessions == b.sessions[sid := At(b', sid)]
  }

  lemma PublisherMovesOne(b: Broker, ev: Event)
    requires Inv(b) && IsPublishers(ev)
    ensures MovesOne(b, Step(b, ev), ev.sid)
  {
    hide Inv, StepReceive, Open, Close;
    match ev
    case Receive(sid, input) => if At(b, sid).PubReady? { ReceiveMovesOne(b, sid, input); }
    case _ =>
  }

  lemma SubscriberMovesOne(b: Broker, ev: Event)
    requires Inv(b) && IsSubscribers(ev)
    ensures MovesOne(b, Step(b, ev), ev.sid)
  {
    hide Inv, StepReadSub, Open, Close;
    match ev
    case ReadSub(sid) => if At(b, sid).SubReady? { ReadMovesOne(b, sid); }
    case _ =>
  }

  lemma ManagerMovesOne(b: Broker, ev: Event)
    requires Inv(b) && !IsPublishers(ev) && !IsSubscribers(ev)
    ensures MovesOne(b, Step(b, ev), ev.sid)
  {
    hide Inv, Open, Close, Unlink;
  }

  lemma ReceiveMovesOne(b: Broker, sid: nat, input: PipeInput)
    requires Inv(b) && At(b, sid).PubReady?
    ensures MovesOne(b, StepReceive(b, sid, input), sid)
  {
    hide Inv, Write;
  }

  lemma ReadMovesOne(b: Broker, sid: nat)
    requires Inv(b) && At(b, sid).SubReady?
    ensures MovesOne(b, StepReadSub(b, sid), sid)
  {
    hide Inv, Read;
  }

  /** Only a publisher's packet adds to what was sent, and only a new box starts a history. */
  lemma SentKept(b: Broker, ev: Event)
    requires Inv(b) && !ev.Receive? && !ev.AddBox?
    ensures Step(b, ev).sent == b.sent
  {
    hide Inv, Open, Close, Read, Unlink, BeingRemoved;
  }

  // ---------- Publishers and subscribers ----------

  /** A publisher's request starts a publisher's session, a subscriber's request a subscriber's. */
  lemma Arrives(b: Broker, ev: Event)
    requires Inv(b) && (ev.StartPublisher? || ev.StartSubscriber?)
    ensures Admits(b, ev) && Step(b, ev).fs == b.fs && Step(b, ev).table == b.table
    ensures ev.sid !in b.sessions ==>
              At(Step(b, ev), ev.sid) == if ev.StartPublisher? then PubStarting(ev.name) else SubStarting(ev.name)
    ensures ev.sid in b.sessions ==> Step(b, ev) == b
  {
    hide Inv;
  }

  lemma Finds(b: Broker, sid: nat, ev: Event, n: BoxName)
    requires Inv(b)
    requires (ev == FindForPub(sid) && At(b, sid) == PubStarting(n)) || (ev == FindForSub(sid) && At(b, sid) == SubStarting(n))
    ensures Admits(b, ev) && Step(b, ev).fs == b.fs && Step(b, ev).table == b.table
    ensures At(Step(b, ev), sid)
         == if n !in b.table then Ended
            else if ev.FindForPub? then PubFound(n, b.table[n].id) else SubFound(n, b.table[n].id)
  {
    hide Inv;
  }

  lemma PubRaises(b: Broker, sid: nat, n: BoxName, id: nat)
    requires Inv(b) && At(b, sid) == PubFound(n, id) && Admits(b, Event.RaisePub(sid))
    ensures Present(b, n, id) && n in b.table && b.table[n].id == id && b.table[n].pubNum <= 1
    ensures var b' := Step(b, Event.RaisePub(sid));
            var ok := b.table[n].pubNum != 1;
            && b'.fs == b.fs
            && At(b', sid) == (if ok then PubRegistered(n, id) else Ended)
            && b'.table == if ok then b.table[n := b.table[n].(pubNum := b.table[n].pubNum + 1)] else b.table
  {
    hide Inv, BeingRemoved, Unlinked, Flat, Log, LivePubs, LiveSubs;
    BoxFacts(b, n);
  }

  lemma PubOpens(b: Broker, sid: nat, n: BoxName, id: nat)
    requires Inv(b) && At(b, sid) == PubRegistered(n, id)
    ensures var b' := Step(b, Event.OpenPub(sid));
            var (fs, fd) := Open(PARAMS, b.fs, PathOf(n), APPEND);
            b'.fs == fs && b'.table == b.table && At(b', sid) == if fd == -1 then Ended else PubReady(n, id, fd)
  {
    hide Inv, Open;
  }

  lemma HandleFree(fs: Fs, n: BoxName, append: bool)
    requires Consistent(PARAMS, fs) && n in fs.files
    ensures Open(PARAMS, fs, PathOf(n), OpenMode(false, false, append)).1 == -1 <==> |fs.handles| == PARAMS.maxOpenFiles
  {
    PathIs(n);
    HandlesFullExactly(PARAMS, fs);
  }

  /** A registered publisher's handle is put at the end of its box's file, unless every handle is in use. */
  lemma PubOpensAtEnd(b: Broker, sid: nat, n: BoxName, id: nat)
    requires Inv(b) && At(b, sid) == PubRegistered(n, id)
    ensures n in b.fs.files
    ensures var b' := Step(b, Event.OpenPub(sid));
            if |b.fs.handles| == PARAMS.maxOpenFiles then b'.fs == b.fs && At(b', sid) == Ended
            else
              && At(b', sid).PubReady? && At(b', sid).fd !in b.fs.handles && At(b', sid) == PubReady(n, id, At(b', sid).fd)
              && b'.fs == Fs(b.fs.files, b.fs.handles[At(b', sid).fd := Live(n, |b.fs.files[n]|)])
  {
    hide ContentOk, CountsOk, SizesOk, SessionsOk, TableOk, RemovalsOk, Consistent, Open, Unlinked, BeingRemoved, Flat, Log;
    LiveFacts(b, sid);
    OpenShape(b.fs, n, true);
    HandleFree(b.fs, n, true);
  }

  /** A packet with code 9 goes to the file and to the box's history. */
  lemma PacketIsSent(b: Broker, sid: nat, n: BoxName, id: nat, fd: int, payload: Message)
    requires Inv(b) && At(b, sid) == PubReady(n, id, fd)
    ensures id in b.sent && fd in b.fs.handles
    ensures var b' := Step(b, Event.Receive(sid, Packet(9, payload)));
            && At(b', sid) == PubCounting(n, id, fd, if |b.sent[id]| < 100 then 1024 else 0)
            && b'.table == b.table && b'.sent == b.sent[id := b.sent[id] + [payload]]
            && b'.fs.files == b.fs.files[n := Flat(Log(b.sent[id] + [payload]))]
            && b'.fs.handles == b.fs.handles[fd := Live(n, |b'.fs.files[n]|)]
  {
    hide Consistent, ContentOk, CountsOk, SizesOk, SessionsOk, TableOk, RemovalsOk, Write, Flat, Log;
    WriteShape(b, sid, payload);
  }

  /** What the loop leaves behind, by what it read; the box has its one publisher. */
  lemma PubReceives(b: Broker, sid: nat, n: BoxName, id: nat, fd: int, input: PipeInput)
    requires Inv(b) && At(b, sid) == PubReady(n, id, fd)
    ensures n in b.table && b.table[n].id == id && b.table[n].pubNum == 1
    ensures fd in b.fs.handles && IsLive(b.fs, fd) && Consistent(PARAMS, b.fs)
    ensures var b' := Step(b, Event.Receive(sid, input));
            match input
            case EndOfStream => b'.fs == b.fs && At(b', sid) == PubClosing(fd)
                                && b'.table == b.table[n := b.table[n].(pubNum := b.table[n].pubNum - 1)]
            case ReadError => b'.fs == b.fs && b'.table == b.table && At(b', sid) == PubClosing(fd)
            case OneByte(code) =>
              b'.fs == b.fs && b'.table == b.table
              && At(b', sid) == if code != 9 then PubClosing(fd) else PubReady(n, id, fd)
            case Packet(code, payload) =>
              if code != 9 then b'.fs == b.fs && b'.table == b.table && At(b', sid) == PubClosing(fd)
              else var (fs, wrote) := Write(PARAMS, b.fs, fd, payload);
                   b'.fs == fs && b'.table == b.table
                   && At(b', sid) == if wrote < 0 then PubClosing(fd) else PubCounting(n, id, fd, wrote)
  {
    hide TableOk, ContentOk, SizesOk, SessionsOk, CountsOk, RemovalsOk, Write, BeingRemoved, Unlinked, Flat, Log;
    LiveFacts(b, sid);
    AtOk(b, sid);
  }

  /** Anything else that is read changes no file and adds to no history. */
  lemma ReceiveCases(b: Broker, sid: nat, n: BoxName, id: nat, fd: int, input: PipeInput)
    requires Inv(b) && At(b, sid) == PubReady(n, id, fd)
    ensures var b' := Step(b, Event.Receive(sid, input));
            if input.Packet? && input.code == 9 then
              && id in b.sent && b'.sent == b.sent[id := b.sent[id] + [input.payload]]
              && At(b', sid) == PubCounting(n, id, fd, if |b.sent[id]| < 100 then 1024 else 0)
              && b'.fs.files == b.fs.files[n := Flat(Log(b.sent[id] + [input.payload]))]
            else b'.fs == b.fs && b'.sent == b.sent
  {
    hide Inv, Step, Flat, Log;
    if input.Packet? && input.code == 9 {
      PacketIsSent(b, sid, n, id, fd, input.payload);
    } else {
      NothingIsSent(b, sid, n, id, fd, input);
    }
  }

  lemma NothingIsSent(b: Broker, sid: nat, n: BoxName, id: nat, fd: int, input: PipeInput)
    requires Inv(b) && At(b, sid) == PubReady(n, id, fd) && !(input.Packet? && input.code == 9)
    ensures var b' := Step(b, Event.Receive(sid, input)); b'.fs == b.fs && b'.sent == b.sent
  {
    hide Inv;
  }

  lemma ClosesOne(fs: Fs, fd: int)
    ensures Close(fs, fd).0 == Fs(fs.files, fs.handles - {fd})
  {
    assert fd !in fs.handles ==> fs.handles - {fd} == fs.handles;
  }

  lemma PubCounts(b: Broker, sid: nat, n: BoxName, id: nat, fd: int, wrote: nat)
    requires Inv(b) && At(b, sid) == PubCounting(n, id, fd, wrote)
    ensures n in b.table && b.table[n].id == id
    ensures var b' := Step(b, Event.Count(sid));
            && b'.fs == b.fs && b'.table == b.table[n := b.table[n].(size := b.table[n].size + wrote)]
            && At(b', sid) == PubReady(n, id, fd)
  {
    hide Consistent, ContentOk, SizesOk, SessionsOk, CountsOk;
    AtOk(b, sid);
  }

  lemma PubCloses(b: Broker, sid: nat, fd: int)
    requires Inv(b) && At(b, sid) == PubClosing(fd)
    ensures var b' := Step(b, Event.ClosePub(sid));
            b'.fs == Close(b.fs, fd).0 && b'.table == b.table && At(b', sid) == Ended
  {
    hide Inv, Close;
  }

  lemma SubRaises(b: Broker, sid: nat, n: BoxName, id: nat)
    requires Inv(b) && At(b, sid) == SubFound(n, id) && Admits(b, Event.RaiseSub(sid))
    ensures Present(b, n, id) && n in b.table && b.table[n].id == id
    ensures var b' := Step(b, Event.RaiseSub(sid));
            && b'.fs == b.fs && At(b', sid) == SubRegistered(n, id)
            && b'.table == b.table[n := b.table[n].(subNum := b.table[n].subNum + 1)]
  {
    hide Inv, BeingRemoved;
  }

  lemma SubOpens(b: Broker, sid: nat, n: BoxName, id: nat)
    requires Inv(b) && At(b, sid) == SubRegistered(n, id)
    ensures var b' := Step(b, Event.OpenSub(sid));
            var (fs, fd) := Open(PARAMS, b.fs, PathOf(n), PLAIN);
            b'.fs == fs && b'.table == b.table && At(b', sid) == if fd == -1 then Ended else SubReady(n, id, fd, [])
  {
    hide Inv, Open;
  }

  /** A registered subscriber's handle is put at the start of its box's file, unless every handle is in use. */
  lemma SubOpensAtStart(b: Broker, sid: nat, n: BoxName, id: nat)
    requires Inv(b) && At(b, sid) == SubRegistered(n, id)
    ensures n in b.fs.files
    ensures var b' := Step(b, Event.OpenSub(sid));
            if |b.fs.handles| == PARAMS.maxOpenFiles then b'.fs == b.fs && At(b', sid) == Ended
            else
              && At(b', sid).SubReady? && At(b', sid).fd !in b.fs.handles
              && At(b', sid) == SubReady(n, id, At(b', sid).fd, [])
              && b'.fs == Fs(b.fs.files, b.fs.handles[At(b', sid).fd := Live(n, 0)])
  {
    hide ContentOk, CountsOk, SizesOk, SessionsOk, TableOk, RemovalsOk, Consistent, Open, Unlinked, BeingRemoved, Flat, Log;
    LiveFacts(b, sid);
    OpenShape(b.fs, n, false);
    HandleFree(b.fs, n, false);
  }

  /** A subscriber reads the next message its box took, and nothing once it has them all. */
  lemma SubReadsNext(b: Broker, sid: nat, n: BoxName, id: nat, fd: int, got: seq<seq<Byte>>)
    requires Inv(b) && At(b, sid) == SubReady(n, id, fd, got)
    ensures id in b.sent && |got| <= |Log(b.sent[id])| && Consistent(PARAMS, b.fs) && (fd in b.fs.handles ==> IsLive(b.fs, fd))
    ensures var b', r := Step(b, Event.ReadSub(sid)), Read(PARAMS, b.fs, fd, MESSAGE_LEN).1;
            && MESSAGE_LEN == 1024
            && (|got| == |Log(b.sent[id])| ==> r == 0 && b' == b)
            && (|got| < |Log(b.sent[id])| ==>
                  r == 1024 && At(b', sid) == SubSending(n, id, fd, got, Log(b.sent[id])[|got|]))
  {
    hide ContentOk, CountsOk, SizesOk, SessionsOk, TableOk, RemovalsOk, Read, Flat, Log;
    ReadShape(b, sid);
  }

  lemma SubReads(b: Broker, sid: nat, n: BoxName, id: nat, fd: int, got: seq<seq<Byte>>)
    requires Inv(b) && At(b, sid) == SubReady(n, id, fd, got)
    ensures fd in b.fs.handles && IsLive(b.fs, fd) && Consistent(PARAMS, b.fs)
    ensures var b' := Step(b, Event.ReadSub(sid));
            var (fs, r, bytes) := Read(PARAMS, b.fs, fd, MESSAGE_LEN);
            && b'.fs == fs && b'.table == b.table
            && At(b', sid) == if r == 0 then SubReady(n, id, fd, got)
                              else if r == -1 then SubClosing(id, fd, got)
                              else SubSending(n, id, fd, got, Response(bytes))
  {
    hide Consistent, ContentOk, SizesOk, SessionsOk, CountsOk, Read;
    AtOk(b, sid);
  }

  lemma SubLeaves(b: Broker, sid: nat, n: BoxName, id: nat, fd: int, got: seq<seq<Byte>>)
    requires Inv(b) && At(b, sid) == SubLeaving(n, id, fd, got)
    ensures n in b.table && b.table[n].id == id && b.table[n].subNum > 0
    ensures var b' := Step(b, Event.UnregisterSub(sid));
            && b'.fs == b.fs && b'.table == b.table[n := b.table[n].(subNum := b.table[n].subNum - 1)]
            && At(b', sid) == SubEnded(id, got)
  {
    hide Inv, BeingRemoved, Unlinked, Flat, Log;
    LiveFacts(b, sid);
  }

  lemma SubCloses(b: Broker, sid: nat, id: nat, fd: int, got: seq<seq<Byte>>)
    requires Inv(b) && At(b, sid) == SubClosing(id, fd, got)
    ensures var b' := Step(b, Event.CloseSub(sid));
            b'.fs == Close(b.fs, fd).0 && b'.table == b.table && At(b', sid) == SubEnded(id, got)
  {
    hide Inv, Close;
  }

  lemma SubSends(b: Broker, sid: nat, n: BoxName, id: nat, fd: int, got: seq<seq<Byte>>, response: seq<Byte>, output: PipeOutput)
    requires Inv(b) && At(b, sid) == SubSending(n, id, fd, got, response)
    ensures var b' := Step(b, Event.Send(sid, output));
            && b'.fs == b.fs && b'.table == b.table && Admits(b, Event.Send(sid, output))
            && At(b', sid) == if output.Delivered? then SubReady(n, id, fd, got + [response])
                              else if output.BrokenPipe? then SubLeaving(n, id, fd, got) else SubClosing(id, fd, got)
  {
    hide Inv;
  }

  // ---------- Managers ----------

  lemma CreateStarts(b: Broker, sid: nat, n: BoxName)
    requires Inv(b) && sid !in b.sessions
    ensures var b' := Step(b, Event.StartCreate(sid, n));
            && b'.fs == b.fs && b'.table == b.table && Admits(b, Event.StartCreate(sid, n))
            && At(b', sid) == if n in b.table then Answered(Code(-1)) else CreateFound(n)
  {
    hide Inv;
  }

  lemma CreateOpens(b: Broker, sid: nat, n: BoxName)
    requires Inv(b) && At(b, sid) == CreateFound(n)
    ensures var b' := Step(b, Event.CreateOpen(sid));
            var (fs, fd) := Open(PARAMS, b.fs, PathOf(n), CREAT);
            && b'.fs == fs && b'.table == b.table && Admits(b, Event.CreateOpen(sid))
            && At(b', sid) == if fd == -1 then Answered(Code(-1)) else CreateOpened(n, fd)
  {
    hide Inv, Open;
  }

  /** The file of a new box is there afterwards, unless its name is empty or every inode is taken, even if no handle is left. */
  lemma NewFileMade(b: Broker, sid: nat, n: BoxName)
    requires Inv(b) && At(b, sid) == CreateFound(n)
    ensures var b' := Step(b, Event.CreateOpen(sid));
            && b'.fs.files == (if n == [] || n in b.fs.files || |b.fs.files| + 1 == PARAMS.maxInodes then b.fs.files
                               else b.fs.files[n := []])
            && (At(b', sid) == Answered(Code(-1))
                <==> n == [] || |b.fs.handles| == PARAMS.maxOpenFiles
                     || (n !in b.fs.files && |b.fs.files| + 1 == PARAMS.maxInodes))
  {
    hide ContentOk, CountsOk, SizesOk, SessionsOk, TableOk, RemovalsOk, Open;
    FileMade(b.fs, n);
    OpenFailsExactly(b.fs, n);
  }

  lemma FileMade(fs: Fs, n: BoxName)
    requires Consistent(PARAMS, fs)
    ensures Open(PARAMS, fs, PathOf(n), CREAT).0.files
         == if n == [] || n in fs.files || |fs.files| + 1 == PARAMS.maxInodes then fs.files else fs.files[n := []]
  {
    hide CutHandles;
    PathIs(n);
  }

  /** tfs_unlink takes the file away, and fails if another manager already did. */
  lemma FileGone(b: Broker, sid: nat, n: BoxName)
    requires Inv(b) && At(b, sid) == RemoveChecked(n)
    ensures var b' := Step(b, Event.UnlinkBox(sid));
            && (At(b', sid) == RemoveUnlinked(n) <==> n != [] && n in b.fs.files)
            && b'.fs.files == (if n == [] then b.fs.files else b.fs.files - {n}) && b'.fs.handles.Keys == b.fs.handles.Keys
  {
    hide Inv, Unlink;
    UnlinkShape(b.fs, n);
    assert n !in b.fs.files ==> b.fs.files - {n} == b.fs.files;
  }

  lemma CreateCloses(b: Broker, sid: nat, n: BoxName, fd: int)
    requires Inv(b) && At(b, sid) == CreateOpened(n, fd)
    ensures var b' := Step(b, Event.CreateClose(sid));
            && Close(b.fs, fd) == (b'.fs, 0) && b'.table == b.table && Admits(b, Event.CreateClose(sid))
            && At(b', sid) == CreateClosed(n)
  {
    hide Inv;
    AtOk(b, sid);
  }

  lemma BoxAdds(b: Broker, sid: nat, n: BoxName)
    requires Inv(b) && At(b, sid) == CreateClosed(n) && Admits(b, Event.AddBox(sid))
    ensures n !in b.table
    ensures var b' := Step(b, Event.AddBox(sid));
            && b'.fs == b.fs && b'.table == b.table[n := BoxState(b.nextId, 0, 0, 0)]
            && At(b', sid) == Answered(Code(0))
  {
    hide Inv, Unlinked;
  }

  lemma RemoveStarts(b: Broker, sid: nat, n: BoxName)
    requires Inv(b) && sid !in b.sessions
    ensures var b' := Step(b, Event.StartRemove(sid, n));
            && b'.fs == b.fs && b'.table == b.table && Admits(b, Event.StartRemove(sid, n))
            && At(b', sid) == if n in b.table then RemoveFound(n, b.table[n].id) else Answered(Code(-1))
  {
    hide Inv;
  }

  lemma BoxChecks(b: Broker, sid: nat, n: BoxName, id: nat)
    requires Inv(b) && At(b, sid) == RemoveFound(n, id) && Admits(b, Event.CheckBox(sid))
    ensures n in b.table && b.table[n].id == id
    ensures var b' := Step(b, Event.CheckBox(sid));
            && b'.fs == b.fs && b'.table == b.table
            && At(b', sid) == if b.table[n].pubNum > 0 || b.table[n].subNum > 0 then Answered(NoReply) else RemoveChecked(n)
  {
    hide Inv;
  }

  lemma BoxUnlinks(b: Broker, sid: nat, n: BoxName)
    requires Inv(b) && At(b, sid) == RemoveChecked(n)
    ensures var b' := Step(b, Event.UnlinkBox(sid));
            var (fs, r) := Unlink(b.fs, PathOf(n));
            && b'.fs == fs && b'.table == b.table && Admits(b, Event.UnlinkBox(sid))
            && At(b', sid) == if r == -1 then Answered(Code(-1)) else RemoveUnlinked(n)
  {
    hide Inv, Unlink;
  }

  lemma BoxDrops(b: Broker, sid: nat, n: BoxName)
    requires Inv(b) && At(b, sid) == RemoveUnlinked(n)
    ensures var b' := Step(b, Event.DropBox(sid));
            && b'.fs == b.fs && b'.table == b.table - {n} && Admits(b, Event.DropBox(sid))
            && At(b', sid) == Answered(Code(if n in b.table then 0 else -1))
  {
    hide Inv;
  }
}
