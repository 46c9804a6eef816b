/**
 The broker of mbroker.c over the file system and the box table, both changed in place.
 Each method is the code of one step of a worker thread, given the thread's local
 variables; together they are the transition system of `BrokerModel`, so what
 `BrokerTheorems` proves of every run holds of the objects here.
 */
module MessageBroker {
  import opened CStrings
  import opened Sizes
  import opened FsSpec
  import opened FileSystem
  import opened Boxes
  import Wire
  import Listing
  import opened BrokerModel
  import opened BrokerSafety
  import opened BrokerTheorems
  import opened BrokerSteps
  import opened BrokerListing

  /** What the publisher's loop does after a read from its pipe. */
  datatype Next = Again | Wrote(bytes: nat) | Leave

  /** `boxOf` knows the box by its id. */
  ghost predicate Known(boxOf: map<nat, Box>, box: Box) {
    box.id in boxOf && boxOf[box.id] == box
  }

  ghost predicate AllKnown(boxOf: map<nat, Box>, slots: Slots) {
    forall box: Box | box in slots :: Known(boxOf, box)
  }

  class Mbroker {
    const fs: Tfs
    const boxTable: BoxTable
    // the sessions' program counters and what was sent, which no thread stores
    ghost var model: Broker
    // the steps taken so far
    ghost var history: seq<Event>
    // every box there ever was, by its id
    ghost var boxOf: map<nat, Box>

    ghost predicate Valid()
      reads this, boxTable, boxTable.boxes, boxTable.boxes[..], fs.Repr()
    {
      && fs.params == PARAMS && fs.Valid() && fs.View() == model.fs
      && boxTable.Valid() && NamesDistinct(boxTable.All()) && boxTable.View() == model.table
      && AllKnown(boxOf, boxTable.All())
      && Guarded(history) && model == Run(history)
    }

    /** The parts of `Valid`, and what the types say about the objects' identities. */
    lemma Parts()
      requires Valid()
      ensures fs.params == PARAMS && fs.Valid() && fs.View() == model.fs
      ensures boxTable.Valid() && NamesDistinct(boxTable.All()) && boxTable.View() == model.table
      ensures AllKnown(boxOf, boxTable.All()) && Guarded(history) && model == Run(history) && Inv(model)
    {
      hide Inv, Run, Guarded, NamesDistinct, Entries, Tfs.Valid, Tfs.View, BoxTable.Valid;
    }

    /** A step that is admitted goes on the history. */
    lemma Goes(ev: Event)
      requires Valid() && Admits(model, ev)
      ensures Guarded(history + [ev]) && Run(history + [ev]) == Step(model, ev)
    {
      hide *;
      Parts();
      RunNext(history, ev);
    }

    /** So does every step that the broker never turns away. */
    lemma GoesFreely(ev: Event)
      requires Valid() && !ev.RaisePub? && !ev.RaiseSub? && !ev.CheckBox? && !ev.AddBox?
      ensures Guarded(history + [ev]) && Run(history + [ev]) == Step(model, ev)
    {
      hide *;
      Parts();
      FreeStepKeepsInv(model, ev);
      Goes(ev);
    }

    lemma Entry(n: CString)
      requires Valid() && n in model.table
      ensures NamesDistinct(boxTable.All()) && n in Entries(boxTable.All())
      ensures var box := Entries(boxTable.All())[n];
              && box in boxTable.All() && box.fileName == n && Known(boxOf, box)
              && box.id == model.table[n].id && box.pubNum == model.table[n].pubNum
              && box.subNum == model.table[n].subNum && box.size == model.table[n].size
    {
      hide Inv, NamesDistinct, Entries, Tfs.Valid, Tfs.View, BoxTable.Valid;
      EntriesNamed(boxTable.All());
    }

    lemma Whole()
      requires fs.params == PARAMS && fs.Valid() && fs.View() == model.fs
      requires boxTable.Valid() && NamesDistinct(boxTable.All()) && boxTable.View() == model.table
      requires AllKnown(boxOf, boxTable.All()) && Guarded(history) && model == Run(history)
      ensures Valid()
    {
      hide Inv, Run, Guarded, NamesDistinct, Entries, Tfs.Valid, Tfs.View, BoxTable.Valid;
    }

    /** The end of a step: the objects are where the model goes. */
    ghost method Finish(ev: Event)
      requires Inv(model) && Guarded(history + [ev]) && Run(history + [ev]) == Step(model, ev)
      requires fs.params == PARAMS && fs.Valid() && fs.View() == Step(model, ev).fs
      requires boxTable.Valid() && NamesDistinct(boxTable.All()) && boxTable.View() == Step(model, ev).table
      requires AllKnown(boxOf, boxTable.All())
      modifies this`model, this`history
      ensures Valid() && history == old(history) + [ev] && model == Step(old(model), ev)
    {
      hide *;
      Apart();
      model, history := Step(model, ev), history + [ev];
      Whole();
    }

    /** What holds of every run holds of the objects: a subscriber has a prefix of what its box took. */
    lemma SubscriberHasPrefix(sid: nat)
      requires Valid()
      ensures var s := At(model, sid);
              IsSubscriber(s) ==>
                s.id in model.sent && s.got <= Log(model.sent[s.id]) <= model.sent[s.id] && |Log(model.sent[s.id])| <= LOG_LEN
    {
      hide *;
      Parts();
      DeliveredIsPrefix(history, sid);
    }

    /** Nothing of the file system is also the broker's own. */
    lemma Apart()
      ensures allocated(fs.Repr()) && this !in fs.Repr() && boxTable !in fs.Repr() && boxTable.boxes !in fs.Repr()
      ensures forall box: Box :: box !in fs.Repr()
    {
    }

    /** The broker after its tables are set up. */
    constructor Start()
      ensures fresh(fs) && fresh(fs.Repr()) && fresh(boxTable) && fresh(boxTable.boxes)
      ensures Valid() && history == [] && model == Initial()
    {
      hide *;
      ParamsFit();
      boxTable := new BoxTable.Init();
      var tables := new Tfs.StateInit(PARAMS);
      ReprHolds(tables);
      var r := tables.Init();
      fs := tables;
      model, history := Initial(), [];
      boxOf := map[];
      new;
      Apart();
      NothingRun();
      InitialIsEmpty(boxTable.All());
      Whole();
    }

    // ---------- Arriving, and finding a box ----------

    /** A client's request reaches a worker thread. */
    ghost method Arrive(ev: Event)
      requires Valid() && (ev.StartPublisher? || ev.StartSubscriber?)
      modifies this`model, this`history
      ensures Valid() && history == old(history) + [ev] && model == Step(old(model), ev)
      ensures ev.sid !in old(model).sessions ==>
                At(model, ev.sid) == if ev.StartPublisher? then PubStarting(ev.name) else SubStarting(ev.name)
      ensures ev.sid in old(model).sessions ==> model == old(model)
    {
      hide *;
      Apart();
      Parts();
      Arrives(model, ev);
      Goes(ev);
      Finish(ev);
    }

    /** box_find, for a publisher or a subscriber */
    method FindBox(ghost sid: nat, ghost ev: Event, name: BoxName) returns (box: Box?)
      requires Valid()
      requires (ev == FindForPub(sid) && At(model, sid) == PubStarting(name))
               || (ev == FindForSub(sid) && At(model, sid) == SubStarting(name))
      modifies this`model, this`history
      ensures Valid() && history == old(history) + [ev] && model == Step(old(model), ev)
      ensures box == null ==> At(model, sid) == Ended
      ensures box != null ==> Known(boxOf, box) && box.fileName == name
                              && At(model, sid) == if ev.FindForPub? then PubFound(name, box.id) else SubFound(name, box.id)
      ensures box == null <==> name !in old(model).table
    {
      hide *;
      Apart();
      Parts();
      Finds(model, sid, ev, name);
      Goes(ev);
      if name in model.table {
        Entry(name);
      }
      box := boxTable.Find(name);
      Finish(ev);
    }

    /** handle_request: the first byte of a request decides what its session does first. */
    method HandleRequest(code: Byte, ghost sid: nat, name: BoxName) returns (box: Box?)
      requires Valid() && sid !in model.sessions
      modifies this`model, this`history
      ensures Valid() && forall p | p != sid :: At(model, p) == At(old(model), p)
      ensures code == 1 ==> At(model, sid) == PubStarting(name)
      ensures code == 2 ==> At(model, sid) == SubStarting(name)
      ensures code == 3 ==> At(model, sid) == if name in old(model).table then Answered(Code(-1)) else CreateFound(name)
      ensures code == 5 ==>
                At(model, sid) == if name in old(model).table then RemoveFound(name, old(model).table[name].id)
                                  else Answered(Code(-1))
      ensures code != 1 && code != 2 && code != 3 && code != 5 ==> model == old(model) && history == old(history)
    {
      hide *;
      Parts();
      box := null;
      match code {
        case 1 =>
          OthersStay(model, StartPublisher(sid, name));
          Arrive(StartPublisher(sid, name));
        case 2 =>
          OthersStay(model, StartSubscriber(sid, name));
          Arrive(StartSubscriber(sid, name));
        case 3 =>
          OthersStay(model, Event.StartCreate(sid, name));
          box := StartCreate(sid, name);
        case 5 =>
          OthersStay(model, Event.StartRemove(sid, name));
          box := StartRemove(sid, name);
        case _ =>
      }
    }

    // ---------- Publishers ----------

    /** A thread's pointer to a live box is the table's. */
    lemma Pointer(box: Box)
      requires Valid() && Known(boxOf, box)
      requires box.fileName in model.table && model.table[box.fileName].id == box.id
      ensures NamesDistinct(boxTable.All()) && box.fileName in Entries(boxTable.All())
      ensures Entries(boxTable.All())[box.fileName] == box && box in boxTable.All()
      ensures model.table[box.fileName] == BoxState(box.id, box.pubNum, box.subNum, box.size)
    {
      hide Inv, NamesDistinct, Entries, Tfs.Valid, Tfs.View, BoxTable.Valid;
      Entry(box.fileName);
    }

    /** The table's view after the fields of one box changed. */
    lemma BoxChanged(box: Box, before: map<CString, BoxState>)
      requires NamesDistinct(boxTable.All()) && box.fileName in Entries(boxTable.All())
      requires Entries(boxTable.All())[box.fileName] == box && Entries(boxTable.All()).Keys == before.Keys
      requires forall n | n in before && n != box.fileName :: Entries(boxTable.All())[n].State() == before[n]
      ensures boxTable.View() == before[box.fileName := BoxState(box.id, box.pubNum, box.subNum, box.size)]
    {
      hide NamesDistinct, Entries;
      OneBoxChanged(boxTable.All(), before, box.fileName);
    }

    /** The rest of box_register_pub, on the box that was found. */
    method RaisePub(ghost sid: nat, box: Box) returns (ok: bool)
      requires Valid() && Known(boxOf, box) && At(model, sid) == PubFound(box.fileName, box.id)
      requires Admits(model, Event.RaisePub(sid))
      modifies this`model, this`history, box`pubNum
      ensures Valid() && history == old(history) + [Event.RaisePub(sid)] && model == Step(old(model), Event.RaisePub(sid))
      ensures At(model, sid) == if ok then PubRegistered(box.fileName, box.id) else Ended
      ensures ok <==> old(box.pubNum) != 1
      ensures box.pubNum == 1
    {
      hide *;
      Apart();
      Parts();
      PubRaises(model, sid, box.fileName, box.id);
      Goes(Event.RaisePub(sid));
      Pointer(box);
      EntriesNamed(boxTable.All());
      EntriesAllocated(boxTable.All());
      ok := box.RaisePub();
      BoxChanged(box, old(boxTable.View()));
      Finish(Event.RaisePub(sid));
    }

    /** tfs_open of the box's file, for appending */
    method OpenPub(ghost sid: nat, box: Box) returns (fd: int)
      requires Valid() && At(model, sid) == PubRegistered(box.fileName, box.id)
      modifies this, fs.Repr()
      ensures Valid() && history == old(history) + [Event.OpenPub(sid)] && model == Step(old(model), Event.OpenPub(sid))
      ensures At(model, sid) == if fd == -1 then Ended else PubReady(box.fileName, box.id, fd)
      ensures fd == -1 <==> |old(model).fs.handles| == PARAMS.maxOpenFiles
      ensures model.fs.files == old(model).fs.files && box.fileName in old(model).fs.files
      ensures fd != -1 ==> model.fs.handles == old(model).fs.handles[fd := Live(box.fileName, |old(model).fs.files[box.fileName]|)]
    {
      hide *;
      Apart();
      Parts();
      PubOpensAtEnd(model, sid, box.fileName, box.id);
      PubOpens(model, sid, box.fileName, box.id);
      GoesFreely(Event.OpenPub(sid));
      fd := fs.Open(PathOf(box.fileName), APPEND);
      Finish(Event.OpenPub(sid));
    }

    /** One turn of the read loop: the checks on what was read, then tfs_write. */
    method Receive(ghost sid: nat, box: Box, fd: int, input: PipeInput) returns (next: Next)
      requires Valid() && At(model, sid) == PubReady(box.fileName, box.id, fd) && !input.EndOfStream?
      modifies this, fs.Repr()
      ensures Valid() && history == old(history) + [Event.Receive(sid, input)] && model == Step(old(model), Event.Receive(sid, input))
      ensures At(model, sid) == match next
                                case Again => PubReady(box.fileName, box.id, fd)
                                case Wrote(n) => PubCounting(box.fileName, box.id, fd, n)
                                case Leave => PubClosing(fd)
      ensures input.ReadError? ==> next == Leave
      ensures input.OneByte? ==> next == if input.code == 9 then Again else Leave
      ensures input.Packet? && input.code != 9 ==> next == Leave
      ensures input.Packet? && input.code == 9 ==>
                && box.id in old(model).sent
                && next == Wrote(if |old(model).sent[box.id]| < 100 then 1024 else 0)
                && model.sent == old(model).sent[box.id := old(model).sent[box.id] + [input.payload]]
                && model.fs.files == old(model).fs.files[box.fileName := Flat(Log(model.sent[box.id]))]
      ensures !(input.Packet? && input.code == 9) ==> model.fs == old(model).fs && model.sent == old(model).sent
    {
      hide *;
      Apart();
      Parts();
      ReceiveCases(model, sid, box.fileName, box.id, fd, input);
      GoesFreely(Event.Receive(sid, input));
      PubReceives(model, sid, box.fileName, box.id, fd, input);
      match input {
        case ReadError =>
          next := Leave;
        case OneByte(code) =>
          next := if code != 9 then Leave else Again;
        case Packet(code, payload) =>
          if code != 9 {
            next := Leave;
          } else {
            MessageFits(payload);
            var wrote := fs.Write(fd, payload);
            next := if wrote < 0 then Leave else Wrote(wrote);
          }
      }
      Finish(Event.Receive(sid, input));
    }

    /** The end of the publisher's stream: box_unregister_pub, with the file still open. */
    method UnregisterPub(ghost sid: nat, box: Box, ghost fd: int) returns (ret: int)
      requires Valid() && Known(boxOf, box) && At(model, sid) == PubReady(box.fileName, box.id, fd)
      modifies this, box`pubNum
      ensures Valid() && history == old(history) + [Event.Receive(sid, EndOfStream)] && model == Step(old(model), Event.Receive(sid, EndOfStream))
      ensures At(model, sid) == PubClosing(fd) && ret == 0
      ensures old(box.pubNum) == 1 && box.pubNum == 0 && model.fs == old(model).fs
    {
      hide *;
      Apart();
      Parts();
      GoesFreely(Event.Receive(sid, EndOfStream));
      PubReceives(model, sid, box.fileName, box.id, fd, EndOfStream);
      Pointer(box);
      EntriesNamed(boxTable.All());
      EntriesAllocated(boxTable.All());
      ret := box.UnregisterPub();
      BoxChanged(box, old(boxTable.View()));
      Finish(Event.Receive(sid, EndOfStream));
    }

    /** box->size += wrote */
    method Count(ghost sid: nat, box: Box, ghost fd: int, wrote: nat)
      requires Valid() && Known(boxOf, box) && At(model, sid) == PubCounting(box.fileName, box.id, fd, wrote)
      modifies this, box`size
      ensures Valid() && history == old(history) + [Event.Count(sid)] && model == Step(old(model), Event.Count(sid))
      ensures At(model, sid) == PubReady(box.fileName, box.id, fd)
      ensures box.size == old(box.size) + wrote
    {
      hide *;
      Apart();
      Parts();
      PubCounts(model, sid, box.fileName, box.id, fd, wrote);
      GoesFreely(Event.Count(sid));
      Pointer(box);
      EntriesNamed(boxTable.All());
      box.size := box.size + wrote;
      BoxChanged(box, old(boxTable.View()));
      Finish(Event.Count(sid));
    }

    /** tfs_close after the loop */
    method ClosePub(ghost sid: nat, fd: int)
      requires Valid() && At(model, sid) == PubClosing(fd)
      modifies this, fs.Repr()
      ensures Valid() && history == old(history) + [Event.ClosePub(sid)] && model == Step(old(model), Event.ClosePub(sid))
      ensures At(model, sid) == Ended
      ensures model.fs.files == old(model).fs.files && model.fs.handles == old(model).fs.handles - {fd}
    {
      hide *;
      Apart();
      Parts();
      ClosesOne(model.fs, fd);
      PubCloses(model, sid, fd);
      GoesFreely(Event.ClosePub(sid));
      var r := fs.Close(fd);
      Finish(Event.ClosePub(sid));
    }

    // ---------- Subscribers ----------

    /** The rest of box_register_sub, on the box that was found. */
    method RaiseSub(ghost sid: nat, box: Box)
      requires Valid() && Known(boxOf, box) && At(model, sid) == SubFound(box.fileName, box.id)
      requires Admits(model, Event.RaiseSub(sid))
      modifies this`model, this`history, box`subNum
      ensures Valid() && history == old(history) + [Event.RaiseSub(sid)] && model == Step(old(model), Event.RaiseSub(sid))
      ensures At(model, sid) == SubRegistered(box.fileName, box.id)
      ensures box.subNum == old(box.subNum) + 1
    {
      hide *;
      Apart();
      Parts();
      SubRaises(model, sid, box.fileName, box.id);
      Goes(Event.RaiseSub(sid));
      Pointer(box);
      EntriesNamed(boxTable.All());
      EntriesAllocated(boxTable.All());
      box.RaiseSub();
      BoxChanged(box, old(boxTable.View()));
      Finish(Event.RaiseSub(sid));
    }

    /** tfs_open of the box's file, for reading from its start */
    method OpenSub(ghost sid: nat, box: Box) returns (fd: int)
      requires Valid() && At(model, sid) == SubRegistered(box.fileName, box.id)
      modifies this, fs.Repr()
      ensures Valid() && history == old(history) + [Event.OpenSub(sid)] && model == Step(old(model), Event.OpenSub(sid))
      ensures At(model, sid) == if fd == -1 then Ended else SubReady(box.fileName, box.id, fd, [])
      ensures fd == -1 <==> |old(model).fs.handles| == PARAMS.maxOpenFiles
      ensures model.fs.files == old(model).fs.files
      ensures fd != -1 ==> model.fs.handles == old(model).fs.handles[fd := Live(box.fileName, 0)]
    {
      hide *;
      Apart();
      Parts();
      SubOpensAtStart(model, sid, box.fileName, box.id);
      SubOpens(model, sid, box.fileName, box.id);
      GoesFreely(Event.OpenSub(sid));
      fd := fs.Open(PathOf(box.fileName), PLAIN);
      Finish(Event.OpenSub(sid));
    }

    /** tfs_read of one message into the response; 0 sends the thread back to wait. */
    method ReadSub(ghost sid: nat, box: Box, fd: int, ghost got: seq<seq<Byte>>) returns (readd: int, response: seq<Byte>)
      requires Valid() && At(model, sid) == SubReady(box.fileName, box.id, fd, got)
      modifies this, fs.Repr()
      ensures Valid() && history == old(history) + [Event.ReadSub(sid)] && model == Step(old(model), Event.ReadSub(sid))
      ensures At(model, sid) == (if readd == 0 then SubReady(box.fileName, box.id, fd, got)
                                 else if readd == -1 then SubClosing(box.id, fd, got)
                                 else SubSending(box.fileName, box.id, fd, got, response))
      ensures box.id in old(model).sent && |got| <= |Log(old(model).sent[box.id])|
      ensures readd == if |got| == |Log(old(model).sent[box.id])| then 0 else 1024
      ensures readd != 0 ==> response == Log(old(model).sent[box.id])[|got|]
    {
      hide *;
      Apart();
      Parts();
      SubReadsNext(model, sid, box.fileName, box.id, fd, got);
      SubReads(model, sid, box.fileName, box.id, fd, got);
      GoesFreely(Event.ReadSub(sid));
      var bytes;
      readd, bytes := fs.Read(fd, MESSAGE_LEN);
      response := Response(bytes);
      Finish(Event.ReadSub(sid));
    }

    /** What the write to the subscriber's pipe decides: read on, unregister, or close. */
    method Send(ghost sid: nat, box: Box, fd: int, ghost got: seq<seq<Byte>>, response: seq<Byte>, output: PipeOutput)
      returns (goesOn: bool, leaves: bool)
      requires Valid() && At(model, sid) == SubSending(box.fileName, box.id, fd, got, response)
      modifies this`model, this`history
      ensures Valid() && history == old(history) + [Event.Send(sid, output)] && model == Step(old(model), Event.Send(sid, output))
      ensures At(model, sid) == (if goesOn then SubReady(box.fileName, box.id, fd, got + [response])
                                 else if leaves then SubLeaving(box.fileName, box.id, fd, got)
                                 else SubClosing(box.id, fd, got))
      ensures goesOn == output.Delivered? && leaves == output.BrokenPipe?
    {
      hide *;
      Apart();
      Parts();
      SubSends(model, sid, box.fileName, box.id, fd, got, response, output);
      Goes(Event.Send(sid, output));
      goesOn, leaves := output.Delivered?, output.BrokenPipe?;
      Finish(Event.Send(sid, output));
    }

    /** box_unregister_sub, once the subscriber's pipe is broken */
    method UnregisterSub(ghost sid: nat, box: Box, ghost fd: int, ghost got: seq<seq<Byte>>) returns (ret: int)
      requires Valid() && Known(boxOf, box) && At(model, sid) == SubLeaving(box.fileName, box.id, fd, got)
      modifies this, box`subNum
      ensures Valid() && history == old(history) + [Event.UnregisterSub(sid)] && model == Step(old(model), Event.UnregisterSub(sid))
      ensures At(model, sid) == SubEnded(box.id, got) && ret == 0
      ensures old(box.subNum) > 0 && box.subNum == old(box.subNum) - 1 && model.fs == old(model).fs
    {
      hide *;
      Apart();
      Parts();
      SubLeaves(model, sid, box.fileName, box.id, fd, got);
      GoesFreely(Event.UnregisterSub(sid));
      Pointer(box);
      EntriesNamed(boxTable.All());
      EntriesAllocated(boxTable.All());
      ret := box.UnregisterSub();
      BoxChanged(box, old(boxTable.View()));
      Finish(Event.UnregisterSub(sid));
    }

    /** tfs_close after a failed read or write */
    method CloseSub(ghost sid: nat, ghost id: nat, fd: int, ghost got: seq<seq<Byte>>)
      requires Valid() && At(model, sid) == SubClosing(id, fd, got)
      modifies this, fs.Repr()
      ensures Valid() && history == old(history) + [Event.CloseSub(sid)] && model == Step(old(model), Event.CloseSub(sid))
      ensures At(model, sid) == SubEnded(id, got)
      ensures model.fs.files == old(model).fs.files && model.fs.handles == old(model).fs.handles - {fd}
      ensures model.table == old(model).table
    {
      hide *;
      Apart();
      Parts();
      ClosesOne(model.fs, fd);
      SubCloses(model, sid, id, fd, got);
      GoesFreely(Event.CloseSub(sid));
      var r := fs.Close(fd);
      Finish(Event.CloseSub(sid));
    }

    // ---------- Managers ----------

    lemma IdsBelow()
      requires Valid()
      ensures forall box: Box | box in boxTable.All() :: box.id < model.nextId
    {
      hide Consistent, ContentOk, SizesOk, SessionsOk, CountsOk, Tfs.Valid, Tfs.View, BoxTable.Valid, NamesDistinct, Entries;
      var slots := boxTable.All();
      forall box: Box | box in slots
        ensures box.id < model.nextId
      {
        var i :| 0 <= i < |slots| && slots[i] == box;
        EntryAt(slots, i, box.fileName);
      }
    }

    /** manager_create_box up to its box_find */
    method StartCreate(ghost sid: nat, name: BoxName) returns (found: Box?)
      requires Valid() && sid !in model.sessions
      modifies this`model, this`history
      ensures Valid() && history == old(history) + [Event.StartCreate(sid, name)] && model == Step(old(model), Event.StartCreate(sid, name))
      ensures At(model, sid) == if found != null then Answered(Code(-1)) else CreateFound(name)
      ensures found != null <==> name in old(model).table
    {
      hide *;
      Apart();
      Parts();
      CreateStarts(model, sid, name);
      Goes(Event.StartCreate(sid, name));
      found := boxTable.Find(name);
      Finish(Event.StartCreate(sid, name));
    }

    /** tfs_open with TFS_O_CREAT */
    method CreateOpen(ghost sid: nat, name: BoxName) returns (fd: int)
      requires Valid() && At(model, sid) == CreateFound(name)
      modifies this`model, this`history, fs.Repr()
      ensures Valid() && history == old(history) + [Event.CreateOpen(sid)] && model == Step(old(model), Event.CreateOpen(sid))
      ensures At(model, sid) == if fd == -1 then Answered(Code(-1)) else CreateOpened(name, fd)
      ensures fd == -1 <==> (name == [] || |old(model).fs.handles| == PARAMS.maxOpenFiles
                             || (name !in old(model).fs.files && |old(model).fs.files| + 1 == PARAMS.maxInodes))
      ensures fd != -1 ==> model.fs.files == if name in old(model).fs.files then old(model).fs.files else old(model).fs.files[name := []]
    {
      hide *;
      Apart();
      Parts();
      NewFileMade(model, sid, name);
      CreateOpens(model, sid, name);
      Goes(Event.CreateOpen(sid));
      fd := fs.Open(PathOf(name), CREAT);
      Finish(Event.CreateOpen(sid));
    }

    /** tfs_close of the new file; it never fails. */
    method CreateClose(ghost sid: nat, name: BoxName, fd: int) returns (closed: int)
      requires Valid() && At(model, sid) == CreateOpened(name, fd)
      modifies this`model, this`history, fs.Repr()
      ensures Valid() && history == old(history) + [Event.CreateClose(sid)] && model == Step(old(model), Event.CreateClose(sid))
      ensures At(model, sid) == CreateClosed(name) && closed == 0
      ensures model.fs.files == old(model).fs.files && model.fs.handles == old(model).fs.handles - {fd}
    {
      hide *;
      Apart();
      Parts();
      ClosesOne(model.fs, fd);
      CreateCloses(model, sid, name, fd);
      Goes(Event.CreateClose(sid));
      closed := fs.Close(fd);
      Finish(Event.CreateClose(sid));
    }

    /** box_add */
    method AddBox(ghost sid: nat, name: BoxName) returns (returnCode: int)
      requires Valid() && At(model, sid) == CreateClosed(name) && Admits(model, Event.AddBox(sid))
      modifies this, boxTable, boxTable.boxes
      ensures Valid() && history == old(history) + [Event.AddBox(sid)] && model == Step(old(model), Event.AddBox(sid))
      ensures At(model, sid) == Answered(Code(returnCode)) && returnCode == 0 && name in model.table
      ensures model.table == old(model).table[name := BoxState(old(model).nextId, 0, 0, 0)]
    {
      hide *;
      Apart();
      Parts();
      IdsBelow();
      BoxAdds(model, sid, name);
      Goes(Event.AddBox(sid));
      ghost var slots := boxTable.All();
      ghost var box;
      returnCode, box := boxTable.AddNew(name, model.nextId);
      StillKnown(boxOf, slots, boxTable.All(), box);
      boxOf := boxOf[box.id := box];
      Finish(Event.AddBox(sid));
    }

    /** manager_remove_box up to its box_find */
    method StartRemove(ghost sid: nat, name: BoxName) returns (box: Box?)
      requires Valid() && sid !in model.sessions
      modifies this`model, this`history
      ensures Valid() && history == old(history) + [Event.StartRemove(sid, name)] && model == Step(old(model), Event.StartRemove(sid, name))
      ensures box == null ==> At(model, sid) == Answered(Code(-1))
      ensures box != null ==> Known(boxOf, box) && box.fileName == name && At(model, sid) == RemoveFound(name, box.id)
      ensures box == null <==> name !in old(model).table
      ensures box != null ==> box.id == old(model).table[name].id
    {
      hide *;
      Apart();
      Parts();
      RemoveStarts(model, sid, name);
      Goes(Event.StartRemove(sid, name));
      if name in model.table {
        Entry(name);
      }
      box := boxTable.Find(name);
      Finish(Event.StartRemove(sid, name));
    }

    /** The check of the counters; of a box in use the client hears nothing. */
    method CheckBox(ghost sid: nat, box: Box) returns (inUse: bool)
      requires Valid() && Known(boxOf, box) && At(model, sid) == RemoveFound(box.fileName, box.id)
      requires Admits(model, Event.CheckBox(sid))
      modifies this`model, this`history
      ensures Valid() && history == old(history) + [Event.CheckBox(sid)] && model == Step(old(model), Event.CheckBox(sid))
      ensures At(model, sid) == if inUse then Answered(NoReply) else RemoveChecked(box.fileName)
      ensures inUse <==> box.pubNum > 0 || box.subNum > 0
    {
      hide *;
      Apart();
      Parts();
      BoxChecks(model, sid, box.fileName, box.id);
      Goes(Event.CheckBox(sid));
      Pointer(box);
      inUse := box.pubNum > 0 || box.subNum > 0;
      Finish(Event.CheckBox(sid));
    }

    /** tfs_unlink */
    method UnlinkBox(ghost sid: nat, name: BoxName) returns (returnCode: int)
      requires Valid() && At(model, sid) == RemoveChecked(name)
      modifies this`model, this`history, fs.Repr()
      ensures Valid() && history == old(history) + [Event.UnlinkBox(sid)] && model == Step(old(model), Event.UnlinkBox(sid))
      ensures At(model, sid) == if returnCode == -1 then Answered(Code(-1)) else RemoveUnlinked(name)
      ensures returnCode == if name != [] && name in old(model).fs.files then 0 else -1
      ensures model.fs.files == if name == [] then old(model).fs.files else old(model).fs.files - {name}
    {
      hide *;
      Apart();
      Parts();
      FileGone(model, sid, name);
      BoxUnlinks(model, sid, name);
      Goes(Event.UnlinkBox(sid));
      returnCode := fs.Unlink(PathOf(name));
      Finish(Event.UnlinkBox(sid));
    }

    /** box_remove */
    method DropBox(ghost sid: nat, name: BoxName) returns (returnCode: int)
      requires Valid() && At(model, sid) == RemoveUnlinked(name)
      modifies this`model, this`history, boxTable`size, boxTable`numElem, boxTable.boxes
      ensures Valid() && history == old(history) + [Event.DropBox(sid)] && model == Step(old(model), Event.DropBox(sid))
      ensures At(model, sid) == Answered(Code(returnCode)) && returnCode == if name in old(model).table then 0 else -1
      ensures model.table == old(model).table - {name}
    {
      hide *;
      Apart();
      Parts();
      BoxDrops(model, sid, name);
      Goes(Event.DropBox(sid));
      ghost var slots := boxTable.All();
      returnCode := boxTable.RemoveOnly(name);
      FewerKnown(boxOf, slots, boxTable.All());
      Finish(Event.DropBox(sid));
    }

    // ---------- Listing ----------

    /** The slots in use are laid out as the model's table, as `ListedDuringRun` asks. */
    lemma TableIsLaidOut()
      requires Valid()
      ensures boxTable.size <= |boxTable.All()|
      ensures LaidOut(PlacesOf(boxTable.All()[..boxTable.size]), model)
    {
      hide Inv, Run, Guarded, Tfs.Valid, Tfs.View, Occupied, Entries, NamesDistinct;
      Parts();
      UsedSlotsAreAll();
      SlotsLaidOut(boxTable.All()[..boxTable.size], model);
    }

    /** The first section: a table without boxes is announced at once. */
    method HasBoxes() returns (some: bool)
      requires Valid()
      ensures some <==> model.table != map[]
    {
      hide *;
      Parts();
      UsedSlotsAreAll();
      OccupiedCountsEntries(boxTable.All()[..boxTable.size]);
      NumElemIs();
      some := boxTable.numElem != 0;
    }

    lemma NumElemIs()
      requires boxTable.Valid() && NamesDistinct(boxTable.All()) && boxTable.View() == model.table
      requires NamesDistinct(boxTable.All()[..boxTable.size])
      requires States(boxTable.All()[..boxTable.size]) == States(boxTable.All())
      ensures boxTable.numElem == Occupied(boxTable.All()[..boxTable.size])
      ensures Entries(boxTable.All()[..boxTable.size]).Keys == model.table.Keys
    {
      hide Occupied, Entries, NamesDistinct;
    }

    /** One turn of the loop: the slot's record has the fields its box has at this step. */
    method ListSlot(i: nat) returns (records: seq<seq<Byte>>)
      requires Valid() && i < boxTable.size
      ensures boxTable.size <= |boxTable.All()|
      ensures records == Listing.RecordOf(SlotIn(PlaceOf(boxTable.All()[i]), model), i == boxTable.size - 1)
    {
      hide Inv, Run, Guarded, Tfs.Valid, Tfs.View, Occupied, Entries, NamesDistinct;
      Parts();
      var box := boxTable.boxes[i];
      records := [];
      if box != null {
        SlotIsEntry(boxTable.All(), i, model.table);
        var last := i == boxTable.size - 1;
        records := [Wire.Record(last, Wire.BoxInfo(box.fileName, box.size, box.pubNum, box.subNum))];
      }
    }

    /**
     manager_list_box with no other thread in between: the occupied slots in order, every box of the table announced once with
     its fields; the client stops at the last record exactly if the top slot is occupied.
     */
    method List() returns (wire: seq<seq<Byte>>)
      requires Valid()
      requires forall n | n in model.table :: model.table[n].subNum < SIZE_T_RANGE
      ensures boxTable.size <= |boxTable.All()|
      ensures wire == Listing.Sent(Listing.Snapshot(boxTable.All()[..boxTable.size]))
      ensures forall n | n in model.table :: Listing.Announced(wire, n, model.table[n])
      ensures model.table != map[] ==>
                && |wire| == |model.table| && boxTable.size > 0
                && Listing.StopsAt(wire) == if boxTable.All()[boxTable.size - 1] != null then |wire| - 1 else -1
    {
      hide *;
      Apart();
      Parts();
      wire := Listing.ListBoxes(boxTable);
      TableIsListed();
    }

    lemma TableIsListed()
      requires Valid()
      requires forall n | n in model.table :: model.table[n].subNum < SIZE_T_RANGE
      ensures boxTable.size <= |boxTable.All()|
      ensures var wire := Listing.Sent(Listing.Snapshot(boxTable.All()[..boxTable.size]));
              && (forall n | n in model.table :: Listing.Announced(wire, n, model.table[n]))
              && (model.table != map[] ==>
                    && |wire| == |model.table| && boxTable.size > 0
                    && Listing.StopsAt(wire) == if boxTable.All()[boxTable.size - 1] != null then |wire| - 1 else -1)
    {
      hide *;
      Parts();
      forall n: BoxName | n in model.table
        ensures model.table[n].size < SIZE_T_RANGE && model.table[n].pubNum < SIZE_T_RANGE
      {
        CountersFit(model, n);
      }
      UsedSlotsAreAll();
      if model.table != map[] {
        Listing.WireIsTable(boxTable.All()[..boxTable.size]);
        Listing.TableStopsExactly(boxTable.All()[..boxTable.size]);
      }
    }

    lemma UsedSlotsAreAll()
      requires boxTable.Valid() && NamesDistinct(boxTable.All())
      ensures boxTable.size <= |boxTable.All()| && NamesDistinct(boxTable.All()[..boxTable.size])
      ensures States(boxTable.All()[..boxTable.size]) == States(boxTable.All())
    {
      hide NamesDistinct, Entries, Named, Occupied;
      var slots, size := boxTable.All(), boxTable.size;
      EntriesExtended(slots[..size], slots[size..]);
      assert slots[..size] + slots[size..] == slots;
    }
  }

  lemma ReprHolds(fs: Tfs)
    ensures allocated(fs.Repr())
    ensures fs in fs.Repr() && fs.freeInodeTs in fs.Repr() && fs.inodeTable in fs.Repr()
    ensures fs.freeBlocks in fs.Repr() && fs.dirEntries in fs.Repr()
  {
  }

  lemma StillKnown(boxOf: map<nat, Box>, slots: Slots, slots': Slots, box: Box)
    requires AllKnown(boxOf, slots) && forall b: Box | b in slots :: b.id != box.id
    requires forall b: Box | b in slots' :: b == box || b in slots
    ensures AllKnown(boxOf[box.id := box], slots')
  {
  }

  lemma FewerKnown(boxOf: map<nat, Box>, slots: Slots, slots': Slots)
    requires AllKnown(boxOf, slots) && forall b: Box | b in slots' :: b in slots
    ensures AllKnown(boxOf, slots')
  {
  }

  lemma MessageFits(m: Message)
    ensures |m| <= PTRDIFF_MAX
  {
  }

  lemma ParamsFit()
    ensures PARAMS.Valid() && 0 < PARAMS.maxInodes && 0 < PARAMS.maxBlocks
  {
  }

  function PlaceOf(box: Box?): Place {
    if box == null then Vacant else HeldBy(box.fileName)
  }

  function PlacesOf(slots: Slots): seq<Place> {
    seq(|slots|, i requires 0 <= i < |slots| => PlaceOf(slots[i]))
  }

  lemma SlotsLaidOut(slots: Slots, b: Broker)
    requires NamesDistinct(slots) && States(slots) == b.table
    ensures LaidOut(PlacesOf(slots), b)
  {
    hide Entries, NamesDistinct;
    PlacesDistinct(slots);
    forall i | 0 <= i < |slots| && slots[i] != null
      ensures slots[i].fileName in b.table
    {
      EntryAt(slots, i, slots[i].fileName);
    }
    forall n: BoxName | n in b.table
      ensures HeldBy(n) in PlacesOf(slots)
    {
      var i := EntrySlot(slots, n);
      assert PlacesOf(slots)[i] == HeldBy(n);
    }
  }

  lemma PlacesDistinct(slots: Slots)
    requires NamesDistinct(slots)
    ensures forall i, j | 0 <= i < j < |slots| && PlacesOf(slots)[i].HeldBy? :: PlacesOf(slots)[i] != PlacesOf(slots)[j]
  {
  }

  lemma SlotIsEntry(slots: Slots, i: nat, table: map<BoxName, BoxState>)
    requires NamesDistinct(slots) && States(slots) == table && i < |slots| && slots[i] != null
    ensures var box: Box := slots[i];
            box.fileName in table && table[box.fileName] == BoxState(box.id, box.pubNum, box.subNum, box.size)
  {
    hide Entries;
    EntryAt(slots, i, slots[i].fileName);
  }

  lemma NothingRun()
    ensures Guarded([]) && Run([]) == Initial()
  {
    hide Inv;
  }

  lemma InitialIsEmpty(slots: Slots)
    requires slots == seq(TABLE_STARTING_CAPACITY, _ => null)
    ensures NamesDistinct(slots) && States(slots) == map[] && AllKnown(map[], slots)
    ensures Initial().fs == Fs(map[], map[]) && Initial().table == map[]
  {
  }
}
