/**
 The message broker as a transition system over the file system of `FsSpec`. A session
 is a program counter with what its thread holds; an event is one step of one thread.
 Each `tfs_*` call is a step, and so is each region under the table's mutex or a box's
 mutex: between any two of them the steps of other threads may come.
 */
module BrokerModel {
  import opened CStrings
  import opened FsSpec
  import opened Sizes
  import opened Boxes

  // the parameters the broker passes to tfs_init
  const PARAMS := Params(64, 1024, 16, 102400)
  const LOG_LEN: nat := 100
  const PUBLISHED: Byte := 9

  type Message = m: seq<Byte> | |m| == MESSAGE_LEN witness seq(MESSAGE_LEN, _ => NUL)

  /** What a manager's client gets: a return code, or nothing at all. */
  datatype Reply = Code(returnCode: int) | NoReply

  datatype Session =
    // a publisher's thread
    | PubStarting(name: BoxName)
    | PubFound(name: BoxName, id: nat)
    | PubRegistered(name: BoxName, id: nat)
    | PubReady(name: BoxName, id: nat, fd: int)
    | PubCounting(name: BoxName, id: nat, fd: int, wrote: nat)
    | PubClosing(fd: int)
    // a subscriber's thread; `got` is what it has delivered
    | SubStarting(name: BoxName)
    | SubFound(name: BoxName, id: nat)
    | SubRegistered(name: BoxName, id: nat)
    | SubReady(name: BoxName, id: nat, fd: int, got: seq<seq<Byte>>)
    | SubSending(name: BoxName, id: nat, fd: int, got: seq<seq<Byte>>, response: seq<Byte>)
    | SubLeaving(name: BoxName, id: nat, fd: int, got: seq<seq<Byte>>)
    | SubClosing(id: nat, fd: int, got: seq<seq<Byte>>)
    | SubEnded(id: nat, got: seq<seq<Byte>>)
    // a manager's thread that creates a box, after box_find returned NULL
    | CreateFound(name: BoxName)
    | CreateOpened(name: BoxName, fd: int)
    | CreateClosed(name: BoxName)
    // a manager's thread that removes a box: found it, found it unused, unlinked its file
    | RemoveFound(name: BoxName, id: nat)
    | RemoveChecked(name: BoxName)
    | RemoveUnlinked(name: BoxName)
    | Answered(reply: Reply)
    | Ended
    // beyond what is followed here: used a box after it was freed, or added a second box of a name
    | Astray

  /** `sent` keeps, for every box there ever was, the messages its publishers passed to tfs_write. */
  datatype Broker = Broker(
    fs: Fs, table: map<BoxName, BoxState>, sessions: map<nat, Session>,
    sent: map<nat, seq<Message>>, nextId: nat)

  /** What a read from a publisher's pipe returns. */
  datatype PipeInput = Packet(code: Byte, payload: Message) | OneByte(code: Byte) | EndOfStream | ReadError

  /** What a write to a subscriber's pipe returns. */
  datatype PipeOutput = Delivered | BrokenPipe | WriteError

  datatype Event =
    | StartPublisher(sid: nat, name: BoxName) | StartSubscriber(sid: nat, name: BoxName)
    | FindForPub(sid: nat) | RaisePub(sid: nat) | OpenPub(sid: nat)
    | Receive(sid: nat, input: PipeInput) | Count(sid: nat) | ClosePub(sid: nat)
    | FindForSub(sid: nat) | RaiseSub(sid: nat) | OpenSub(sid: nat)
    | ReadSub(sid: nat) | Send(sid: nat, output: PipeOutput) | UnregisterSub(sid: nat) | CloseSub(sid: nat)
    | StartCreate(sid: nat, name: BoxName) | CreateOpen(sid: nat) | CreateClose(sid: nat) | AddBox(sid: nat)
    | StartRemove(sid: nat, name: BoxName) | CheckBox(sid: nat) | UnlinkBox(sid: nat) | DropBox(sid: nat)

  // ---------- Sessions ----------

  /** Registered with a box, and going to use its file. */
  predicate IsLivePub(s: Session) { s.PubRegistered? || s.PubReady? || s.PubCounting? }

  predicate IsLiveSub(s: Session) { s.SubRegistered? || s.SubReady? || s.SubSending? || s.SubLeaving? }

  predicate HasFd(s: Session) {
    || s.PubReady? || s.PubCounting? || s.PubClosing? || s.SubReady? || s.SubSending? || s.SubLeaving? || s.SubClosing?
    || s.CreateOpened?
  }

  /** A manager saw the box unused and is about to remove it. */
  predicate IsRemoving(s: Session) { s.RemoveChecked? || s.RemoveUnlinked? }

  function At(b: Broker, sid: nat): Session {
    if sid in b.sessions then b.sessions[sid] else Ended
  }

  function Goto(b: Broker, sid: nat, s: Session): Broker {
    b.(sessions := b.sessions[sid := s])
  }

  /** "/" followed by the box name. */
  function PathOf(name: CString): CharPtr {
    Str([SLASH] + name)
  }

  // ---------- The log of a box ----------

  /** The messages that fit in the box's file. */
  function Log(sent: seq<Message>): seq<Message> {
    sent[..Min(|sent|, LOG_LEN)]
  }

  function Flat(messages: seq<Message>): (bytes: seq<Byte>)
    ensures |bytes| == MESSAGE_LEN * |messages|
  {
    if messages == [] then [] else Flat(messages[..|messages| - 1]) + messages[|messages| - 1]
  }

  // ---------- The invariant ----------

  ghost predicate Counting(sessions: map<nat, Session>, n: CString) {
    exists sid :: sid in sessions && sessions[sid].PubCounting? && sessions[sid].name == n
  }

  ghost predicate BeingRemoved(sessions: map<nat, Session>, n: CString) {
    exists sid :: sid in sessions && IsRemoving(sessions[sid]) && sessions[sid].name == n
  }

  /** The file of box `n` is unlinked, or about to lose its box. */
  ghost predicate Unlinked(sessions: map<nat, Session>, n: CString) {
    exists sid :: sid in sessions && sessions[sid].RemoveUnlinked? && sessions[sid].name == n
  }

  ghost predicate TableOk(b: Broker) {
    && (forall n | n in b.table ::
          n != [] && b.table[n].id < b.nextId && b.table[n].pubNum <= 1 && b.table[n].size <= MESSAGE_LEN * LOG_LEN)
    && (forall n, m | n in b.table && m in b.table && b.table[n].id == b.table[m].id :: n == m)
    && (forall id :: id in b.sent <==> 0 <= id < b.nextId)
  }

  /** A box's file holds its log; a file without a box is empty. */
  ghost predicate ContentOk(b: Broker)
    requires TableOk(b)
  {
    && (forall n | n in b.table && !Unlinked(b.sessions, n) ::
          n in b.fs.files && b.fs.files[n] == Flat(Log(b.sent[b.table[n].id])))
    && (forall n: CString | n in b.fs.files && n !in b.table :: b.fs.files[n] == [])
  }

  ghost predicate UsesBox(b: Broker, s: Session) {
    IsLivePub(s) || IsLiveSub(s) ==> Present(b, s.name, s.id)
  }

  /** The box a thread found is still in the table. */
  predicate Present(b: Broker, n: CString, id: nat) {
    n in b.table && b.table[n].id == id
  }

  /** What a session's thread may rely on at its program counter. */
  ghost predicate SessionOk(b: Broker, s: Session) {
    && UsesBox(b, s)
    && (HasFd(s) ==> s.fd in b.fs.handles)
    && match s
       case PubReady(n, id, fd) =>
         n in b.fs.files && b.fs.handles[fd] == Live(n, |b.fs.files[n]|)
       case PubCounting(n, id, fd, wrote) =>
         && n in b.fs.files && b.fs.handles[fd] == Live(n, |b.fs.files[n]|)
         && b.table[n].size + wrote == |b.fs.files[n]|
       case SubReady(n, id, fd, got) =>
         id in b.sent && got <= Log(b.sent[id]) && b.fs.handles[fd] == Live(n, MESSAGE_LEN * |got|)
       case SubSending(n, id, fd, got, response) =>
         && id in b.sent && got + [response] <= Log(b.sent[id])
         && b.fs.handles[fd] == Live(n, MESSAGE_LEN * (|got| + 1))
       case SubLeaving(n, id, fd, got) => id in b.sent && got <= Log(b.sent[id])
       case SubClosing(id, fd, got) => id in b.sent && got <= Log(b.sent[id])
       case SubEnded(id, got) => id in b.sent && got <= Log(b.sent[id])
       case CreateOpened(n, fd) => n != []
       case CreateClosed(n) => n != []
       case Astray => false
       case _ => true
  }

  ghost predicate SessionsOk(b: Broker) {
    && (forall sid | sid in b.sessions :: SessionOk(b, b.sessions[sid]))
    && (forall p, q | p in b.sessions && q in b.sessions && HasFd(b.sessions[p]) && HasFd(b.sessions[q])
          && b.sessions[p].fd == b.sessions[q].fd :: p == q)
  }

  predicate PubOn(s: Session, n: CString) { IsLivePub(s) && s.name == n }

  predicate SubOn(s: Session, n: CString) { IsLiveSub(s) && s.name == n }

  ghost function LivePubs(sessions: map<nat, Session>, n: CString): set<nat> {
    set sid | sid in sessions && PubOn(sessions[sid], n)
  }

  ghost function LiveSubs(sessions: map<nat, Session>, n: CString): set<nat> {
    set sid | sid in sessions && SubOn(sessions[sid], n)
  }

  /** The counters bound the live sessions; error paths may leave them too high, never too low. */
  ghost predicate CountsOk(b: Broker) {
    forall n | n in b.table ::
      |LivePubs(b.sessions, n)| <= b.table[n].pubNum && |LiveSubs(b.sessions, n)| <= b.table[n].subNum
  }

  /** The size field lags behind the file only while a publisher is between write and count. */
  ghost predicate SizesOk(b: Broker) {
    forall n | n in b.table && !Unlinked(b.sessions, n) && !Counting(b.sessions, n) ::
      n in b.fs.files && b.table[n].size == |b.fs.files[n]|
  }

  /** A box that is being removed has stayed unused; a file made anew under it is empty. */
  ghost predicate RemovalsOk(b: Broker) {
    && (forall n | n in b.table && BeingRemoved(b.sessions, n) :: b.table[n].pubNum == b.table[n].subNum == 0)
    && (forall n: CString | n in b.fs.files && Unlinked(b.sessions, n) :: b.fs.files[n] == [])
  }

  ghost predicate Inv(b: Broker) {
    && Consistent(PARAMS, b.fs) && TableOk(b) && ContentOk(b) && SessionsOk(b) && CountsOk(b) && SizesOk(b)
    && RemovalsOk(b)
  }

  // ---------- Steps ----------

  function Initial(): Broker {
    Broker(Fs(map[], map[]), map[], map[], map[], 0)
  }

  function UpdateBox(b: Broker, n: BoxName, box: BoxState): Broker {
    b.(table := b.table[n := box])
  }

  /** box_find */
  function StepFind(b: Broker, sid: nat, n: BoxName): Broker {
    var found := At(b, sid);
    Goto(b, sid, if n !in b.table then Ended
                 else if found.PubStarting? then PubFound(n, b.table[n].id) else SubFound(n, b.table[n].id))
  }

  /** The rest of box_register_pub, under the mutex of the box that was found. */
  function StepRaisePub(b: Broker, sid: nat, n: BoxName, id: nat): Broker {
    if !Present(b, n, id) then Goto(b, sid, Astray)
    else if b.table[n].pubNum == 1 then Goto(b, sid, Ended)
    else Goto(UpdateBox(b, n, b.table[n].(pubNum := b.table[n].pubNum + 1)), sid, PubRegistered(n, id))
  }

  /** The rest of box_register_sub. */
  function StepRaiseSub(b: Broker, sid: nat, n: BoxName, id: nat): Broker {
    if !Present(b, n, id) then Goto(b, sid, Astray)
    else Goto(UpdateBox(b, n, b.table[n].(subNum := b.table[n].subNum + 1)), sid, SubRegistered(n, id))
  }

  const APPEND := OpenMode(false, false, true)
  const PLAIN := OpenMode(false, false, false)
  const CREAT := OpenMode(true, false, false)

  ghost function StepOpenPub(b: Broker, sid: nat, n: BoxName, id: nat): Broker {
    var (fs, fd) := Open(PARAMS, b.fs, PathOf(n), APPEND);
    Goto(b.(fs := fs), sid, if fd == -1 then Ended else PubReady(n, id, fd))
  }

  ghost function StepOpenSub(b: Broker, sid: nat, n: BoxName, id: nat): Broker {
    var (fs, fd) := Open(PARAMS, b.fs, PathOf(n), PLAIN);
    Goto(b.(fs := fs), sid, if fd == -1 then Ended else SubReady(n, id, fd, []))
  }

  /** One turn of the publisher's read loop, up to and including tfs_write. */
  ghost function StepReceive(b: Broker, sid: nat, input: PipeInput): Broker
    requires Inv(b) && At(b, sid).PubReady?
  {
    var PubReady(n, id, fd) := At(b, sid);
    assert SessionOk(b, At(b, sid));
    match input
    case EndOfStream =>
      // box_unregister_pub; the file is still open
      assert n in b.table;
      var box := b.table[n];
      if box.pubNum == 0 then Goto(b, sid, Ended)
      else Goto(UpdateBox(b, n, box.(pubNum := box.pubNum - 1)), sid, PubClosing(fd))
    case ReadError => Goto(b, sid, PubClosing(fd))
    case OneByte(code) => if code != PUBLISHED then Goto(b, sid, PubClosing(fd)) else b
    case Packet(code, payload) =>
      if code != PUBLISHED then Goto(b, sid, PubClosing(fd))
      else
        assert IsLive(b.fs, fd);
        var (fs, wrote) := Write(PARAMS, b.fs, fd, payload);
        if wrote < 0 then Goto(b.(fs := fs), sid, PubClosing(fd))
        else
          assert id in b.sent;
          Goto(b.(fs := fs, sent := b.sent[id := b.sent[id] + [payload]]), sid, PubCounting(n, id, fd, wrote))
  }

  /** box->size += wrote */
  function StepCount(b: Broker, sid: nat): Broker
    requires Inv(b) && At(b, sid).PubCounting?
  {
    var PubCounting(n, id, fd, wrote) := At(b, sid);
    assert SessionOk(b, At(b, sid));
    Goto(UpdateBox(b, n, b.table[n].(size := b.table[n].size + wrote)), sid, PubReady(n, id, fd))
  }

  /** The buffer handed to the subscriber's pipe: what was read, over zeros. */
  function Response(bytes: seq<Byte>): seq<Byte> {
    bytes + seq(if |bytes| < MESSAGE_LEN then MESSAGE_LEN - |bytes| else 0, _ => NUL)
  }

  ghost function StepReadSub(b: Broker, sid: nat): Broker
    requires Inv(b) && At(b, sid).SubReady?
  {
    var SubReady(n, id, fd, got) := At(b, sid);
    assert SessionOk(b, At(b, sid)) && IsLive(b.fs, fd);
    var (fs, r, bytes) := Read(PARAMS, b.fs, fd, MESSAGE_LEN);
    // nothing to read: the thread waits and tries again
    if r == 0 then b.(fs := fs)
    else if r == -1 then Goto(b.(fs := fs), sid, SubClosing(id, fd, got))
    else Goto(b.(fs := fs), sid, SubSending(n, id, fd, got, Response(bytes)))
  }

  function StepSend(b: Broker, sid: nat, output: PipeOutput): Broker
    requires At(b, sid).SubSending?
  {
    var SubSending(n, id, fd, got, response) := At(b, sid);
    match output
    case Delivered => Goto(b, sid, SubReady(n, id, fd, got + [response]))
    case BrokenPipe => Goto(b, sid, SubLeaving(n, id, fd, got))
    case WriteError => Goto(b, sid, SubClosing(id, fd, got))
  }

  /** box_unregister_sub; the handle is never closed. */
  function StepUnregisterSub(b: Broker, sid: nat): Broker
    requires Inv(b) && At(b, sid).SubLeaving?
  {
    var SubLeaving(n, id, fd, got) := At(b, sid);
    assert SessionOk(b, At(b, sid));
    var box := b.table[n];
    Goto(if box.subNum == 0 then b else UpdateBox(b, n, box.(subNum := box.subNum - 1)), sid, SubEnded(id, got))
  }

  // ---------- Managers ----------

  /** manager_create_box up to its box_find */
  function StepStartCreate(b: Broker, sid: nat, n: BoxName): Broker {
    Goto(b, sid, if n in b.table then Answered(Code(-1)) else CreateFound(n))
  }

  ghost function StepCreateOpen(b: Broker, sid: nat, n: BoxName): Broker {
    var (fs, fd) := Open(PARAMS, b.fs, PathOf(n), CREAT);
    Goto(b.(fs := fs), sid, if fd == -1 then Answered(Code(-1)) else CreateOpened(n, fd))
  }

  ghost function StepCreateClose(b: Broker, sid: nat, n: BoxName, fd: int): Broker {
    var (fs, closed) := Close(b.fs, fd);
    Goto(b.(fs := fs), sid, if closed == -1 then Answered(Code(-1)) else CreateClosed(n))
  }

  /** box_add */
  function StepAddBox(b: Broker, sid: nat, n: BoxName): Broker {
    if n in b.table then Goto(b, sid, Astray)
    else
      Goto(b.(table := b.table[n := BoxState(b.nextId, 0, 0, 0)], sent := b.sent[b.nextId := []], nextId := b.nextId + 1),
           sid, Answered(Code(0)))
  }

  /** manager_remove_box up to its box_find */
  function StepStartRemove(b: Broker, sid: nat, n: BoxName): Broker {
    Goto(b, sid, if n in b.table then RemoveFound(n, b.table[n].id) else Answered(Code(-1)))
  }

  /** The check under the box's mutex; a box in use is left alone, and the client without an answer. */
  function StepCheckBox(b: Broker, sid: nat, n: BoxName, id: nat): Broker {
    Goto(b, sid, if !Present(b, n, id) then Astray
                 else if b.table[n].pubNum > 0 || b.table[n].subNum > 0 then Answered(NoReply)
                 else RemoveChecked(n))
  }

  ghost function StepUnlinkBox(b: Broker, sid: nat, n: BoxName): Broker {
    var (fs, r) := Unlink(b.fs, PathOf(n));
    Goto(b.(fs := fs), sid, if r == -1 then Answered(Code(-1)) else RemoveUnlinked(n))
  }

  /** box_remove */
  function StepDropBox(b: Broker, sid: nat, n: BoxName): Broker {
    Goto(b.(table := b.table - {n}), sid, Answered(Code(if n in b.table then 0 else -1)))
  }

  /** An event whose session is not at the right place changes nothing. */
  ghost function Step(b: Broker, ev: Event): Broker
    requires Inv(b)
  {
    var s := At(b, ev.sid);
    match ev
    case StartPublisher(sid, n) => if sid in b.sessions then b else Goto(b, sid, PubStarting(n))
    case StartSubscriber(sid, n) => if sid in b.sessions then b else Goto(b, sid, SubStarting(n))
    case FindForPub(sid) => if s.PubStarting? then StepFind(b, sid, s.name) else b
    case RaisePub(sid) => if s.PubFound? then StepRaisePub(b, sid, s.name, s.id) else b
    case OpenPub(sid) => if s.PubRegistered? then StepOpenPub(b, sid, s.name, s.id) else b
    case Receive(sid, input) => if s.PubReady? then StepReceive(b, sid, input) else b
    case Count(sid) => if s.PubCounting? then StepCount(b, sid) else b
    case ClosePub(sid) => if s.PubClosing? then Goto(b.(fs := Close(b.fs, s.fd).0), sid, Ended) else b
    case FindForSub(sid) => if s.SubStarting? then StepFind(b, sid, s.name) else b
    case RaiseSub(sid) => if s.SubFound? then StepRaiseSub(b, sid, s.name, s.id) else b
    case OpenSub(sid) => if s.SubRegistered? then StepOpenSub(b, sid, s.name, s.id) else b
    case ReadSub(sid) => if s.SubReady? then StepReadSub(b, sid) else b
    case Send(sid, output) => if s.SubSending? then StepSend(b, sid, output) else b
    case UnregisterSub(sid) => if s.SubLeaving? then StepUnregisterSub(b, sid) else b
    case CloseSub(sid) => if s.SubClosing? then Goto(b.(fs := Close(b.fs, s.fd).0), sid, SubEnded(s.id, s.got)) else b
    case StartCreate(sid, n) => if sid in b.sessions then b else StepStartCreate(b, sid, n)
    case CreateOpen(sid) => if s.CreateFound? then StepCreateOpen(b, sid, s.name) else b
    case CreateClose(sid) => if s.CreateOpened? then StepCreateClose(b, sid, s.name, s.fd) else b
    case AddBox(sid) => if s.CreateClosed? then StepAddBox(b, sid, s.name) else b
    case StartRemove(sid, n) => if sid in b.sessions then b else StepStartRemove(b, sid, n)
    case CheckBox(sid) => if s.RemoveFound? then StepCheckBox(b, sid, s.name, s.id) else b
    case UnlinkBox(sid) => if s.RemoveChecked? then StepUnlinkBox(b, sid, s.name) else b
    case DropBox(sid) => if s.RemoveUnlinked? then StepDropBox(b, sid, s.name) else b
  }

  // ---------- What the code does not exclude ----------

  /**
   The interleavings the broker survives. A thread that found a box uses it only while the
   box is still there, and registers only while no manager is between its check and
   box_remove; a manager adds its box only if there is none of that name, and its file is.
   */
  ghost predicate Admits(b: Broker, ev: Event) {
    var s := At(b, ev.sid);
    match ev
    case RaisePub(_) =>
      s.PubFound? ==> Present(b, s.name, s.id) && (b.table[s.name].pubNum != 1 ==> !BeingRemoved(b.sessions, s.name))
    case RaiseSub(_) => s.SubFound? ==> Present(b, s.name, s.id) && !BeingRemoved(b.sessions, s.name)
    case CheckBox(_) => s.RemoveFound? ==> Present(b, s.name, s.id)
    case AddBox(_) =>
      s.CreateClosed? ==> s.name !in b.table && (s.name in b.fs.files || Unlinked(b.sessions, s.name))
    case _ => true
  }
}
