/** Every step the broker admits keeps its invariant; `BrokerRaces` says what the other steps lead to. */
module BrokerSafety {
  import opened CStrings
  import opened Finite
  import opened FsSpec
  import opened Sizes
  import opened Boxes
  import opened FsLaws
  import opened BrokerModel

  // ---------- Logs and their bytes ----------

  lemma LogExtended(sent: seq<Message>, m: Message)
    ensures Log(sent) <= Log(sent + [m])
    ensures Log(sent + [m]) == if |sent| < LOG_LEN then Log(sent) + [m] else Log(sent)
  {
    if |sent| < LOG_LEN {
      assert Log(sent) == sent && Log(sent + [m]) == sent + [m];
    }
  }

  lemma FlatExtended(messages: seq<Message>, m: Message)
    ensures Flat(messages + [m]) == Flat(messages) + m
  {
    assert (messages + [m])[..|messages|] == messages;
  }

  /** Message `k` is the k-th slice of 1024 bytes. */
  lemma {:induction false} FlatSlice(messages: seq<Message>, k: nat)
    requires k < |messages|
    ensures MESSAGE_LEN * k + MESSAGE_LEN <= |Flat(messages)|
    ensures Flat(messages)[MESSAGE_LEN * k..MESSAGE_LEN * k + MESSAGE_LEN] == messages[k]
    decreases |messages|
  {
    var front := messages[..|messages| - 1];
    if k < |front| {
      FlatSlice(front, k);
      assert Flat(messages)[..|Flat(front)|] == Flat(front);
    }
  }

  lemma PathIs(n: CString)
    ensures ValidPathname(PathOf(n)) <==> n != []
    ensures n != [] ==> BaseName(PathOf(n)) == n
  {
    var path := PathOf(n).chars;
    assert path[0] == SLASH && path[1..] == n;
  }

  // ---------- One session moves ----------

  predicate NeedsHandle(s: Session) {
    s.PubReady? || s.PubCounting? || s.SubReady? || s.SubSending?
  }

  /** What a session that does not move must find unchanged. */
  lemma SessionKept(b: Broker, b': Broker, s: Session)
    requires SessionOk(b, s)
    requires forall id | id in b.sent :: id in b'.sent && Log(b.sent[id]) <= Log(b'.sent[id])
    requires IsLivePub(s) || IsLiveSub(s) ==> s.name in b'.table && b'.table[s.name].id == b.table[s.name].id
    requires HasFd(s) ==> s.fd in b'.fs.handles
    requires NeedsHandle(s) ==> b'.fs.handles[s.fd] == b.fs.handles[s.fd]
    requires s.PubReady? || s.PubCounting? ==> s.name in b'.fs.files && |b'.fs.files[s.name]| == |b.fs.files[s.name]|
    requires s.PubCounting? ==> b'.table[s.name].size == b.table[s.name].size
    ensures SessionOk(b', s)
  {
  }

  /** The two parts of the sessions' invariant after session `sid` moved. */
  lemma SessionsMoved(b: Broker, b': Broker, sid: nat, s: Session)
    requires SessionsOk(b) && b'.sessions == b.sessions[sid := s]
    requires forall p | p in b.sessions && p != sid :: SessionOk(b', b.sessions[p])
    requires SessionOk(b', s)
    requires HasFd(s) ==> (HasFd(At(b, sid)) && At(b, sid).fd == s.fd) || s.fd !in b.fs.handles
    ensures SessionsOk(b')
  {
    forall p, q | p in b'.sessions && q in b'.sessions && HasFd(b'.sessions[p]) && HasFd(b'.sessions[q])
                  && b'.sessions[p].fd == b'.sessions[q].fd
      ensures p == q
    {
      assert p != sid ==> SessionOk(b, b.sessions[p]);
      assert q != sid ==> SessionOk(b, b.sessions[q]);
    }
  }

  /** Counts change with the session that moves only. */
  lemma LivePubsMoved(sessions: map<nat, Session>, sid: nat, s: Session, n: CString)
    ensures |LivePubs(sessions[sid := s], n)|
         == |LivePubs(sessions, n)| - (if sid in sessions && PubOn(sessions[sid], n) then 1 else 0)
            + (if PubOn(s, n) then 1 else 0)
  {
    hide PubOn;
    var before, after := LivePubs(sessions, n) - {sid}, LivePubs(sessions[sid := s], n);
    if PubOn(s, n) {
      assert after == before + {sid};
    } else {
      assert after == before;
    }
  }

  lemma LiveSubsMoved(sessions: map<nat, Session>, sid: nat, s: Session, n: CString)
    ensures |LiveSubs(sessions[sid := s], n)|
         == |LiveSubs(sessions, n)| - (if sid in sessions && SubOn(sessions[sid], n) then 1 else 0)
            + (if SubOn(s, n) then 1 else 0)
  {
    hide SubOn;
    var before, after := LiveSubs(sessions, n) - {sid}, LiveSubs(sessions[sid := s], n);
    if SubOn(s, n) {
      assert after == before + {sid};
    } else {
      assert after == before;
    }
  }

  lemma {:induction false} AtMostOne<T>(a: set<T>, x: T, y: T)
    requires |a| <= 1 && x in a && y in a
    ensures x == y
  {
    if x != y {
      SubsetSize({x, y}, a);
    }
  }

  /** A move of one session that was not counting on `n` keeps who is counting. */
  lemma CountingMoved(sessions: map<nat, Session>, sid: nat, s: Session, n: CString)
    requires !(sid in sessions && sessions[sid].PubCounting? && sessions[sid].name == n)
    ensures Counting(sessions, n) ==> Counting(sessions[sid := s], n)
  {
    if Counting(sessions, n) {
      var p :| p in sessions && sessions[p].PubCounting? && sessions[p].name == n;
      assert p in sessions[sid := s] && sessions[sid := s][p] == sessions[p];
    }
  }

  /** A move of one session that removes nothing before or after keeps what is being removed. */
  lemma RemovalsMoved(sessions: map<nat, Session>, sid: nat, s: Session, n: CString)
    requires !(sid in sessions && IsRemoving(sessions[sid])) && !IsRemoving(s)
    ensures BeingRemoved(sessions, n) <==> BeingRemoved(sessions[sid := s], n)
    ensures Unlinked(sessions, n) <==> Unlinked(sessions[sid := s], n)
  {
    var after := sessions[sid := s];
    forall p | p in sessions && IsRemoving(sessions[p])
      ensures p in after && after[p] == sessions[p]
    {
    }
  }

  // ---------- What the invariant says at one place ----------

  lemma AtOk(b: Broker, sid: nat)
    requires Inv(b)
    ensures SessionOk(b, At(b, sid))
  {
    hide Consistent, ContentOk, SizesOk, CountsOk, TableOk, RemovalsOk;
  }

  /** A box that is not being removed has its file, which holds its log. */
  lemma BoxFacts(b: Broker, n: BoxName)
    requires Inv(b) && n in b.table
    ensures n != [] && b.table[n].pubNum <= 1 && b.table[n].size <= MESSAGE_LEN * LOG_LEN && b.table[n].id in b.sent
    ensures |LivePubs(b.sessions, n)| <= b.table[n].pubNum && |LiveSubs(b.sessions, n)| <= b.table[n].subNum
    ensures !Unlinked(b.sessions, n) ==> n in b.fs.files && b.fs.files[n] == Flat(Log(b.sent[b.table[n].id]))
    ensures BeingRemoved(b.sessions, n) ==> b.table[n].pubNum == b.table[n].subNum == 0
  {
    hide Consistent, SizesOk, SessionsOk, LivePubs, LiveSubs, Unlinked, BeingRemoved, Flat, Log;
  }

  lemma LiveIsCounted(b: Broker, sid: nat)
    ensures IsLivePub(At(b, sid)) ==> |LivePubs(b.sessions, At(b, sid).name)| > 0
    ensures IsLiveSub(At(b, sid)) ==> |LiveSubs(b.sessions, At(b, sid).name)| > 0
  {
    if IsLivePub(At(b, sid)) {
      assert sid in LivePubs(b.sessions, At(b, sid).name);
    }
    if IsLiveSub(At(b, sid)) {
      assert sid in LiveSubs(b.sessions, At(b, sid).name);
    }
  }

  lemma UnlinkedIsRemoved(sessions: map<nat, Session>, n: CString)
    ensures Unlinked(sessions, n) ==> BeingRemoved(sessions, n)
  {
  }

  /** A live session's box is in the table, is not being removed, and has its file. */
  lemma LiveFacts(b: Broker, sid: nat)
    requires Inv(b) && (IsLivePub(At(b, sid)) || IsLiveSub(At(b, sid)))
    ensures var n := At(b, sid).name;
            && Present(b, n, At(b, sid).id) && !BeingRemoved(b.sessions, n) && !Unlinked(b.sessions, n)
            && n in b.fs.files && At(b, sid).id in b.sent && b.fs.files[n] == Flat(Log(b.sent[At(b, sid).id]))
            && |b.fs.files[n]| <= MESSAGE_LEN * LOG_LEN
            && (IsLivePub(At(b, sid)) ==> b.table[n].pubNum == 1) && (IsLiveSub(At(b, sid)) ==> b.table[n].subNum > 0)
  {
    hide Inv, LivePubs, LiveSubs, Unlinked, BeingRemoved, Flat;
    AtOk(b, sid);
    BoxFacts(b, At(b, sid).name);
    LiveIsCounted(b, sid);
    UnlinkedIsRemoved(b.sessions, At(b, sid).name);
  }

  /** A box has at most one live publisher. */
  lemma OnlyPublisher(b: Broker, p: nat, q: nat)
    requires Inv(b) && IsLivePub(At(b, p)) && IsLivePub(At(b, q)) && At(b, p).name == At(b, q).name
    ensures p == q
  {
    hide Inv, Unlinked, BeingRemoved, Flat, Log;
    AtOk(b, p);
    var n := At(b, p).name;
    BoxFacts(b, n);
    assert p in LivePubs(b.sessions, n) && q in LivePubs(b.sessions, n);
    AtMostOne(LivePubs(b.sessions, n), p, q);
  }

  lemma PublisherNotCounting(b: Broker, sid: nat)
    requires Inv(b) && At(b, sid).PubReady?
    ensures !Counting(b.sessions, At(b, sid).name)
    ensures var n := At(b, sid).name; n in b.table && n in b.fs.files && b.table[n].size == |b.fs.files[n]|
  {
    hide Consistent, ContentOk, SessionsOk, CountsOk, RemovalsOk, TableOk, Unlinked;
    LiveFacts(b, sid);
    var n := At(b, sid).name;
    if Counting(b.sessions, n) {
      var p :| p in b.sessions && b.sessions[p].PubCounting? && b.sessions[p].name == n;
      assert At(b, p) == b.sessions[p];
      OnlyPublisher(b, p, sid);
    }
  }

  // ---------- Moves that leave the table alone ----------

  /** A session goes on, registered with no more than it was, neither counting nor removing. */
  predicate Narrows(s: Session, s': Session) {
    && !s.PubCounting? && !s'.PubCounting? && !IsRemoving(s) && !IsRemoving(s')
    && (IsLivePub(s') ==> IsLivePub(s) && s.name == s'.name)
    && (IsLiveSub(s') ==> IsLiveSub(s) && s.name == s'.name)
  }

  lemma NarrowCounts(sessions: map<nat, Session>, sid: nat, s: Session, n: CString)
    requires Narrows(if sid in sessions then sessions[sid] else Ended, s)
    ensures |LivePubs(sessions[sid := s], n)| <= |LivePubs(sessions, n)|
    ensures |LiveSubs(sessions[sid := s], n)| <= |LiveSubs(sessions, n)|
    ensures Counting(sessions, n) ==> Counting(sessions[sid := s], n)
    ensures BeingRemoved(sessions, n) <==> BeingRemoved(sessions[sid := s], n)
    ensures Unlinked(sessions, n) <==> Unlinked(sessions[sid := s], n)
  {
    hide LivePubs, LiveSubs, Counting, BeingRemoved, Unlinked;
    LivePubsMoved(sessions, sid, s, n);
    LiveSubsMoved(sessions, sid, s, n);
    CountingMoved(sessions, sid, s, n);
    RemovalsMoved(sessions, sid, s, n);
  }

  /** The files stay, but for a new empty one. */
  predicate FilesMayBecome(files: map<CString, seq<Byte>>, files': map<CString, seq<Byte>>, n: CString) {
    files' == files || (n !in files && files' == files[n := []])
  }

  /** Every handle but the session's own stays; a handle the session gets is its own or new. */
  ghost predicate FsMayBecome(b: Broker, sid: nat, s: Session, fs: Fs, n: CString) {
    && Consistent(PARAMS, fs) && FilesMayBecome(b.fs.files, fs.files, n)
    && (forall h | h in b.fs.handles && !(HasFd(At(b, sid)) && h == At(b, sid).fd) ::
          h in fs.handles && fs.handles[h] == b.fs.handles[h])
    && (HasFd(s) ==> (HasFd(At(b, sid)) && At(b, sid).fd == s.fd) || s.fd !in b.fs.handles)
    && Narrows(At(b, sid), s)
  }

  lemma FsMoveSessions(b: Broker, sid: nat, s: Session, fs: Fs, n: CString)
    requires Inv(b) && FsMayBecome(b, sid, s, fs, n) && SessionOk(Goto(b.(fs := fs), sid, s), s)
    ensures SessionsOk(Goto(b.(fs := fs), sid, s))
  {
    hide Consistent, ContentOk, SizesOk, CountsOk, TableOk, RemovalsOk, Narrows, Log;
    var b' := Goto(b.(fs := fs), sid, s);
    forall p | p in b.sessions && p != sid
      ensures SessionOk(b', b.sessions[p])
    {
      SessionKept(b, b', b.sessions[p]);
    }
    SessionsMoved(b, b', sid, s);
  }

  lemma FsMoveContents(b: Broker, sid: nat, s: Session, fs: Fs, n: CString)
    requires Inv(b) && FsMayBecome(b, sid, s, fs, n)
    ensures var b' := Goto(b.(fs := fs), sid, s); TableOk(b') && ContentOk(b')
  {
    hide Consistent, SessionsOk, CountsOk, SizesOk, RemovalsOk, Unlinked, Flat, Log;
    forall m
      ensures Unlinked(b.sessions, m) <==> Unlinked(b.sessions[sid := s], m)
    {
      RemovalsMoved(b.sessions, sid, s, m);
    }
  }

  lemma FsMoveRemovals(b: Broker, sid: nat, s: Session, fs: Fs, n: CString)
    requires Inv(b) && FsMayBecome(b, sid, s, fs, n)
    ensures RemovalsOk(Goto(b.(fs := fs), sid, s))
  {
    hide Consistent, SessionsOk, CountsOk, SizesOk, TableOk, ContentOk, BeingRemoved, Unlinked;
    forall m
      ensures BeingRemoved(b.sessions, m) <==> BeingRemoved(b.sessions[sid := s], m)
      ensures Unlinked(b.sessions, m) <==> Unlinked(b.sessions[sid := s], m)
    {
      RemovalsMoved(b.sessions, sid, s, m);
    }
  }

  lemma FsMoveCounts(b: Broker, sid: nat, s: Session, fs: Fs, n: CString)
    requires Inv(b) && FsMayBecome(b, sid, s, fs, n)
    ensures var b' := Goto(b.(fs := fs), sid, s); CountsOk(b') && SizesOk(b')
  {
    hide Consistent, SessionsOk, TableOk, ContentOk, RemovalsOk, LivePubs, LiveSubs, Counting, Unlinked, Narrows;
    forall m
      ensures |LivePubs(b.sessions[sid := s], m)| <= |LivePubs(b.sessions, m)|
      ensures |LiveSubs(b.sessions[sid := s], m)| <= |LiveSubs(b.sessions, m)|
      ensures Counting(b.sessions, m) ==> Counting(b.sessions[sid := s], m)
      ensures Unlinked(b.sessions, m) <==> Unlinked(b.sessions[sid := s], m)
    {
      NarrowCounts(b.sessions, sid, s, m);
    }
  }

  lemma FsMoveKeeps(b: Broker, sid: nat, s: Session, fs: Fs, n: CString)
    requires Inv(b) && FsMayBecome(b, sid, s, fs, n) && SessionOk(Goto(b.(fs := fs), sid, s), s)
    ensures Inv(Goto(b.(fs := fs), sid, s))
  {
    hide Consistent, SessionsOk, SessionOk, CountsOk, SizesOk, TableOk, ContentOk, RemovalsOk;
    FsMoveSessions(b, sid, s, fs, n);
    FsMoveContents(b, sid, s, fs, n);
    FsMoveRemovals(b, sid, s, fs, n);
    FsMoveCounts(b, sid, s, fs, n);
  }

  /** A step that only moves the session's program counter. */
  lemma LocalStep(b: Broker, sid: nat, s: Session)
    requires Inv(b) && Narrows(At(b, sid), s) && SessionOk(Goto(b, sid, s), s)
    requires HasFd(s) ==> HasFd(At(b, sid)) && At(b, sid).fd == s.fd
    ensures Inv(Goto(b, sid, s))
  {
    hide SessionsOk, SessionOk, CountsOk, SizesOk, TableOk, ContentOk, RemovalsOk, Narrows;
    assert b.(fs := b.fs) == b;
    assert Consistent(PARAMS, b.fs);
    hide Consistent;
    FsMoveKeeps(b, sid, s, b.fs, []);
  }

  // ---------- Moves that change one box's fields ----------

  /** A new state of one box that the move of a session allows. */
  ghost predicate BoxMayBecome(b: Broker, sid: nat, s: Session, n: BoxName, box: BoxState) {
    && n in b.table && box.id == b.table[n].id && box.pubNum <= 1 && box.size <= MESSAGE_LEN * LOG_LEN
    && (HasFd(s) ==> HasFd(At(b, sid)) && s.fd == At(b, sid).fd)
    && (IsLivePub(At(b, sid)) || IsLiveSub(At(b, sid)) ==> At(b, sid).name == n)
    && (IsLivePub(s) || IsLiveSub(s) ==> s.name == n)
    && |LivePubs(b.sessions, n)| - (if IsLivePub(At(b, sid)) then 1 else 0) + (if IsLivePub(s) then 1 else 0) <= box.pubNum
    && |LiveSubs(b.sessions, n)| - (if IsLiveSub(At(b, sid)) then 1 else 0) + (if IsLiveSub(s) then 1 else 0) <= box.subNum
    && n in b.fs.files && !BeingRemoved(b.sessions, n)
    && box.size == (if At(b, sid).PubCounting? then |b.fs.files[n]| else b.table[n].size)
    && !s.PubCounting? && !IsRemoving(At(b, sid)) && !IsRemoving(s)
  }

  lemma BoxChangeSessions(b: Broker, sid: nat, s: Session, n: BoxName, box: BoxState)
    requires Inv(b) && BoxMayBecome(b, sid, s, n, box)
    requires SessionOk(Goto(UpdateBox(b, n, box), sid, s), s)
    ensures SessionsOk(Goto(UpdateBox(b, n, box), sid, s))
  {
    var b' := Goto(UpdateBox(b, n, box), sid, s);
    forall p | p in b.sessions && p != sid
      ensures SessionOk(b', b.sessions[p])
    {
      OtherKept(b, sid, s, n, box, p);
    }
    hide Consistent, ContentOk, CountsOk, SizesOk, TableOk, RemovalsOk, BoxMayBecome, SessionOk;
    assert HasFd(s) ==> HasFd(At(b, sid)) && s.fd == At(b, sid).fd;
    SessionsMoved(b, b', sid, s);
  }

  lemma OtherKept(b: Broker, sid: nat, s: Session, n: BoxName, box: BoxState, p: nat)
    requires Inv(b) && BoxMayBecome(b, sid, s, n, box) && p in b.sessions && p != sid
    ensures SessionOk(Goto(UpdateBox(b, n, box), sid, s), b.sessions[p])
  {
    hide Inv, LivePubs, LiveSubs, BeingRemoved, Log;
    AtOk(b, p);
    assert At(b, p) == b.sessions[p];
    if b.sessions[p].PubCounting? && At(b, sid).PubCounting? && b.sessions[p].name == n {
      OnlyPublisher(b, p, sid);
    }
    SessionKept(b, Goto(UpdateBox(b, n, box), sid, s), b.sessions[p]);
  }

  lemma BoxChangeCounts(b: Broker, sid: nat, s: Session, n: BoxName, box: BoxState)
    requires Inv(b) && BoxMayBecome(b, sid, s, n, box)
    ensures CountsOk(Goto(UpdateBox(b, n, box), sid, s))
  {
    hide Consistent, ContentOk, SizesOk, LivePubs, LiveSubs, SessionsOk, RemovalsOk, BeingRemoved;
    var b' := Goto(UpdateBox(b, n, box), sid, s);
    forall m | m in b.table
      ensures |LivePubs(b'.sessions, m)| <= b'.table[m].pubNum && |LiveSubs(b'.sessions, m)| <= b'.table[m].subNum
    {
      LivePubsMoved(b.sessions, sid, s, m);
      LiveSubsMoved(b.sessions, sid, s, m);
    }
  }

  lemma BoxChangeRest(b: Broker, sid: nat, s: Session, n: BoxName, box: BoxState)
    requires Inv(b) && BoxMayBecome(b, sid, s, n, box)
    ensures var b' := Goto(UpdateBox(b, n, box), sid, s);
            TableOk(b') && ContentOk(b') && SizesOk(b') && RemovalsOk(b')
  {
    hide Consistent, LivePubs, LiveSubs, SessionsOk, CountsOk, Counting, BeingRemoved, Unlinked, Flat, Log;
    var b' := Goto(UpdateBox(b, n, box), sid, s);
    forall m
      ensures BeingRemoved(b.sessions, m) <==> BeingRemoved(b'.sessions, m)
      ensures Unlinked(b.sessions, m) <==> Unlinked(b'.sessions, m)
      ensures Counting(b.sessions, m) && !(At(b, sid).PubCounting? && m == n) ==> Counting(b'.sessions, m)
    {
      RemovalsMoved(b.sessions, sid, s, m);
      if !(At(b, sid).PubCounting? && m == n) {
        CountingMoved(b.sessions, sid, s, m);
      }
    }
  }

  lemma BoxChangeKeeps(b: Broker, sid: nat, s: Session, n: BoxName, box: BoxState)
    requires Inv(b) && BoxMayBecome(b, sid, s, n, box)
    requires SessionOk(Goto(UpdateBox(b, n, box), sid, s), s)
    ensures Inv(Goto(UpdateBox(b, n, box), sid, s))
  {
    hide Consistent, SessionsOk, SessionOk, CountsOk, SizesOk, TableOk, ContentOk, RemovalsOk;
    BoxChangeSessions(b, sid, s, n, box);
    BoxChangeCounts(b, sid, s, n, box);
    BoxChangeRest(b, sid, s, n, box);
  }

  // ---------- Steps of publishers and subscribers, one by one ----------

  lemma FindKeeps(b: Broker, sid: nat)
    requires Inv(b) && (At(b, sid).PubStarting? || At(b, sid).SubStarting?)
    ensures Inv(StepFind(b, sid, At(b, sid).name))
  {
    hide Inv;
    LocalStep(b, sid, At(StepFind(b, sid, At(b, sid).name), sid));
  }

  lemma RaisePubKeeps(b: Broker, sid: nat)
    requires Inv(b) && At(b, sid).PubFound? && Admits(b, RaisePub(sid))
    ensures Inv(StepRaisePub(b, sid, At(b, sid).name, At(b, sid).id))
  {
    hide Inv, LivePubs, LiveSubs, BeingRemoved;
    var PubFound(n, id) := At(b, sid);
    if b.table[n].pubNum != 1 {
      BoxFacts(b, n);
      UnlinkedIsRemoved(b.sessions, n);
      BoxChangeKeeps(b, sid, PubRegistered(n, id), n, b.table[n].(pubNum := b.table[n].pubNum + 1));
    } else {
      LocalStep(b, sid, Ended);
    }
  }

  lemma RaiseSubKeeps(b: Broker, sid: nat)
    requires Inv(b) && At(b, sid).SubFound? && Admits(b, RaiseSub(sid))
    ensures Inv(StepRaiseSub(b, sid, At(b, sid).name, At(b, sid).id))
  {
    hide Inv, LivePubs, LiveSubs, BeingRemoved;
    var SubFound(n, id) := At(b, sid);
    BoxFacts(b, n);
    UnlinkedIsRemoved(b.sessions, n);
    BoxChangeKeeps(b, sid, SubRegistered(n, id), n, b.table[n].(subNum := b.table[n].subNum + 1));
  }

  /** Opening an existing file without truncation gives a new handle and changes nothing else. */
  lemma OpenShape(fs: Fs, n: CString, append: bool)
    requires Consistent(PARAMS, fs) && n in fs.files
    ensures var (fs', fd) := Open(PARAMS, fs, PathOf(n), OpenMode(false, false, append));
            && Consistent(PARAMS, fs') && fs'.files == fs.files
            && (fd == -1 ==> fs' == fs)
            && (fd != -1 ==>
                  fd !in fs.handles && fs'.handles == fs.handles[fd := Live(n, if append then |fs.files[n]| else 0)])
  {
    PathIs(n);
    OpenConsistent(PARAMS, fs, PathOf(n), OpenMode(false, false, append));
  }

  lemma OpenPubKeeps(b: Broker, sid: nat)
    requires Inv(b) && At(b, sid).PubRegistered?
    ensures Inv(StepOpenPub(b, sid, At(b, sid).name, At(b, sid).id))
  {
    hide ContentOk, SizesOk, SessionsOk, CountsOk, RemovalsOk, TableOk, Open, Unlinked, BeingRemoved, Flat, Log;
    LiveFacts(b, sid);
    var PubRegistered(n, id) := At(b, sid);
    OpenShape(b.fs, n, true);
    var (fs, fd) := Open(PARAMS, b.fs, PathOf(n), APPEND);
    hide Consistent;
    FsMoveKeeps(b, sid, if fd == -1 then Ended else PubReady(n, id, fd), fs, n);
  }

  lemma OpenSubKeeps(b: Broker, sid: nat)
    requires Inv(b) && At(b, sid).SubRegistered?
    ensures Inv(StepOpenSub(b, sid, At(b, sid).name, At(b, sid).id))
  {
    hide ContentOk, SizesOk, SessionsOk, CountsOk, RemovalsOk, TableOk, Open, Unlinked, BeingRemoved, Flat, Log;
    LiveFacts(b, sid);
    var SubRegistered(n, id) := At(b, sid);
    OpenShape(b.fs, n, false);
    var (fs, fd) := Open(PARAMS, b.fs, PathOf(n), PLAIN);
    hide Consistent;
    assert [] <= Log(b.sent[id]);
    FsMoveKeeps(b, sid, if fd == -1 then Ended else SubReady(n, id, fd, []), fs, n);
  }

  /** Closing a handle the session owns, whatever state follows. */
  lemma CloseKeeps(b: Broker, sid: nat, s: Session)
    requires Inv(b) && HasFd(At(b, sid)) && Narrows(At(b, sid), s) && !HasFd(s)
    requires SessionOk(Goto(b.(fs := Close(b.fs, At(b, sid).fd).0), sid, s), s)
    ensures Close(b.fs, At(b, sid).fd).1 == 0
    ensures Inv(Goto(b.(fs := Close(b.fs, At(b, sid).fd).0), sid, s))
  {
    hide ContentOk, SizesOk, SessionsOk, CountsOk, RemovalsOk, TableOk, Narrows;
    AtOk(b, sid);
    CloseConsistent(PARAMS, b.fs, At(b, sid).fd);
    hide Consistent;
    FsMoveKeeps(b, sid, s, Close(b.fs, At(b, sid).fd).0, []);
  }

  lemma ClosePubKeeps(b: Broker, sid: nat)
    requires Inv(b) && At(b, sid).PubClosing?
    ensures Inv(Goto(b.(fs := Close(b.fs, At(b, sid).fd).0), sid, Ended))
  {
    hide Inv, Close;
    CloseKeeps(b, sid, Ended);
  }

  lemma CloseSubKeeps(b: Broker, sid: nat)
    requires Inv(b) && At(b, sid).SubClosing?
    ensures Inv(Goto(b.(fs := Close(b.fs, At(b, sid).fd).0), sid, SubEnded(At(b, sid).id, At(b, sid).got)))
  {
    hide Inv, Close;
    AtOk(b, sid);
    CloseKeeps(b, sid, SubEnded(At(b, sid).id, At(b, sid).got));
  }

  lemma SendKeeps(b: Broker, sid: nat, output: PipeOutput)
    requires Inv(b) && At(b, sid).SubSending?
    ensures Inv(StepSend(b, sid, output))
  {
    hide Inv;
    AtOk(b, sid);
    var SubSending(n, id, fd, got, response) := At(b, sid);
    assert got <= got + [response];
    LocalStep(b, sid, At(StepSend(b, sid, output), sid));
  }

  lemma UnregisterSubKeeps(b: Broker, sid: nat)
    requires Inv(b) && At(b, sid).SubLeaving?
    ensures Inv(StepUnregisterSub(b, sid))
  {
    hide Inv, LivePubs, LiveSubs, BeingRemoved, Unlinked, Flat, Log;
    AtOk(b, sid);
    var SubLeaving(n, id, fd, got) := At(b, sid);
    LiveFacts(b, sid);
    BoxFacts(b, n);
    LiveIsCounted(b, sid);
    BoxChangeKeeps(b, sid, SubEnded(id, got), n, b.table[n].(subNum := b.table[n].subNum - 1));
  }

  lemma CountKeeps(b: Broker, sid: nat)
    requires Inv(b) && At(b, sid).PubCounting?
    ensures Inv(StepCount(b, sid))
  {
    hide Inv, LivePubs, LiveSubs, BeingRemoved, Unlinked, Flat, Log;
    AtOk(b, sid);
    var PubCounting(n, id, fd, wrote) := At(b, sid);
    LiveFacts(b, sid);
    BoxFacts(b, n);
    BoxChangeKeeps(b, sid, PubReady(n, id, fd), n, b.table[n].(size := b.table[n].size + wrote));
  }

  lemma EndOfStreamKeeps(b: Broker, sid: nat)
    requires Inv(b) && At(b, sid).PubReady?
    ensures Inv(StepReceive(b, sid, EndOfStream))
  {
    hide Inv, LivePubs, LiveSubs, BeingRemoved, Unlinked, Flat, Log;
    AtOk(b, sid);
    var PubReady(n, id, fd) := At(b, sid);
    LiveFacts(b, sid);
    BoxFacts(b, n);
    LiveIsCounted(b, sid);
    BoxChangeKeeps(b, sid, PubClosing(fd), n, b.table[n].(pubNum := b.table[n].pubNum - 1));
  }

  lemma LeaveLoopKeeps(b: Broker, sid: nat)
    requires Inv(b) && At(b, sid).PubReady?
    ensures Inv(Goto(b, sid, PubClosing(At(b, sid).fd)))
  {
    hide Inv;
    AtOk(b, sid);
    LocalStep(b, sid, PubClosing(At(b, sid).fd));
  }

  // ---------- Reading ----------

  /** Reading at message `k` gives message `k`, or nothing at the end of the log. */
  lemma ReadAt(fs: Fs, fd: int, n: CString, log: seq<Message>, k: nat)
    requires Consistent(PARAMS, fs) && fd in fs.handles && fs.handles[fd] == Live(n, MESSAGE_LEN * k)
    requires n in fs.files && fs.files[n] == Flat(log) && k <= |log|
    ensures IsLive(fs, fd)
    ensures var (fs', r, bytes) := Read(PARAMS, fs, fd, MESSAGE_LEN);
            && Consistent(PARAMS, fs') && fs'.files == fs.files
            && (k == |log| ==> r == 0 && fs' == fs)
            && (k < |log| ==> r == MESSAGE_LEN && bytes == log[k]
                              && fs'.handles == fs.handles[fd := Live(n, MESSAGE_LEN * (k + 1))])
  {
    hide Consistent, Flat;
    ReadConsistent(PARAMS, fs, fd, MESSAGE_LEN);
    if k < |log| {
      FlatSlice(log, k);
    } else {
      assert fs.handles[fd := fs.handles[fd]] == fs.handles;
    }
  }

  lemma ReadShape(b: Broker, sid: nat)
    requires Inv(b) && At(b, sid).SubReady?
    ensures var SubReady(n, id, fd, got) := At(b, sid);
            && IsLive(b.fs, fd) && id in b.sent
            && var (fs, r, bytes) := Read(PARAMS, b.fs, fd, MESSAGE_LEN);
               && Consistent(PARAMS, fs) && fs.files == b.fs.files
               && |got| <= |Log(b.sent[id])|
               && (|got| == |Log(b.sent[id])| ==> r == 0 && fs == b.fs)
               && (|got| < |Log(b.sent[id])| ==>
                     r == MESSAGE_LEN && bytes == Log(b.sent[id])[|got|]
                     && fs.handles == b.fs.handles[fd := Live(n, MESSAGE_LEN * (|got| + 1))])
  {
    hide ContentOk, SessionsOk, SizesOk, CountsOk, TableOk, RemovalsOk, Read, Flat, Log, Unlinked, BeingRemoved;
    LiveFacts(b, sid);
    AtOk(b, sid);
    var SubReady(n, id, fd, got) := At(b, sid);
    hide Consistent;
    ReadAt(b.fs, fd, n, Log(b.sent[id]), |got|);
  }

  lemma ReadKeeps(b: Broker, sid: nat)
    requires Inv(b) && At(b, sid).SubReady?
    ensures Inv(StepReadSub(b, sid))
  {
    hide Consistent, ContentOk, SizesOk, SessionsOk, CountsOk, TableOk, RemovalsOk, Read, Log;
    AtOk(b, sid);
    ReadShape(b, sid);
    var SubReady(n, id, fd, got) := At(b, sid);
    var (fs, r, bytes) := Read(PARAMS, b.fs, fd, MESSAGE_LEN);
    if r != 0 {
      assert Response(bytes) == bytes;
      assert got + [bytes] == Log(b.sent[id])[..|got| + 1];
      FsMoveKeeps(b, sid, SubSending(n, id, fd, got, bytes), fs, n);
    }
  }

  // ---------- Writing ----------

  /** Writing a message at the end of a log appends it whole, or nothing once the file is full. */
  lemma WriteAt(fs: Fs, fd: int, n: CString, log: seq<Message>, payload: Message)
    requires Consistent(PARAMS, fs) && fd in fs.handles && n in fs.files
    requires fs.handles[fd] == Live(n, |fs.files[n]|) && fs.files[n] == Flat(log) && |log| <= LOG_LEN
    ensures IsLive(fs, fd)
    ensures var (fs', wrote) := Write(PARAMS, fs, fd, payload);
            var log' := if |log| < LOG_LEN then log + [payload] else log;
            && Consistent(PARAMS, fs') && wrote == |Flat(log')| - |Flat(log)|
            && fs' == Fs(fs.files[n := Flat(log')], fs.handles[fd := Live(n, |Flat(log')|)])
  {
    WriteConsistent(PARAMS, fs, fd, payload);
    EnoughBlocksNeverFail(PARAMS, fs, fd, payload);
    if |log| < LOG_LEN {
      FlatExtended(log, payload);
      assert payload[..MESSAGE_LEN] == payload;
      assert Splice(Flat(log), |Flat(log)|, payload) == Flat(log) + payload;
    } else {
      assert fs.files[n := fs.files[n]] == fs.files;
      assert fs.handles[fd := fs.handles[fd]] == fs.handles;
    }
  }

  /** tfs_write never fails for a publisher. */
  lemma WriteShape(b: Broker, sid: nat, payload: Message)
    requires Inv(b) && At(b, sid).PubReady?
    ensures var PubReady(n, id, fd) := At(b, sid);
            && IsLive(b.fs, fd) && id in b.sent && n in b.fs.files
            && var (fs, wrote) := Write(PARAMS, b.fs, fd, payload);
               && Consistent(PARAMS, fs)
               && wrote == (if |b.sent[id]| < LOG_LEN then MESSAGE_LEN else 0)
               && fs.files == b.fs.files[n := Flat(Log(b.sent[id] + [payload]))]
               && fs.handles == b.fs.handles[fd := Live(n, |fs.files[n]|)]
               && |fs.files[n]| == |b.fs.files[n]| + wrote
  {
    hide TableOk, ContentOk, SessionsOk, SizesOk, CountsOk, RemovalsOk, Write, Unlinked, BeingRemoved;
    LiveFacts(b, sid);
    AtOk(b, sid);
    var PubReady(n, id, fd) := At(b, sid);
    hide Consistent;
    LogExtended(b.sent[id], payload);
    WriteAt(b.fs, fd, n, Log(b.sent[id]), payload);
  }

  ghost predicate IsWritten(b: Broker, b': Broker, sid: nat, payload: Message) {
    && At(b, sid).PubReady?
    && var PubReady(n, id, fd) := At(b, sid);
       && Present(b, n, id) && id in b.sent && n in b.fs.files
       && n in b'.fs.files && |b'.fs.files[n]| >= |b.fs.files[n]|
       && b'.fs.files == b.fs.files[n := Flat(Log(b.sent[id] + [payload]))]
       && b'.fs.handles == b.fs.handles[fd := Live(n, |b'.fs.files[n]|)]
       && b'.table == b.table && b'.nextId == b.nextId
       && b'.sent == b.sent[id := b.sent[id] + [payload]]
       && b'.sessions == b.sessions[sid := PubCounting(n, id, fd, |b'.fs.files[n]| - |b.fs.files[n]|)]
  }

  lemma WrittenOther(b: Broker, b': Broker, sid: nat, payload: Message, p: nat)
    requires Inv(b) && IsWritten(b, b', sid, payload) && p in b.sessions && p != sid
    requires SessionsOk(b)
    ensures SessionOk(b', b.sessions[p])
  {
    hide Inv, Log, Flat;
    LogExtended(b.sent[At(b, sid).id], payload);
    AtOk(b, p);
    assert At(b, p) == b.sessions[p];
    if IsLivePub(b.sessions[p]) && b.sessions[p].name == At(b, sid).name {
      OnlyPublisher(b, p, sid);
    }
    assert HasFd(b.sessions[p]) ==> b.sessions[p].fd != At(b, sid).fd;
    SessionKept(b, b', b.sessions[p]);
  }

  lemma WrittenSessions(b: Broker, b': Broker, sid: nat, payload: Message)
    requires Inv(b) && IsWritten(b, b', sid, payload)
    ensures SessionsOk(b')
  {
    hide Consistent, ContentOk, CountsOk, SizesOk, TableOk, RemovalsOk, Log, Flat;
    forall p | p in b.sessions && p != sid
      ensures SessionOk(b', b.sessions[p])
    {
      WrittenOther(b, b', sid, payload, p);
    }
    PublisherNotCounting(b, sid);
    SessionsMoved(b, b', sid, b'.sessions[sid]);
  }

  lemma WrittenContents(b: Broker, b': Broker, sid: nat, payload: Message)
    requires Inv(b) && IsWritten(b, b', sid, payload)
    ensures TableOk(b') && ContentOk(b') && RemovalsOk(b')
  {
    hide Consistent, SessionsOk, CountsOk, SizesOk, Log, Flat, BeingRemoved, Unlinked;
    LiveFacts(b, sid);
    forall m
      ensures BeingRemoved(b.sessions, m) <==> BeingRemoved(b'.sessions, m)
      ensures Unlinked(b.sessions, m) <==> Unlinked(b'.sessions, m)
    {
      RemovalsMoved(b.sessions, sid, b'.sessions[sid], m);
    }
  }

  lemma WrittenCounts(b: Broker, b': Broker, sid: nat, payload: Message)
    requires Inv(b) && IsWritten(b, b', sid, payload)
    ensures CountsOk(b') && SizesOk(b')
  {
    hide Consistent, SessionsOk, TableOk, ContentOk, RemovalsOk, LivePubs, LiveSubs, Log, Flat, Counting, Unlinked;
    IsCounting(b', sid);
    forall m
      ensures |LivePubs(b'.sessions, m)| <= |LivePubs(b.sessions, m)| && |LiveSubs(b'.sessions, m)| <= |LiveSubs(b.sessions, m)|
      ensures Counting(b.sessions, m) ==> Counting(b'.sessions, m)
      ensures Unlinked(b.sessions, m) <==> Unlinked(b'.sessions, m)
    {
      LivePubsMoved(b.sessions, sid, b'.sessions[sid], m);
      LiveSubsMoved(b.sessions, sid, b'.sessions[sid], m);
      CountingMoved(b.sessions, sid, b'.sessions[sid], m);
      RemovalsMoved(b.sessions, sid, b'.sessions[sid], m);
    }
  }

  lemma IsCounting(b: Broker, sid: nat)
    requires sid in b.sessions && b.sessions[sid].PubCounting?
    ensures Counting(b.sessions, b.sessions[sid].name)
  {
  }

  lemma ReceiveKeeps(b: Broker, sid: nat, input: PipeInput)
    requires Inv(b) && At(b, sid).PubReady?
    ensures Inv(StepReceive(b, sid, input))
  {
    hide Consistent, ContentOk, SizesOk, SessionsOk, CountsOk, TableOk, RemovalsOk, Write, Flat, Log;
    match input
    case EndOfStream => EndOfStreamKeeps(b, sid);
    case ReadError => LeaveLoopKeeps(b, sid);
    case OneByte(code) => LeaveLoopKeeps(b, sid);
    case Packet(code, payload) =>
      LeaveLoopKeeps(b, sid);
      if code == PUBLISHED {
        WriteShape(b, sid, payload);
        AtOk(b, sid);
        var b' := StepReceive(b, sid, input);
        assert IsWritten(b, b', sid, payload);
        WrittenSessions(b, b', sid, payload);
        WrittenContents(b, b', sid, payload);
        WrittenCounts(b, b', sid, payload);
      }
  }

  // ---------- Managers that create ----------

  /** Opening with TFS_O_CREAT makes the file exist, empty if it is new, and opens it. */
  lemma CreateShape(fs: Fs, n: CString)
    requires Consistent(PARAMS, fs)
    ensures var (fs1, fd) := Open(PARAMS, fs, PathOf(n), CREAT);
            && Consistent(PARAMS, fs1) && FilesMayBecome(fs.files, fs1.files, n)
            && (fd == -1 ==> fs1.handles == fs.handles)
            && (fd != -1 ==>
                  n != [] && n in fs1.files && fd !in fs.handles && fs1.handles == fs.handles[fd := Live(n, 0)])
  {
    hide Consistent, CutHandles;
    PathIs(n);
    OpenConsistent(PARAMS, fs, PathOf(n), CREAT);
  }

  lemma CreateOpenKeeps(b: Broker, sid: nat)
    requires Inv(b) && At(b, sid).CreateFound?
    ensures Inv(StepCreateOpen(b, sid, At(b, sid).name))
  {
    hide ContentOk, SizesOk, SessionsOk, CountsOk, RemovalsOk, TableOk, Open;
    var n := At(b, sid).name;
    CreateShape(b.fs, n);
    var (fs, fd) := Open(PARAMS, b.fs, PathOf(n), CREAT);
    hide Consistent;
    FsMoveKeeps(b, sid, if fd == -1 then Answered(Code(-1)) else CreateOpened(n, fd), fs, n);
  }

  lemma CreateCloseKeeps(b: Broker, sid: nat)
    requires Inv(b) && At(b, sid).CreateOpened?
    ensures Inv(StepCreateClose(b, sid, At(b, sid).name, At(b, sid).fd))
  {
    hide Inv, Close;
    AtOk(b, sid);
    CloseKeeps(b, sid, CreateClosed(At(b, sid).name));
  }

  /** A thread that is no client's moves: who is live and who counts stays. */
  lemma ManagerMoved(sessions: map<nat, Session>, sid: nat, s: Session, n: CString)
    requires sid in sessions && !IsLivePub(sessions[sid]) && !IsLiveSub(sessions[sid]) && !IsLivePub(s) && !IsLiveSub(s)
    ensures |LivePubs(sessions[sid := s], n)| == |LivePubs(sessions, n)|
    ensures |LiveSubs(sessions[sid := s], n)| == |LiveSubs(sessions, n)|
    ensures Counting(sessions, n) ==> Counting(sessions[sid := s], n)
  {
    hide LivePubs, LiveSubs, Counting;
    LivePubsMoved(sessions, sid, s, n);
    LiveSubsMoved(sessions, sid, s, n);
    CountingMoved(sessions, sid, s, n);
  }

  /** Nobody is registered with a box that is not in the table. */
  lemma NobodyUses(b: Broker, n: CString)
    requires SessionsOk(b) && n !in b.table
    ensures LivePubs(b.sessions, n) == {} && LiveSubs(b.sessions, n) == {}
  {
    forall sid | sid in b.sessions
      ensures !PubOn(b.sessions[sid], n) && !SubOn(b.sessions[sid], n)
    {
      assert SessionOk(b, b.sessions[sid]);
    }
  }

  ghost predicate IsAdded(b: Broker, b': Broker, sid: nat, n: BoxName) {
    && At(b, sid) == CreateClosed(n) && n !in b.table && n != []
    && (n in b.fs.files || Unlinked(b.sessions, n))
    && b' == Goto(b.(table := b.table[n := BoxState(b.nextId, 0, 0, 0)],
                     sent := b.sent[b.nextId := []], nextId := b.nextId + 1), sid, Answered(Code(0)))
  }

  lemma AddedSessions(b: Broker, b': Broker, sid: nat, n: BoxName)
    requires Inv(b) && IsAdded(b, b', sid, n)
    ensures SessionsOk(b')
  {
    hide Consistent, ContentOk, CountsOk, SizesOk, RemovalsOk, Log;
    forall p | p in b.sessions && p != sid
      ensures SessionOk(b', b.sessions[p])
    {
      SessionKept(b, b', b.sessions[p]);
    }
    SessionsMoved(b, b', sid, Answered(Code(0)));
  }

  lemma EmptyLog()
    ensures Flat(Log([])) == []
  {
    assert Log([]) == [];
  }

  lemma AddedTable(b: Broker, b': Broker, sid: nat, n: BoxName)
    requires Inv(b) && IsAdded(b, b', sid, n)
    ensures TableOk(b') && RemovalsOk(b')
  {
    hide Consistent, SessionsOk, CountsOk, SizesOk, ContentOk, BeingRemoved, Unlinked;
    forall m
      ensures BeingRemoved(b.sessions, m) <==> BeingRemoved(b'.sessions, m)
      ensures Unlinked(b.sessions, m) <==> Unlinked(b'.sessions, m)
    {
      RemovalsMoved(b.sessions, sid, b'.sessions[sid], m);
    }
  }

  lemma AddedContents(b: Broker, b': Broker, sid: nat, n: BoxName)
    requires Inv(b) && IsAdded(b, b', sid, n) && TableOk(b')
    ensures ContentOk(b') && SizesOk(b')
  {
    hide Consistent, SessionsOk, CountsOk, RemovalsOk, Unlinked, BeingRemoved, Counting, Log, Flat, LivePubs, LiveSubs;
    EmptyLog();
    forall m
      ensures Unlinked(b.sessions, m) <==> Unlinked(b'.sessions, m)
      ensures Counting(b.sessions, m) ==> Counting(b'.sessions, m)
    {
      RemovalsMoved(b.sessions, sid, b'.sessions[sid], m);
      ManagerMoved(b.sessions, sid, b'.sessions[sid], m);
    }
  }

  lemma AddedCounts(b: Broker, b': Broker, sid: nat, n: BoxName)
    requires Inv(b) && IsAdded(b, b', sid, n)
    ensures CountsOk(b')
  {
    hide Consistent, SessionsOk, RemovalsOk, ContentOk, SizesOk, TableOk, LivePubs, LiveSubs, Counting;
    NobodyUses(b, n);
    forall m
      ensures |LivePubs(b'.sessions, m)| == |LivePubs(b.sessions, m)| && |LiveSubs(b'.sessions, m)| == |LiveSubs(b.sessions, m)|
    {
      ManagerMoved(b.sessions, sid, b'.sessions[sid], m);
    }
  }

  lemma AddBoxKeeps(b: Broker, sid: nat)
    requires Inv(b) && At(b, sid).CreateClosed? && Admits(b, AddBox(sid))
    ensures Inv(StepAddBox(b, sid, At(b, sid).name))
  {
    hide Consistent, SessionsOk, RemovalsOk, ContentOk, SizesOk, TableOk, CountsOk, Unlinked;
    AtOk(b, sid);
    var n := At(b, sid).name;
    var b' := StepAddBox(b, sid, n);
    AddedSessions(b, b', sid, n);
    AddedTable(b, b', sid, n);
    AddedContents(b, b', sid, n);
    AddedCounts(b, b', sid, n);
  }

  // ---------- Managers that remove ----------

  /** The box is unused, and from here on nobody may register with it. */
  lemma CheckBoxKeeps(b: Broker, sid: nat)
    requires Inv(b) && At(b, sid).RemoveFound? && Admits(b, CheckBox(sid))
    ensures Inv(StepCheckBox(b, sid, At(b, sid).name, At(b, sid).id))
  {
    hide Consistent, SessionsOk, RemovalsOk, ContentOk, SizesOk, TableOk, CountsOk;
    var RemoveFound(n, id) := At(b, sid);
    if b.table[n].pubNum > 0 || b.table[n].subNum > 0 {
      LocalStep(b, sid, Answered(NoReply));
    } else {
      CheckedSessions(b, sid, n);
      CheckedRest(b, sid, n);
    }
  }

  lemma CheckedSessions(b: Broker, sid: nat, n: BoxName)
    requires Inv(b) && At(b, sid).RemoveFound?
    ensures SessionsOk(Goto(b, sid, RemoveChecked(n)))
  {
    hide Consistent, ContentOk, CountsOk, SizesOk, TableOk, RemovalsOk, Log;
    var b' := Goto(b, sid, RemoveChecked(n));
    forall p | p in b.sessions && p != sid
      ensures SessionOk(b', b.sessions[p])
    {
      SessionKept(b, b', b.sessions[p]);
    }
    SessionsMoved(b, b', sid, RemoveChecked(n));
  }

  /** Of what is being removed, a manager's check adds its own box only. */
  lemma CheckedRemovals(sessions: map<nat, Session>, sid: nat, n: BoxName, m: CString)
    requires sid in sessions && sessions[sid].RemoveFound?
    ensures BeingRemoved(sessions[sid := RemoveChecked(n)], m) ==> BeingRemoved(sessions, m) || m == n
    ensures Unlinked(sessions[sid := RemoveChecked(n)], m) <==> Unlinked(sessions, m)
  {
    var after := sessions[sid := RemoveChecked(n)];
    forall p | p in sessions && IsRemoving(sessions[p])
      ensures p in after && after[p] == sessions[p]
    {
    }
  }

  lemma CheckedRest(b: Broker, sid: nat, n: BoxName)
    requires Inv(b) && At(b, sid).RemoveFound? && n in b.table && b.table[n].pubNum == b.table[n].subNum == 0
    ensures var b' := Goto(b, sid, RemoveChecked(n));
            TableOk(b') && ContentOk(b') && CountsOk(b') && SizesOk(b') && RemovalsOk(b')
  {
    hide Consistent, SessionsOk, LivePubs, LiveSubs, Counting, BeingRemoved, Unlinked, Flat, Log;
    var b' := Goto(b, sid, RemoveChecked(n));
    forall m
      ensures |LivePubs(b'.sessions, m)| == |LivePubs(b.sessions, m)| && |LiveSubs(b'.sessions, m)| == |LiveSubs(b.sessions, m)|
      ensures Counting(b.sessions, m) ==> Counting(b'.sessions, m)
      ensures BeingRemoved(b'.sessions, m) ==> BeingRemoved(b.sessions, m) || m == n
      ensures Unlinked(b'.sessions, m) <==> Unlinked(b.sessions, m)
    {
      ManagerMoved(b.sessions, sid, RemoveChecked(n), m);
      CheckedRemovals(b.sessions, sid, n, m);
    }
  }

  /** Nobody is live on a name that is being removed. */
  lemma RemovedIsUnused(b: Broker, n: CString, sid: nat)
    requires Inv(b) && BeingRemoved(b.sessions, n) && sid in b.sessions
    ensures !PubOn(b.sessions[sid], n) && !SubOn(b.sessions[sid], n)
  {
    hide Inv, BeingRemoved, Unlinked, Flat, Log;
    assert At(b, sid) == b.sessions[sid];
    if PubOn(b.sessions[sid], n) || SubOn(b.sessions[sid], n) {
      LiveFacts(b, sid);
    }
  }

  lemma IsBeingRemoved(sessions: map<nat, Session>, sid: nat)
    requires sid in sessions && IsRemoving(sessions[sid])
    ensures BeingRemoved(sessions, sessions[sid].name)
    ensures sessions[sid].RemoveUnlinked? ==> Unlinked(sessions, sessions[sid].name)
  {
  }

  lemma UnlinkBoxKeeps(b: Broker, sid: nat)
    requires Inv(b) && At(b, sid).RemoveChecked?
    ensures Inv(StepUnlinkBox(b, sid, At(b, sid).name))
  {
    hide SessionsOk, RemovalsOk, ContentOk, SizesOk, TableOk, CountsOk;
    var n := At(b, sid).name;
    UnlinkConsistent(PARAMS, b.fs, PathOf(n));
    hide Consistent;
    PathIs(n);
    var b' := StepUnlinkBox(b, sid, n);
    if n != [] && n in b.fs.files {
      assert IsUnlinked(b, b', sid, n);
      UnlinkedSessions(b, b', sid, n);
      UnlinkedContents(b, b', sid, n);
      UnlinkedCounts(b, b', sid, n);
    } else {
      assert b.(fs := b.fs) == b && b' == Goto(b, sid, Answered(Code(-1)));
      StopsRemoving(b, sid, Answered(Code(-1)));
    }
  }

  ghost predicate IsUnlinked(b: Broker, b': Broker, sid: nat, n: BoxName) {
    && At(b, sid) == RemoveChecked(n)
    && b' == Goto(b.(fs := Fs(b.fs.files - {n}, DropHandles(b.fs.handles, n))), sid, RemoveUnlinked(n))
  }

  lemma UnlinkedOther(b: Broker, b': Broker, sid: nat, n: BoxName, p: nat)
    requires Inv(b) && IsUnlinked(b, b', sid, n) && p in b.sessions && p != sid
    ensures SessionOk(b', b.sessions[p])
  {
    hide Inv, Log, Flat, BeingRemoved;
    IsBeingRemoved(b.sessions, sid);
    RemovedIsUnused(b, n, p);
    AtOk(b, p);
    assert At(b, p) == b.sessions[p];
    SessionKept(b, b', b.sessions[p]);
  }

  lemma UnlinkedSessions(b: Broker, b': Broker, sid: nat, n: BoxName)
    requires Inv(b) && IsUnlinked(b, b', sid, n)
    ensures SessionsOk(b')
  {
    hide Consistent, ContentOk, CountsOk, SizesOk, TableOk, RemovalsOk, SessionOk;
    forall p | p in b.sessions && p != sid
      ensures SessionOk(b', b.sessions[p])
    {
      UnlinkedOther(b, b', sid, n, p);
    }
    PlainSessionOk(b', RemoveUnlinked(n));
    SessionsMoved(b, b', sid, RemoveUnlinked(n));
  }

  lemma PlainSessionOk(b: Broker, s: Session)
    ensures s.RemoveUnlinked? || s.Answered? ==> SessionOk(b, s)
  {
  }

  /** Once unlinked, a name is as much being removed as before. */
  lemma UnlinkedRemovals(sessions: map<nat, Session>, sid: nat, n: BoxName, m: CString)
    requires sid in sessions && sessions[sid] == RemoveChecked(n)
    ensures BeingRemoved(sessions[sid := RemoveUnlinked(n)], m) <==> BeingRemoved(sessions, m)
    ensures Unlinked(sessions[sid := RemoveUnlinked(n)], m) <==> Unlinked(sessions, m) || m == n
  {
    var after := sessions[sid := RemoveUnlinked(n)];
    assert after[sid] == RemoveUnlinked(n);
    forall p | p in sessions && p != sid
      ensures p in after && after[p] == sessions[p]
    {
    }
  }

  lemma UnlinkedContents(b: Broker, b': Broker, sid: nat, n: BoxName)
    requires Inv(b) && IsUnlinked(b, b', sid, n)
    ensures TableOk(b') && ContentOk(b') && RemovalsOk(b')
  {
    hide Consistent, SessionsOk, CountsOk, SizesOk, BeingRemoved, Unlinked, Flat, Log;
    forall m
      ensures BeingRemoved(b'.sessions, m) <==> BeingRemoved(b.sessions, m)
      ensures Unlinked(b'.sessions, m) <==> Unlinked(b.sessions, m) || m == n
    {
      UnlinkedRemovals(b.sessions, sid, n, m);
    }
  }

  lemma UnlinkedCounts(b: Broker, b': Broker, sid: nat, n: BoxName)
    requires Inv(b) && IsUnlinked(b, b', sid, n)
    ensures CountsOk(b') && SizesOk(b')
  {
    hide Consistent, SessionsOk, TableOk, ContentOk, RemovalsOk, LivePubs, LiveSubs, Counting, Unlinked;
    forall m
      ensures |LivePubs(b'.sessions, m)| == |LivePubs(b.sessions, m)| && |LiveSubs(b'.sessions, m)| == |LiveSubs(b.sessions, m)|
      ensures Counting(b.sessions, m) ==> Counting(b'.sessions, m)
      ensures Unlinked(b'.sessions, m) <==> Unlinked(b.sessions, m) || m == n
    {
      ManagerMoved(b.sessions, sid, RemoveUnlinked(n), m);
      UnlinkedRemovals(b.sessions, sid, n, m);
    }
  }

  /** A manager that unlinked nothing gives up. */
  lemma StopsRemoving(b: Broker, sid: nat, s: Session)
    requires Inv(b) && At(b, sid).RemoveChecked? && s.Answered?
    ensures Inv(Goto(b, sid, s))
  {
    hide Consistent, LivePubs, LiveSubs, Counting, BeingRemoved, Unlinked, Flat, Log, SessionOk;
    var b' := Goto(b, sid, s);
    forall m
      ensures |LivePubs(b'.sessions, m)| == |LivePubs(b.sessions, m)| && |LiveSubs(b'.sessions, m)| == |LiveSubs(b.sessions, m)|
      ensures Counting(b.sessions, m) ==> Counting(b'.sessions, m)
      ensures BeingRemoved(b'.sessions, m) ==> BeingRemoved(b.sessions, m)
      ensures Unlinked(b'.sessions, m) <==> Unlinked(b.sessions, m)
    {
      ManagerMoved(b.sessions, sid, s, m);
      StoppedRemovals(b.sessions, sid, s, m);
    }
    forall p | p in b.sessions && p != sid
      ensures SessionOk(b', b.sessions[p])
    {
      SessionKeptByGoto(b, sid, s, p);
    }
    PlainSessionOk(b', s);
    SessionsMoved(b, b', sid, s);
  }

  lemma SessionKeptByGoto(b: Broker, sid: nat, s: Session, p: nat)
    requires SessionsOk(b) && p in b.sessions
    ensures SessionOk(Goto(b, sid, s), b.sessions[p])
  {
    assert SessionOk(b, b.sessions[p]);
    SessionKept(b, Goto(b, sid, s), b.sessions[p]);
  }

  lemma StoppedRemovals(sessions: map<nat, Session>, sid: nat, s: Session, m: CString)
    requires sid in sessions && sessions[sid].RemoveChecked? && !IsRemoving(s)
    ensures BeingRemoved(sessions[sid := s], m) ==> BeingRemoved(sessions, m)
    ensures Unlinked(sessions[sid := s], m) <==> Unlinked(sessions, m)
  {
    var after := sessions[sid := s];
    forall p | p in sessions && p != sid
      ensures p in after && after[p] == sessions[p]
    {
    }
  }

  ghost predicate IsDropped(b: Broker, b': Broker, sid: nat, n: BoxName) {
    && At(b, sid) == RemoveUnlinked(n) && b'.sessions[sid := Ended] == b.sessions[sid := Ended]
    && sid in b'.sessions && b'.sessions[sid].Answered?
    && b' == b.(table := b.table - {n}, sessions := b.sessions[sid := b'.sessions[sid]])
  }

  lemma DroppedOther(b: Broker, b': Broker, sid: nat, n: BoxName, p: nat)
    requires Inv(b) && IsDropped(b, b', sid, n) && p in b.sessions && p != sid
    ensures SessionOk(b', b.sessions[p])
  {
    hide Inv, Log, Flat, BeingRemoved;
    IsBeingRemoved(b.sessions, sid);
    RemovedIsUnused(b, n, p);
    AtOk(b, p);
    assert At(b, p) == b.sessions[p];
    SessionKept(b, b', b.sessions[p]);
  }

  lemma DroppedSessions(b: Broker, b': Broker, sid: nat, n: BoxName)
    requires Inv(b) && IsDropped(b, b', sid, n)
    ensures SessionsOk(b')
  {
    hide Consistent, ContentOk, CountsOk, SizesOk, TableOk, RemovalsOk, SessionOk;
    forall p | p in b.sessions && p != sid
      ensures SessionOk(b', b.sessions[p])
    {
      DroppedOther(b, b', sid, n, p);
    }
    PlainSessionOk(b', b'.sessions[sid]);
    SessionsMoved(b, b', sid, b'.sessions[sid]);
  }

  lemma DroppedRemovals(sessions: map<nat, Session>, sid: nat, s: Session, m: CString)
    requires sid in sessions && sessions[sid].RemoveUnlinked? && !IsRemoving(s)
    ensures BeingRemoved(sessions[sid := s], m) ==> BeingRemoved(sessions, m)
    ensures Unlinked(sessions[sid := s], m) ==> Unlinked(sessions, m)
    ensures m != sessions[sid].name ==> (Unlinked(sessions[sid := s], m) <==> Unlinked(sessions, m))
  {
    var after := sessions[sid := s];
    forall p | p in sessions && p != sid
      ensures p in after && after[p] == sessions[p]
    {
    }
  }

  lemma DroppedRest(b: Broker, b': Broker, sid: nat, n: BoxName)
    requires Inv(b) && IsDropped(b, b', sid, n)
    ensures TableOk(b') && ContentOk(b') && CountsOk(b') && SizesOk(b') && RemovalsOk(b')
  {
    hide Consistent, SessionsOk, LivePubs, LiveSubs, Counting, BeingRemoved, Unlinked, Flat, Log;
    IsBeingRemoved(b.sessions, sid);
    forall m
      ensures |LivePubs(b'.sessions, m)| == |LivePubs(b.sessions, m)| && |LiveSubs(b'.sessions, m)| == |LiveSubs(b.sessions, m)|
      ensures Counting(b.sessions, m) ==> Counting(b'.sessions, m)
      ensures BeingRemoved(b'.sessions, m) ==> BeingRemoved(b.sessions, m)
      ensures Unlinked(b'.sessions, m) ==> Unlinked(b.sessions, m)
      ensures m != n ==> (Unlinked(b'.sessions, m) <==> Unlinked(b.sessions, m))
    {
      ManagerMoved(b.sessions, sid, b'.sessions[sid], m);
      DroppedRemovals(b.sessions, sid, b'.sessions[sid], m);
    }
  }

  lemma DropBoxKeeps(b: Broker, sid: nat)
    requires Inv(b) && At(b, sid).RemoveUnlinked?
    ensures Inv(StepDropBox(b, sid, At(b, sid).name))
  {
    hide Consistent, SessionsOk, RemovalsOk, ContentOk, SizesOk, TableOk, CountsOk;
    var n := At(b, sid).name;
    var b' := StepDropBox(b, sid, n);
    assert IsDropped(b, b', sid, n);
    DroppedSessions(b, b', sid, n);
    DroppedRest(b, b', sid, n);
  }

  // ---------- Every step ----------

  lemma StartKeeps(b: Broker, sid: nat, s: Session)
    requires Inv(b) && sid !in b.sessions
    requires s.PubStarting? || s.SubStarting? || s.CreateFound? || s.RemoveFound? || s.Answered?
    ensures Inv(Goto(b, sid, s))
  {
    hide Inv;
    LocalStep(b, sid, s);
  }

  /** All steps but four are admitted in every state. */
  lemma FreeStepKeepsInv(b: Broker, ev: Event)
    requires Inv(b) && !ev.RaisePub? && !ev.RaiseSub? && !ev.CheckBox? && !ev.AddBox?
    ensures Admits(b, ev) && Inv(Step(b, ev))
  {
    hide Inv, Step;
    StepKeepsInv(b, ev);
  }

  /** A step that is admitted keeps the invariant. */
  lemma StepKeepsInv(b: Broker, ev: Event)
    requires Inv(b) && Admits(b, ev)
    ensures Inv(Step(b, ev))
  {
    hide Inv, SessionOk, StepFind, StepRaisePub, StepRaiseSub, StepOpenPub, StepOpenSub, StepReceive, StepCount, StepReadSub,
         StepSend, StepUnregisterSub, StepCreateOpen, StepCreateClose, StepAddBox, StepCheckBox, StepUnlinkBox, StepDropBox,
         Close, Admits;
    match ev
    case StartPublisher(sid, n) => if sid !in b.sessions { StartKeeps(b, sid, PubStarting(n)); }
    case StartSubscriber(sid, n) => if sid !in b.sessions { StartKeeps(b, sid, SubStarting(n)); }
    case FindForPub(sid) => if At(b, sid).PubStarting? { FindKeeps(b, sid); }
    case RaisePub(sid) => if At(b, sid).PubFound? { RaisePubKeeps(b, sid); }
    case OpenPub(sid) => if At(b, sid).PubRegistered? { OpenPubKeeps(b, sid); }
    case Receive(sid, input) => if At(b, sid).PubReady? { ReceiveKeeps(b, sid, input); }
    case Count(sid) => if At(b, sid).PubCounting? { CountKeeps(b, sid); }
    case ClosePub(sid) => if At(b, sid).PubClosing? { ClosePubKeeps(b, sid); }
    case FindForSub(sid) => if At(b, sid).SubStarting? { FindKeeps(b, sid); }
    case RaiseSub(sid) => if At(b, sid).SubFound? { RaiseSubKeeps(b, sid); }
    case OpenSub(sid) => if At(b, sid).SubRegistered? { OpenSubKeeps(b, sid); }
    case ReadSub(sid) => if At(b, sid).SubReady? { ReadKeeps(b, sid); }
    case Send(sid, output) => if At(b, sid).SubSending? { SendKeeps(b, sid, output); }
    case UnregisterSub(sid) => if At(b, sid).SubLeaving? { UnregisterSubKeeps(b, sid); }
    case CloseSub(sid) => if At(b, sid).SubClosing? { CloseSubKeeps(b, sid); }
    case StartCreate(sid, n) => if sid !in b.sessions { StartKeeps(b, sid, At(StepStartCreate(b, sid, n), sid)); }
    case CreateOpen(sid) => if At(b, sid).CreateFound? { CreateOpenKeeps(b, sid); }
    case CreateClose(sid) => if At(b, sid).CreateOpened? { CreateCloseKeeps(b, sid); }
    case AddBox(sid) => if At(b, sid).CreateClosed? { AddBoxKeeps(b, sid); }
    case StartRemove(sid, n) => if sid !in b.sessions { StartKeeps(b, sid, At(StepStartRemove(b, sid, n), sid)); }
    case CheckBox(sid) => if At(b, sid).RemoveFound? { CheckBoxKeeps(b, sid); }
    case UnlinkBox(sid) => if At(b, sid).RemoveChecked? { UnlinkBoxKeeps(b, sid); }
    case DropBox(sid) => if At(b, sid).RemoveUnlinked? { DropBoxKeeps(b, sid); }
  }
}
