/**
 Delivery does take place: from any state a publisher and a subscriber can come to a box,
 what is published reaches the box's history, and a subscriber that goes on reading gets
 the whole of what its box holds.
 */
module BrokerDelivery {
  import opened FsSpec
  import opened Sizes
  import opened BrokerModel
  import opened BrokerSafety
  import opened BrokerTheorems
  import opened BrokerSteps
  import opened BrokerRaces

  /** `evs` leads from a run to a run in which session `sid` alone has moved. */
  ghost predicate Leads(evs: seq<Event>, more: seq<Event>, sid: nat) {
    && Guarded(evs) && Guarded(evs + more)
    && (forall p | p != sid :: At(Run(evs + more), p) == At(Run(evs), p))
    && Run(evs + more).sessions.Keys <= Run(evs).sessions.Keys + {sid}
  }

  lemma LeadsOn(evs: seq<Event>, more: seq<Event>, ev: Event)
    requires Leads(evs, more, ev.sid) && Admits(Run(evs + more), ev)
    ensures Leads(evs, more + [ev], ev.sid) && Run(evs + (more + [ev])) == Step(Run(evs + more), ev)
  {
    hide Inv, Step, Admits, Run, Guarded;
    RunNext(evs + more, ev);
    OthersStay(Run(evs + more), ev);
    assert evs + (more + [ev]) == evs + more + [ev];
  }

  lemma LeadsNowhere(evs: seq<Event>, sid: nat)
    requires Guarded(evs)
    ensures Leads(evs, [], sid) && Run(evs + []) == Run(evs)
  {
    hide Inv, Run, Guarded;
    assert evs + [] == evs;
  }

  /** Box `n` is in the table and on nobody's way out, and a handle is left. */
  ghost predicate IsOpenTo(b: Broker, n: BoxName) {
    n in b.table && !BeingRemoved(b.sessions, n) && |b.fs.handles| < PARAMS.maxOpenFiles
  }

  lemma NotBeingRemoved(b: Broker, b': Broker, sid: nat, n: BoxName)
    requires !BeingRemoved(b.sessions, n) && !IsRemoving(At(b', sid)) && forall p | p != sid :: At(b', p) == At(b, p)
    ensures !BeingRemoved(b'.sessions, n)
  {
    forall p | p in b'.sessions && IsRemoving(b'.sessions[p])
      ensures b'.sessions[p].name != n
    {
      assert At(b', p) == b'.sessions[p] && At(b, p) == b.sessions[p];
    }
  }

  // ---------- Coming to a box ----------

  function PubEvents(sid: nat, n: BoxName): seq<Event> {
    [] + [StartPublisher(sid, n)] + [FindForPub(sid)] + [RaisePub(sid)] + [OpenPub(sid)]
  }

  /** A client that asks to publish to such a box without a publisher is let in. */
  lemma PublisherComes(evs: seq<Event>, sid: nat, n: BoxName)
    requires Guarded(evs) && sid !in Run(evs).sessions && IsOpenTo(Run(evs), n) && Run(evs).table[n].pubNum == 0
    ensures Leads(evs, PubEvents(sid, n), sid)
    ensures var b, b' := Run(evs), Run(evs + PubEvents(sid, n));
            && At(b', sid).PubReady? && At(b', sid).fd !in b.fs.handles
            && At(b', sid) == PubReady(n, b.table[n].id, At(b', sid).fd)
            && b'.sent == b.sent && b'.table == b.table[n := b.table[n].(pubNum := 1)]
            && b'.fs.handles.Keys == b.fs.handles.Keys + {At(b', sid).fd}
  {
    hide Inv, Step, Run, Guarded, BeingRemoved;
    var b := Run(evs);
    LeadsNowhere(evs, sid);
    var m1 := [StartPublisher(sid, n)];
    Arrives(b, StartPublisher(sid, n));
    SentKept(b, StartPublisher(sid, n));
    LeadsOn(evs, [], StartPublisher(sid, n));
    assert [] + m1 == m1;
    var b1 := Run(evs + m1);
    Finds(b1, sid, FindForPub(sid), n);
    SentKept(b1, FindForPub(sid));
    LeadsOn(evs, m1, FindForPub(sid));
    var m2 := m1 + [FindForPub(sid)];
    var b2 := Run(evs + m2);
    StillOpenTo(evs, m2, sid, n);
    PubRaises(b2, sid, n, b.table[n].id);
    SentKept(b2, Event.RaisePub(sid));
    LeadsOn(evs, m2, Event.RaisePub(sid));
    var m3 := m2 + [Event.RaisePub(sid)];
    var b3 := Run(evs + m3);
    PubOpens(b3, sid, n, b.table[n].id);
    PubOpensAtEnd(b3, sid, n, b.table[n].id);
    SentKept(b3, OpenPub(sid));
    LeadsOn(evs, m3, OpenPub(sid));
    assert m3 + [OpenPub(sid)] == PubEvents(sid, n);
  }

  lemma StillOpenTo(evs: seq<Event>, more: seq<Event>, sid: nat, n: BoxName)
    requires Leads(evs, more, sid) && !BeingRemoved(Run(evs).sessions, n) && !IsRemoving(At(Run(evs + more), sid))
    ensures !BeingRemoved(Run(evs + more).sessions, n)
  {
    hide Inv, Run, Guarded, BeingRemoved;
    NotBeingRemoved(Run(evs), Run(evs + more), sid, n);
  }

  function SubEvents(sid: nat, n: BoxName): seq<Event> {
    [] + [StartSubscriber(sid, n)] + [FindForSub(sid)] + [RaiseSub(sid)] + [OpenSub(sid)]
  }

  /** A client that asks to subscribe to such a box is let in, at the start of its file. */
  lemma SubscriberComes(evs: seq<Event>, sid: nat, n: BoxName)
    requires Guarded(evs) && sid !in Run(evs).sessions && IsOpenTo(Run(evs), n)
    ensures Leads(evs, SubEvents(sid, n), sid)
    ensures var b, b' := Run(evs), Run(evs + SubEvents(sid, n));
            && At(b', sid).SubReady? && At(b', sid).fd !in b.fs.handles
            && At(b', sid) == SubReady(n, b.table[n].id, At(b', sid).fd, [])
            && b'.sent == b.sent && b'.table == b.table[n := b.table[n].(subNum := b.table[n].subNum + 1)]
            && b'.fs.handles.Keys == b.fs.handles.Keys + {At(b', sid).fd}
  {
    hide Inv, Step, Run, Guarded, BeingRemoved;
    var b := Run(evs);
    LeadsNowhere(evs, sid);
    var m1 := [StartSubscriber(sid, n)];
    Arrives(b, StartSubscriber(sid, n));
    SentKept(b, StartSubscriber(sid, n));
    LeadsOn(evs, [], StartSubscriber(sid, n));
    assert [] + m1 == m1;
    var b1 := Run(evs + m1);
    Finds(b1, sid, FindForSub(sid), n);
    SentKept(b1, FindForSub(sid));
    LeadsOn(evs, m1, FindForSub(sid));
    var m2 := m1 + [FindForSub(sid)];
    var b2 := Run(evs + m2);
    StillOpenTo(evs, m2, sid, n);
    SubRaises(b2, sid, n, b.table[n].id);
    SentKept(b2, Event.RaiseSub(sid));
    LeadsOn(evs, m2, Event.RaiseSub(sid));
    var m3 := m2 + [Event.RaiseSub(sid)];
    var b3 := Run(evs + m3);
    SubOpens(b3, sid, n, b.table[n].id);
    SubOpensAtStart(b3, sid, n, b.table[n].id);
    SentKept(b3, OpenSub(sid));
    LeadsOn(evs, m3, OpenSub(sid));
    assert m3 + [OpenSub(sid)] == SubEvents(sid, n);
  }

  // ---------- Publishing ----------

  /** One turn of the publisher's loop for each message: a packet with code 9, and the count of what was written. */
  function PublishEvents(sid: nat, messages: seq<Message>): seq<Event> {
    if messages == [] then []
    else
      var last := |messages| - 1;
      PublishEvents(sid, messages[..last]) + [Receive(sid, Packet(9, messages[last]))] + [Event.Count(sid)]
  }

  /** What a publisher sends is added to the history of its box, in order, and nothing else is. */
  lemma {:induction false} PublisherIsHeard(evs: seq<Event>, sid: nat, messages: seq<Message>)
    requires Guarded(evs) && At(Run(evs), sid).PubReady?
    ensures Leads(evs, PublishEvents(sid, messages), sid)
    ensures var b, b', id := Run(evs), Run(evs + PublishEvents(sid, messages)), At(Run(evs), sid).id;
            && At(b', sid) == At(b, sid) && id in b.sent && b'.sent == b.sent[id := b.sent[id] + messages]
            && b'.table.Keys == b.table.Keys && (forall n | n in b.table :: b'.table[n].id == b.table[n].id)
            && b'.fs.handles.Keys == b.fs.handles.Keys
    decreases |messages|
  {
    hide Inv, Step, Run, Guarded, Flat, Log;
    var b := Run(evs);
    var PubReady(n, id, fd) := At(b, sid);
    if messages == [] {
      LeadsNowhere(evs, sid);
      HasHistory(b, sid);
    } else {
      var last := |messages| - 1;
      var more := PublishEvents(sid, messages[..last]);
      PublisherIsHeard(evs, sid, messages[..last]);
      OneIsHeard(evs, more, sid, messages[last]);
      assert messages[..last] + [messages[last]] == messages;
      assert b.sent[id] + messages[..last] + [messages[last]] == b.sent[id] + messages;
    }
  }

  lemma HasHistory(b: Broker, sid: nat)
    requires Inv(b) && At(b, sid).PubReady?
    ensures At(b, sid).id in b.sent && b.sent == b.sent[At(b, sid).id := b.sent[At(b, sid).id] + []]
  {
    hide Inv, Flat, Log, BeingRemoved, Unlinked;
    LiveFacts(b, sid);
    assert b.sent[At(b, sid).id] + [] == b.sent[At(b, sid).id];
  }

  lemma OneIsHeard(evs: seq<Event>, more: seq<Event>, sid: nat, m: Message)
    requires Leads(evs, more, sid) && At(Run(evs + more), sid).PubReady?
    ensures var all := more + [Receive(sid, Packet(9, m))] + [Event.Count(sid)];
            && Leads(evs, all, sid)
            && var b, b', id := Run(evs + more), Run(evs + all), At(Run(evs + more), sid).id;
               && At(b', sid) == At(b, sid) && id in b.sent && b'.sent == b.sent[id := b.sent[id] + [m]]
               && b'.table.Keys == b.table.Keys && (forall n | n in b.table :: b'.table[n].id == b.table[n].id)
               && b'.fs.handles.Keys == b.fs.handles.Keys
  {
    hide Inv, Step, Run, Guarded, Flat, Log;
    var b := Run(evs + more);
    var PubReady(n, id, fd) := At(b, sid);
    var receive := Receive(sid, Packet(9, m));
    PacketIsSent(b, sid, n, id, fd, m);
    LeadsOn(evs, more, receive);
    var b1 := Run(evs + (more + [receive]));
    PubCounts(b1, sid, n, id, fd, if |b.sent[id]| < 100 then 1024 else 0);
    SentKept(b1, Event.Count(sid));
    LeadsOn(evs, more + [receive], Event.Count(sid));
  }

  // ---------- Subscribing ----------

  /** One turn of the subscriber's loop for each of `k` messages, each delivered to its pipe. */
  function ReadEvents(sid: nat, k: nat): seq<Event> {
    if k == 0 then [] else ReadEvents(sid, k - 1) + [ReadSub(sid)] + [Send(sid, Delivered)]
  }

  /** A subscriber that goes on gets the messages its box took, one after the other, up to all of them. */
  lemma {:induction false} SubscriberGets(evs: seq<Event>, sid: nat, k: nat)
    requires Guarded(evs) && At(Run(evs), sid).SubReady?
    requires At(Run(evs), sid).id in Run(evs).sent
    requires |At(Run(evs), sid).got| + k <= |Log(Run(evs).sent[At(Run(evs), sid).id])|
    ensures Leads(evs, ReadEvents(sid, k), sid)
    ensures var b, b', s := Run(evs), Run(evs + ReadEvents(sid, k)), At(Run(evs), sid);
            && b'.sent == b.sent && b'.table == b.table
            && At(b', sid) == SubReady(s.name, s.id, s.fd, Log(b.sent[s.id])[..|s.got| + k])
  {
    hide Inv, Step, Run, Guarded, Log;
    var b, s := Run(evs), At(Run(evs), sid);
    if k == 0 {
      LeadsNowhere(evs, sid);
      GotSoFar(b, sid);
    } else {
      SubscriberGets(evs, sid, k - 1);
      OneIsGot(evs, ReadEvents(sid, k - 1), sid);
      var log, got := Log(b.sent[s.id]), |s.got| + k - 1;
      assert log[..got] + [log[got]] == log[..got + 1];
    }
  }

  lemma GotSoFar(b: Broker, sid: nat)
    requires Inv(b) && At(b, sid).SubReady? && At(b, sid).id in b.sent
    ensures |At(b, sid).got| <= |Log(b.sent[At(b, sid).id])|
    ensures At(b, sid).got == Log(b.sent[At(b, sid).id])[..|At(b, sid).got|]
  {
    hide Inv, Log;
    AtOk(b, sid);
  }

  lemma OneIsGot(evs: seq<Event>, more: seq<Event>, sid: nat)
    requires Leads(evs, more, sid) && At(Run(evs + more), sid).SubReady?
    requires At(Run(evs + more), sid).id in Run(evs + more).sent
    requires |At(Run(evs + more), sid).got| < |Log(Run(evs + more).sent[At(Run(evs + more), sid).id])|
    ensures var all := more + [ReadSub(sid)] + [Send(sid, Delivered)];
            && Leads(evs, all, sid)
            && var b, b', s := Run(evs + more), Run(evs + all), At(Run(evs + more), sid);
               && b'.sent == b.sent && b'.table == b.table
               && At(b', sid) == SubReady(s.name, s.id, s.fd, s.got + [Log(b.sent[s.id])[|s.got|]])
  {
    hide Inv, Step, Run, Guarded, Log;
    var b := Run(evs + more);
    var SubReady(n, id, fd, got) := At(b, sid);
    SubReadsNext(b, sid, n, id, fd, got);
    SubReads(b, sid, n, id, fd, got);
    SentKept(b, ReadSub(sid));
    LeadsOn(evs, more, ReadSub(sid));
    var b1 := Run(evs + (more + [ReadSub(sid)]));
    SubSends(b1, sid, n, id, fd, got, Log(b.sent[id])[|got|], Delivered);
    SentKept(b1, Send(sid, Delivered));
    LeadsOn(evs, more + [ReadSub(sid)], Send(sid, Delivered));
  }

  /** In every state a waiting subscriber can go on until it has all that its box took. */
  lemma SubscriberCatchesUp(evs: seq<Event>, sid: nat)
    requires Guarded(evs) && At(Run(evs), sid).SubReady?
    ensures exists k :: Guarded(evs + ReadEvents(sid, k)) && HasCaughtUp(Run(evs), Run(evs + ReadEvents(sid, k)), sid)
  {
    hide Inv, Run, Guarded, Log;
    var b, s := Run(evs), At(Run(evs), sid);
    DeliveredIsPrefix(evs, sid);
    var log := Log(b.sent[s.id]);
    var k := |log| - |s.got|;
    SubscriberGets(evs, sid, k);
    assert log[..|log|] == log;
    assert HasCaughtUp(b, Run(evs + ReadEvents(sid, k)), sid);
  }

  /** Nothing was sent meanwhile, and the session waits with all there is. */
  ghost predicate HasCaughtUp(b: Broker, b': Broker, sid: nat) {
    && b'.sent == b.sent && At(b, sid).SubReady? && At(b, sid).id in b.sent
    && At(b', sid) == SubReady(At(b, sid).name, At(b, sid).id, At(b, sid).fd, Log(b.sent[At(b, sid).id]))
  }

  // ---------- From the start ----------

  /** Manager 0 makes box `n`, publisher 1 sends the messages to it, and subscriber 2 comes and reads them. */
  function DeliveryEvents(n: BoxName, messages: seq<Message>): seq<Event> {
    [StartCreate(0, n), CreateOpen(0), CreateClose(0), AddBox(0)]
    + PubEvents(1, n) + PublishEvents(1, messages) + SubEvents(2, n) + ReadEvents(2, |Log(messages)|)
  }

  /**
   Delivery from end to end, for every box name that is not empty and every list of
   messages: after these steps the subscriber has exactly them, up to the first hundred.
   */
  lemma DeliveryArises(n: BoxName, messages: seq<Message>)
    requires n != []
    ensures var evs := DeliveryEvents(n, messages);
            Guarded(evs) && At(Run(evs), 2).SubReady? && At(Run(evs), 2).name == n
            && At(Run(evs), 2).got == if |messages| <= 100 then messages else messages[..100]
  {
    hide Inv, Run, Guarded, Flat, Log, Leads, IsOpenTo;
    BoxArises(n);
    var e1 := RaceEvents(n)[..4];
    assert e1 == [StartCreate(0, n), CreateOpen(0), CreateClose(0), AddBox(0)];
    PublishedFrom(e1, n, messages);
    var e3 := e1 + PubEvents(1, n) + PublishEvents(1, messages);
    SubscribedFrom(e3, n, messages);
    HundredAtMost(messages);
    assert e3 + SubEvents(2, n) + ReadEvents(2, |Log(messages)|) == DeliveryEvents(n, messages);
  }

  /** The box with everything published to it, open to a subscriber. */
  ghost predicate IsPublished(b: Broker, n: BoxName, messages: seq<Message>) {
    IsOpenTo(b, n) && b.table[n].id in b.sent && b.sent[b.table[n].id] == messages && 2 !in b.sessions
  }

  lemma PublishedFrom(e1: seq<Event>, n: BoxName, messages: seq<Message>)
    requires Guarded(e1) && Run(e1) == BoxMade(n)
    ensures var e3 := e1 + PubEvents(1, n) + PublishEvents(1, messages);
            Guarded(e3) && IsPublished(Run(e3), n, messages)
  {
    hide Inv, Run, Guarded, Flat, Log, BeingRemoved, PubEvents, PublishEvents, IsPublished;
    BoxIsOpen(n);
    PublisherComes(e1, 1, n);
    var e2 := e1 + PubEvents(1, n);
    PublisherIsHeard(e2, 1, messages);
    NothingElse(Run(e2), Run(e2 + PublishEvents(1, messages)), n, messages);
  }

  lemma NothingElse(b2: Broker, b3: Broker, n: BoxName, messages: seq<Message>)
    requires At(b2, 1).PubReady? && At(b2, 1).id == 0 && At(b3, 1) == At(b2, 1)
    requires forall p | p != 1 :: At(b3, p) == At(b2, p) == At(BoxMade(n), p)
    requires b3.sessions.Keys <= b2.sessions.Keys + {1} && b2.sessions.Keys <= BoxMade(n).sessions.Keys + {1}
    requires b2.sent == map[0 := []] && b3.sent == b2.sent[0 := b2.sent[0] + messages]
    requires n in b2.table && b2.table[n].id == 0 && n in b3.table && b3.table[n].id == 0
    requires b2.fs.handles.Keys == {} + {At(b2, 1).fd} && b3.fs.handles.Keys == b2.fs.handles.Keys
    ensures IsPublished(b3, n, messages)
  {
    hide BeingRemoved;
    BoxIsOpen(n);
    NotBeingRemoved(BoxMade(n), b3, 1, n);
    assert [] + messages == messages;
    OneHandle(b3.fs, At(b2, 1).fd);
  }

  lemma OneHandle(fs: Fs, fd: int)
    requires fs.handles.Keys == {} + {fd}
    ensures |fs.handles| == 1
  {
    assert |fs.handles.Keys| == |{fd}|;
  }

  lemma BoxIsOpen(n: BoxName)
    ensures IsOpenTo(BoxMade(n), n)
  {
  }

  lemma SubscribedFrom(e3: seq<Event>, n: BoxName, messages: seq<Message>)
    requires Guarded(e3) && IsPublished(Run(e3), n, messages)
    ensures var all := e3 + SubEvents(2, n) + ReadEvents(2, |Log(messages)|);
            Guarded(all) && At(Run(all), 2).SubReady? && At(Run(all), 2).name == n && At(Run(all), 2).got == Log(messages)
  {
    hide Inv, Run, Guarded, Flat, Log, BeingRemoved;
    SubscriberComes(e3, 2, n);
    var log := Log(messages);
    SubscriberGets(e3 + SubEvents(2, n), 2, |log|);
    assert log[..|log|] == log;
  }

  lemma HundredAtMost(messages: seq<Message>)
    ensures Log(messages) == if |messages| <= 100 then messages else messages[..100]
  {
  }
}
