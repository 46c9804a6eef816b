/**
 Listing the boxes while the broker works: the listing holds the table's mutex, but each
 box is read under its own, so its records need not come from one state of the broker.
 */
module BrokerListing {
  import opened CStrings
  import opened Sizes
  import opened FsSpec
  import opened Wire
  import opened Listing
  import opened BrokerModel
  import opened BrokerSafety
  import opened BrokerTheorems

  // ---------- While the table's mutex is held ----------

  /** The steps that take the table's mutex: box_find, box_add and box_remove. */
  predicate LocksTable(ev: Event) {
    ev.FindForPub? || ev.FindForSub? || ev.StartCreate? || ev.AddBox? || ev.StartRemove? || ev.DropBox?
  }

  ghost predicate TableHeld(evs: seq<Event>, begin: nat, end: nat)
    requires end <= |evs|
  {
    forall k | begin <= k < end :: !LocksTable(evs[k])
  }

  lemma GuardedFront(evs: seq<Event>)
    requires Guarded(evs) && evs != []
    ensures Guarded(evs[..|evs| - 1])
  {
    hide Inv, Run, Admits;
  }

  lemma {:induction false} GuardedPrefix(evs: seq<Event>, k: nat)
    requires Guarded(evs) && k <= |evs|
    ensures Guarded(evs[..k])
    decreases |evs|
  {
    hide Guarded;
    if k == |evs| {
      assert evs[..k] == evs;
    } else {
      GuardedFront(evs);
      GuardedPrefix(evs[..|evs| - 1], k);
      assert evs[..|evs| - 1][..k] == evs[..k];
    }
  }

  /** The broker after the first `k` steps of a run. */
  ghost function After(evs: seq<Event>, k: nat): Broker
    requires Guarded(evs) && k <= |evs|
  {
    GuardedPrefix(evs, k);
    Run(evs[..k])
  }

  lemma AfterInv(evs: seq<Event>, k: nat)
    requires Guarded(evs) && k <= |evs|
    ensures Inv(After(evs, k))
  {
    hide Inv, Run;
    GuardedPrefix(evs, k);
  }

  lemma AfterNext(evs: seq<Event>, k: nat)
    requires Guarded(evs) && k < |evs|
    ensures Inv(After(evs, k)) && Admits(After(evs, k), evs[k]) && After(evs, k + 1) == Step(After(evs, k), evs[k])
  {
    hide Inv, Step, Admits;
    GuardedPrefix(evs, k + 1);
    assert evs[..k + 1][..k] == evs[..k];
  }

  /** The same boxes under the same names, none of them smaller. */
  ghost predicate KeepsBoxes(b: Broker, b': Broker) {
    && b'.table.Keys == b.table.Keys
    && forall n | n in b.table :: b'.table[n].id == b.table[n].id && b'.table[n].size >= b.table[n].size
  }

  lemma StepKeepsBoxes(b: Broker, ev: Event)
    requires Inv(b) && Admits(b, ev) && !LocksTable(ev)
    ensures KeepsBoxes(b, Step(b, ev))
  {
    hide Inv, StepReceive, StepCount, StepUnregisterSub, Open, Close, Read, Unlink;
    match ev
    case Receive(sid, input) => if At(b, sid).PubReady? { ReceiveKeepsBoxes(b, sid, input); }
    case Count(sid) => if At(b, sid).PubCounting? { CountKeepsBoxes(b, sid); }
    case UnregisterSub(sid) => if At(b, sid).SubLeaving? { LeavingKeepsBoxes(b, sid); }
    case _ =>
  }

  lemma ReceiveKeepsBoxes(b: Broker, sid: nat, input: PipeInput)
    requires Inv(b) && At(b, sid).PubReady?
    ensures KeepsBoxes(b, StepReceive(b, sid, input))
  {
    hide Inv, Write, Flat, Log, BeingRemoved, Unlinked;
    LiveFacts(b, sid);
  }

  lemma CountKeepsBoxes(b: Broker, sid: nat)
    requires Inv(b) && At(b, sid).PubCounting?
    ensures KeepsBoxes(b, StepCount(b, sid))
  {
    hide Inv, Flat, Log, BeingRemoved, Unlinked;
    LiveFacts(b, sid);
  }

  lemma LeavingKeepsBoxes(b: Broker, sid: nat)
    requires Inv(b) && At(b, sid).SubLeaving?
    ensures KeepsBoxes(b, StepUnregisterSub(b, sid))
  {
    hide Inv, Flat, Log, BeingRemoved, Unlinked;
    LiveFacts(b, sid);
  }

  lemma {:induction false} HeldKeepsBoxes(evs: seq<Event>, begin: nat, end: nat)
    requires Guarded(evs) && begin <= end <= |evs| && TableHeld(evs, begin, end)
    ensures KeepsBoxes(After(evs, begin), After(evs, end))
    decreases end
  {
    hide After, Inv, Step, Admits, LocksTable;
    if begin < end {
      HeldKeepsBoxes(evs, begin, end - 1);
      AfterNext(evs, end - 1);
      StepKeepsBoxes(After(evs, end - 1), evs[end - 1]);
    }
  }

  // ---------- The slots ----------

  /** What a slot of the table holds; it stays so while the table's mutex is held. */
  datatype Place = Vacant | HeldBy(name: BoxName)

  /** The slots hold the boxes of the table, each in one slot. */
  ghost predicate LaidOut(places: seq<Place>, b: Broker) {
    && (forall i | 0 <= i < |places| && places[i].HeldBy? :: places[i].name in b.table)
    && (forall n | n in b.table :: HeldBy(n) in places)
    && (forall i, j | 0 <= i < j < |places| && places[i].HeldBy? :: places[i] != places[j])
  }

  /** A slot as it is read: its box with the fields it has then. */
  function SlotIn(p: Place, b: Broker): Slot {
    if p.HeldBy? && p.name in b.table then
      var box := b.table[p.name];
      Filled(BoxInfo(p.name, box.size, box.pubNum, box.subNum))
    else Hole
  }

  /** The listing that reads slot `i` in state `bs[i]`. */
  function Listed(places: seq<Place>, bs: seq<Broker>): seq<Slot>
    requires |bs| == |places|
  {
    seq(|places|, i requires 0 <= i < |places| => SlotIn(places[i], bs[i]))
  }

  function Names(places: seq<Place>): set<BoxName> {
    set p | p in places && p.HeldBy? :: p.name
  }

  lemma {:induction false} InfosCountNames(places: seq<Place>, snap: seq<Slot>)
    requires |snap| == |places| && forall i | 0 <= i < |places| :: snap[i].Filled? <==> places[i].HeldBy?
    requires forall i, j | 0 <= i < j < |places| && places[i].HeldBy? :: places[i] != places[j]
    ensures |Infos(snap)| == |Names(places)|
    decreases |places|
  {
    if places != [] {
      var last := |places| - 1;
      hide Names;
      InfosCountNames(places[..last], snap[..last]);
      assert places == places[..last] + [places[last]];
      NamesGrow(places[..last], places[last]);
    }
  }

  lemma NamesGrow(places: seq<Place>, p: Place)
    requires p.HeldBy? ==> p !in places
    ensures |Names(places + [p])| == |Names(places)| + if p.HeldBy? then 1 else 0
  {
    assert Names(places + [p]) == Names(places) + if p.HeldBy? then {p.name} else {};
  }

  lemma {:induction false} InfoListed(snap: seq<Slot>, i: nat)
    requires i < |snap| && snap[i].Filled?
    ensures snap[i].info in Infos(snap)
    decreases |snap|
  {
    if i < |snap| - 1 {
      InfoListed(snap[..|snap| - 1], i);
    }
  }

  /** Size and pub_num fit in 64 bits. */
  lemma CountersFit(b: Broker, n: BoxName)
    requires Inv(b) && n in b.table
    ensures b.table[n].size <= MESSAGE_LEN * LOG_LEN < SIZE_T_RANGE && b.table[n].pubNum < SIZE_T_RANGE
  {
    hide Inv;
    BoxFacts(b, n);
  }

  ghost predicate SubsFit(b: Broker) {
    forall n | n in b.table :: b.table[n].subNum < SIZE_T_RANGE
  }

  // ---------- A listing among the steps of other threads ----------

  /** A state the broker is in between steps `begin` and `end` of a run. */
  ghost predicate IsDuring(evs: seq<Event>, begin: nat, end: nat, b: Broker)
    requires Guarded(evs) && end <= |evs|
  {
    exists k :: begin <= k <= end && b == After(evs, k)
  }

  /** A record has the fields that box `n` had when its slot was read. */
  ghost predicate AnnouncedAsRead(wire: seq<seq<Byte>>, places: seq<Place>, bs: seq<Broker>, n: BoxName)
    requires |bs| == |places|
  {
    exists i :: 0 <= i < |places| && places[i] == HeldBy(n) && n in bs[i].table && Announced(wire, n, bs[i].table[n])
  }

  /**
   A listing whose slots are read at any points of a stretch of a run in which nobody takes
   the table's mutex: one record for each box, with the fields the box had when its slot was
   read, and the client stops at the last one exactly if the top slot is occupied.
   */
  lemma ListedDuringRun(evs: seq<Event>, begin: nat, end: nat, places: seq<Place>, bs: seq<Broker>)
    requires Guarded(evs) && begin <= end <= |evs| && TableHeld(evs, begin, end)
    requires LaidOut(places, After(evs, begin)) && After(evs, begin).table != map[]
    requires |bs| == |places| && forall i | 0 <= i < |bs| :: IsDuring(evs, begin, end, bs[i]) && SubsFit(bs[i])
    ensures var wire, table := Sent(Listed(places, bs)), After(evs, begin).table;
            && |wire| == |table| && |places| > 0
            && StopsAt(wire) == (if places[|places| - 1].HeldBy? then |wire| - 1 else -1)
            && forall n | n in table :: AnnouncedAsRead(wire, places, bs, n)
  {
    hide After, Guarded, Inv, Infos, Sent, Parse, Names, IsDuring, SubsFit;
    var snap, b := Listed(places, bs), After(evs, begin);
    forall i | 0 <= i < |places|
      ensures snap[i].Filled? <==> places[i].HeldBy?
      ensures snap[i].Filled? ==> snap[i].info.Valid() && places[i].name in bs[i].table
    {
      ReadBetween(evs, begin, end, places[i], bs[i]);
    }
    InfosCountNames(places, snap);
    NamesAreTable(places, b);
    ListingUnderstoodExactly(snap);
    forall n | n in b.table
      ensures AnnouncedAsRead(Sent(snap), places, bs, n)
    {
      var i :| 0 <= i < |places| && places[i] == HeldBy(n);
      InfoListed(snap, i);
      var k :| 0 <= k < |Infos(snap)| && Infos(snap)[k] == snap[i].info;
      assert |Sent(snap)[k]| == LIST_RECORD_SIZE;
    }
  }

  /** The size announced of a box lies between its sizes when the listing begins and when it ends. */
  lemma ReadBetween(evs: seq<Event>, begin: nat, end: nat, p: Place, b: Broker)
    requires Guarded(evs) && begin <= end <= |evs| && TableHeld(evs, begin, end) && IsDuring(evs, begin, end, b) && SubsFit(b)
    requires p.HeldBy? ==> p.name in After(evs, begin).table
    ensures SlotIn(p, b).Filled? <==> p.HeldBy?
    ensures p.HeldBy? ==>
              && SlotIn(p, b).info.Valid() && p.name in b.table && p.name in After(evs, end).table
              && After(evs, begin).table[p.name].size <= SlotIn(p, b).info.size <= After(evs, end).table[p.name].size
  {
    hide After, Guarded, Inv;
    var k :| begin <= k <= end && b == After(evs, k);
    HeldKeepsBoxes(evs, begin, k);
    HeldKeepsBoxes(evs, k, end);
    AfterInv(evs, k);
    if p.HeldBy? {
      CountersFit(b, p.name);
    }
  }

  lemma NamesAreTable(places: seq<Place>, b: Broker)
    requires LaidOut(places, b)
    ensures |Names(places)| == |b.table| && (b.table != map[] ==> |Names(places)| > 0 && |places| > 0)
  {
    assert Names(places) == b.table.Keys;
    if b.table != map[] {
      var n :| n in b.table;
      assert n in Names(places);
    }
  }
}
