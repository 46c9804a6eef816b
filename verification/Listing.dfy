/**
 Listing the boxes: the broker's loop over the table's slots, the manager client's
 growing list, and exactly when the one understands the other.
 */
module Listing {
  import opened CStrings
  import opened Finite
  import opened Boxes
  import opened Wire
  import opened Sizes

  datatype Slot = Hole | Filled(info: BoxInfo)

  // ---------- What the broker sends ----------

  /** The listed boxes, in slot order. */
  function Infos(snap: seq<Slot>): seq<BoxInfo> {
    if snap == [] then []
    else
      var top := snap[|snap| - 1];
      Infos(snap[..|snap| - 1]) + if top.Filled? then [top.info] else []
  }

  /** The record for one slot, if it is occupied. */
  function RecordOf(slot: Slot, last: bool): seq<seq<Byte>> {
    if slot.Filled? then [Record(last, slot.info)] else []
  }

  /** The records for the first `n` slots: the flag is set for slot size-1 only. */
  function Records(snap: seq<Slot>, n: nat): seq<seq<Byte>>
    requires n <= |snap|
  {
    if n == 0 then []
    else Records(snap, n - 1) + RecordOf(snap[n - 1], n == |snap|)
  }

  function EmptyRecord(): (r: seq<Byte>)
    ensures |r| == LIST_RECORD_SIZE && r[1] == 1 && r[2] == NUL
  {
    [8, 1] + seq(LIST_RECORD_SIZE - 2, _ => NUL)
  }

  function Sent(snap: seq<Slot>): seq<seq<Byte>> {
    if Infos(snap) == [] then [EmptyRecord()] else Records(snap, |snap|)
  }

  ghost function SlotOf(b: Box?): Slot
    reads b
  {
    if b == null then Hole else Filled(BoxInfo(b.fileName, b.size, b.pubNum, b.subNum))
  }

  ghost function Snapshot(slots: Slots): seq<Slot>
    reads slots
  {
    seq(|slots|, i requires 0 <= i < |slots| reads slots => SlotOf(slots[i]))
  }

  lemma {:induction false} InfosCountOccupied(slots: Slots)
    ensures |Infos(Snapshot(slots))| == Occupied(slots)
    decreases |slots|
  {
    if slots != [] {
      var last := |slots| - 1;
      InfosCountOccupied(slots[..last]);
      assert Snapshot(slots)[..last] == Snapshot(slots[..last]);
    }
  }

  /** The table lists one entry for every box, with the box's own fields. */
  lemma ListedAreTheBoxes(slots: Slots)
    requires NamesDistinct(slots)
    ensures |Infos(Snapshot(slots))| == |Entries(slots)|
    ensures forall n | n in Entries(slots) :: SlotOf(Entries(slots)[n]).info in Infos(Snapshot(slots))
  {
    hide NamesDistinct, Entries;
    InfosCountOccupied(slots);
    OccupiedCountsEntries(slots);
    forall n | n in Entries(slots)
      ensures SlotOf(Entries(slots)[n]).info in Infos(Snapshot(slots))
    {
      var i := EntrySlot(slots, n);
      ListedAt(slots, i);
    }
  }

  lemma {:induction false} ListedAt(slots: Slots, i: nat)
    requires i < |slots| && slots[i] != null
    ensures SlotOf(slots[i]).info in Infos(Snapshot(slots))
    decreases |slots|
  {
    var last := |slots| - 1;
    assert Snapshot(slots)[..last] == Snapshot(slots[..last]);
    if i < last {
      ListedAt(slots[..last], i);
    }
  }

  /** Every record written has 58 bytes and begins with the code 8, also the one for an empty table. */
  lemma SentAreListRecords(snap: seq<Slot>)
    ensures forall k | 0 <= k < |Sent(snap)| :: |Sent(snap)[k]| == 58 && Sent(snap)[k][0] == 8
  {
    RecordsBegin(snap, |snap|);
  }

  lemma {:induction false} RecordsBegin(snap: seq<Slot>, n: nat)
    requires n <= |snap|
    ensures forall k | 0 <= k < |Records(snap, n)| :: |Records(snap, n)[k]| == 58 && Records(snap, n)[k][0] == 8
  {
    if n > 0 {
      RecordsBegin(snap, n - 1);
    }
  }

  /** A box comes after as many others as are in the slots before its own. */
  lemma {:induction false} InfosInOrder(snap: seq<Slot>, i: nat)
    requires i < |snap| && snap[i].Filled?
    ensures |Infos(snap[..i])| < |Infos(snap)| && Infos(snap)[|Infos(snap[..i])|] == snap[i].info
    decreases |snap|
  {
    var last := |snap| - 1;
    if i < last {
      InfosInOrder(snap[..last], i);
      assert snap[..last][..i] == snap[..i];
    }
  }

  /** manager_list_box: the records written to the client's pipe. */
  method ListBoxes(table: BoxTable) returns (sent: seq<seq<Byte>>)
    requires table.Valid()
    ensures sent == Sent(Snapshot(table.All()[..table.size]))
    ensures forall k | 0 <= k < |sent| :: |sent[k]| == 58 && sent[k][0] == 8
  {
    SentAreListRecords(Snapshot(table.All()[..table.size]));
    ghost var snap := Snapshot(table.All()[..table.size]);
    InfosCountOccupied(table.All()[..table.size]);
    if table.numElem == 0 {
      return [EmptyRecord()];
    }
    sent := [];
    for i := 0 to table.size
      invariant sent == Records(snap, i)
    {
      var box := table.boxes[i];
      if box != null {
        var last := i == table.size - 1;
        sent := sent + [Record(last, BoxInfo(box.fileName, box.size, box.pubNum, box.subNum))];
      }
    }
  }

  // ---------- What the client makes of it ----------

  const MANAGER_LIST_START_SIZE: nat := 8

  predicate Flagged(r: seq<Byte>) {
    |r| == LIST_RECORD_SIZE && r[1] != 0
  }

  /** The index of the record the client stops at, or -1 if it keeps waiting for one. */
  function StopsAt(wire: seq<seq<Byte>>): int {
    Least(wire, Flagged)
  }

  /**
   The receive loop for op code 8. `blocked` stands for a read that never returns: the
   broker has sent everything and no record was flagged. Every access stays inside the list.
   */
  method ReceiveList(wire: seq<seq<Byte>>)
    returns (blocked: bool, list: array<seq<Byte>>, listSize: nat, listCapacity: nat)
    requires forall i | 0 <= i < |wire| :: |wire[i]| == LIST_RECORD_SIZE
    ensures fresh(list) && list.Length == listCapacity && listSize < listCapacity
    ensures blocked <==> StopsAt(wire) == -1
    ensures !blocked ==> listSize == StopsAt(wire) + 1
    ensures listSize <= |wire| && list[..listSize] == wire[..listSize]
  {
    listCapacity := MANAGER_LIST_START_SIZE;
    list := new seq<Byte>[MANAGER_LIST_START_SIZE](_ => []);
    listSize := 0;
    blocked := false;
    var last := 0;
    var i := 0;
    while last == 0
      invariant i == listSize <= |wire| && list.Length == listCapacity && listSize < listCapacity && fresh(list)
      invariant listCapacity >= MANAGER_LIST_START_SIZE
      invariant list[..listSize] == wire[..listSize] && !blocked
      invariant last == 0 ==> forall j | 0 <= j < i :: !Flagged(wire[j])
      invariant last != 0 ==> i > 0 && StopsAt(wire) == i - 1
      decreases |wire| - i, last == 0
    {
      if i == |wire| {
        blocked := true;
        break;
      }
      list[i] := wire[i];
      assert list[..listSize + 1] == wire[..listSize + 1];
      if i == 0 {
        listSize := listSize + 1;
      } else {
        if listSize == listCapacity - 1 {
          listCapacity := listCapacity * 2;
          list := Doubled(list);
        }
        listSize := listSize + 1;
      }
      last := list[..listSize][i][1];
      i := i + 1;
    }
  }

  /** realloc to twice the size; the new entries are cleared. */
  method Doubled(list: array<seq<Byte>>) returns (larger: array<seq<Byte>>)
    ensures fresh(larger) && larger.Length == 2 * list.Length && larger[..list.Length] == list[..]
  {
    larger := new seq<Byte>[2 * list.Length](_ => []);
    for j := 0 to list.Length
      invariant larger[..j] == list[..j]
      modifies larger
    {
      larger[j] := list[j];
    }
  }

  // ---------- Exactly when the listing is understood ----------

  /** One record per box; only the record of the top slot is flagged. */
  lemma {:induction false} RecordsFlagged(snap: seq<Slot>, n: nat)
    requires n <= |snap|
    ensures |Records(snap, n)| == |Infos(snap[..n])|
    ensures forall k | 0 <= k < |Records(snap, n)| ::
              && |Records(snap, n)[k]| == LIST_RECORD_SIZE
              && (Flagged(Records(snap, n)[k]) <==> n == |snap| && snap[n - 1].Filled? && k == |Records(snap, n)| - 1)
  {
    if n > 0 {
      RecordsFlagged(snap, n - 1);
      assert snap[..n][..n - 1] == snap[..n - 1];
    }
  }

  lemma {:induction false} RecordsParsed(snap: seq<Slot>, n: nat)
    requires n <= |snap| && forall i | 0 <= i < |snap| && snap[i].Filled? :: snap[i].info.Valid()
    ensures |Records(snap, n)| == |Infos(snap[..n])|
    ensures forall k | 0 <= k < |Records(snap, n)| ::
              && |Records(snap, n)[k]| == LIST_RECORD_SIZE
              && Parse(Records(snap, n)[k]) == (Infos(snap[..n])[k].name, Infos(snap[..n])[k].size,
                                                Infos(snap[..n])[k].pubNum, Infos(snap[..n])[k].subNum)
  {
    if n > 0 {
      RecordsParsed(snap, n - 1);
      assert snap[..n][..n - 1] == snap[..n - 1];
      if snap[n - 1].Filled? {
        RecordRoundTrip(n == |snap|, snap[n - 1].info);
      }
    }
  }

  /** The client stops exactly if the top slot is occupied, and then at the last record. */
  lemma StopsExactly(snap: seq<Slot>)
    requires Infos(snap) != []
    ensures StopsAt(Sent(snap)) == if snap[|snap| - 1].Filled? then |Sent(snap)| - 1 else -1
  {
    RecordsFlagged(snap, |snap|);
    assert snap[..|snap|] == snap;
    var wire := Sent(snap);
    assert |wire| > 0;
    assert Flagged(wire[|wire| - 1]) <==> snap[|snap| - 1].Filled?;
  }

  /**
   The broker sends one record per box, in slot order, and the client prints exactly
   those; it stops exactly if the top slot is occupied, and then at the last record.
   Removing a box lowers the size by one at most, so a hole can be left at the top: then
   no record is flagged and the client waits for ever.
   */
  lemma ListingUnderstoodExactly(snap: seq<Slot>)
    requires forall i | 0 <= i < |snap| && snap[i].Filled? :: snap[i].info.Valid()
    requires Infos(snap) != []
    ensures var wire, infos := Sent(snap), Infos(snap);
            && |wire| == |infos|
            && (forall k | 0 <= k < |wire| :: |wire[k]| == LIST_RECORD_SIZE
                 && Parse(wire[k]) == (infos[k].name, infos[k].size, infos[k].pubNum, infos[k].subNum))
            && StopsAt(wire) == (if snap[|snap| - 1].Filled? then |wire| - 1 else -1)
  {
    RecordsParsed(snap, |snap|);
    assert snap[..|snap|] == snap;
    StopsExactly(snap);
  }

  /** A record of the wire says this of box `n`. */
  ghost predicate Announced(wire: seq<seq<Byte>>, n: CString, box: BoxState) {
    exists k :: 0 <= k < |wire| && |wire[k]| == LIST_RECORD_SIZE && Parse(wire[k]) == (n, box.size, box.pubNum, box.subNum)
  }

  /** The records are the table: as many as boxes, and each box announced with its fields. */
  lemma WireIsTable(slots: Slots)
    requires NamesDistinct(slots) && States(slots) != map[]
    requires forall n | n in States(slots) ::
               && States(slots)[n].size < SIZE_T_RANGE && States(slots)[n].pubNum < SIZE_T_RANGE
               && States(slots)[n].subNum < SIZE_T_RANGE
    ensures |Sent(Snapshot(slots))| == |States(slots)|
    ensures forall n | n in States(slots) :: Announced(Sent(Snapshot(slots)), n, States(slots)[n])
  {
    hide NamesDistinct, Entries, Records, Record, Parse, Infos, Sent;
    ListedAreTheBoxes(slots);
    EntriesNamed(slots);
    var snap := Snapshot(slots);
    forall i | 0 <= i < |snap| && snap[i].Filled?
      ensures snap[i].info.Valid()
    {
      EntryAt(slots, i, slots[i].fileName);
    }
    ListingUnderstoodExactly(snap);
    forall n | n in States(slots)
      ensures Announced(Sent(snap), n, States(slots)[n])
    {
      var k :| 0 <= k < |Infos(snap)| && Infos(snap)[k] == SlotOf(Entries(slots)[n]).info;
      assert |Sent(snap)[k]| == LIST_RECORD_SIZE;
    }
  }

  lemma TableStopsExactly(slots: Slots)
    requires NamesDistinct(slots) && States(slots) != map[]
    ensures |slots| > 0
    ensures var wire := Sent(Snapshot(slots));
            StopsAt(wire) == if slots[|slots| - 1] != null then |wire| - 1 else -1
  {
    hide NamesDistinct, Entries, Sent, Flagged;
    ListedAreTheBoxes(slots);
    StopsExactly(Snapshot(slots));
  }

  /** An empty table is announced by one flagged record with an empty name. */
  lemma EmptyListing(snap: seq<Slot>)
    requires Infos(snap) == []
    ensures StopsAt(Sent(snap)) == 0 && |Sent(snap)| == 1 && StringIn(Sent(snap)[0][2..34]) == []
  {
    assert Flagged(Sent(snap)[0]);
    StrLenIs(EmptyRecord()[2..34], 0);
  }

  method ThreeBoxes(a: BoxName, b: BoxName, c: BoxName) returns (table: BoxTable)
    ensures fresh(table) && fresh(table.boxes) && table.Valid() && table.size == 3 && table.numElem == 3
    ensures Holds(table.All(), 0, a) && Holds(table.All(), 1, b) && Holds(table.All(), 2, c)
  {
    table := new BoxTable.Init();
    var _, boxA := table.Add(a, 0);
    assert table.All()[0] == boxA;
    var _, boxB := table.Add(b, 1);
    assert table.All()[1] == boxB;
    var _, boxC := table.Add(c, 2);
    assert table.All()[2] == boxC;
  }

  /**
   Such a hole is reached by adding three boxes and removing the last two, lowest first: one
   box is announced by one record, and a client that receives it waits for another for ever.
   */
  method TopHole(a: BoxName, b: BoxName, c: BoxName) returns (table: BoxTable, wire: seq<seq<Byte>>)
    requires a != b && b != c && a != c
    ensures table.Valid() && table.numElem == 1 && table.size == 2
    ensures Holds(table.All(), 0, a) && table.All()[1] == null
    ensures wire == Sent(Snapshot(table.All()[..table.size])) && |wire| == 1 && StopsAt(wire) == -1
  {
    hide NamesDistinct, Entries, Named;
    table := ThreeBoxes(a, b, c);
    ghost var slots := table.All();
    assert Named(slots, b) by { NamedAt(slots, 1, b); }
    var _ := table.Remove(b);
    ghost var fewer := table.All();
    assert fewer == slots[1 := null];
    assert Named(fewer, c) by { NamedAt(fewer, 2, c); }
    var _ := table.Remove(c);
    wire := ListBoxes(table);
    ghost var snap := Snapshot(table.All()[..table.size]);
    InfosCountOccupied(table.All()[..table.size]);
    RecordsFlagged(snap, |snap|);
    assert snap[..|snap|] == snap;
    StopsExactly(snap);
  }

  lemma NamedAt(slots: Slots, i: nat, name: CString)
    requires Holds(slots, i, name)
    ensures Named(slots, name)
  {
  }
}
