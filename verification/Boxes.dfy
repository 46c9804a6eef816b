/**
 The broker's growable table of boxes. Removing a box leaves a hole, adding one fills
 the first hole; `size` is one past the last slot ever looked at.
 */
module Boxes {
  import opened CStrings
  import opened Finite
  import opened Sizes

  const TABLE_STARTING_CAPACITY: nat := 8

  /** A box's fields; `id` tells apart boxes of the same name created at different times. */
  datatype BoxState = BoxState(id: nat, pubNum: nat, subNum: nat, size: nat)

  class Box {
    const fileName: BoxName
    ghost const id: nat
    var pubNum: nat
    var subNum: nat
    var size: nat

    constructor (fileName: BoxName, ghost id: nat)
      ensures this.fileName == fileName && this.id == id
      ensures pubNum == subNum == size == 0
    {
      this.fileName := fileName;
      this.id := id;
      pubNum, subNum, size := 0, 0, 0;
    }

    ghost function State(): BoxState
      reads this
    {
      BoxState(id, pubNum, subNum, size)
    }

    /** The part of box_register_pub under the box's mutex: at most one publisher at a time. */
    method RaisePub() returns (ok: bool)
      modifies this`pubNum
      ensures ok <==> old(pubNum) != 1
      ensures pubNum == if ok then old(pubNum) + 1 else old(pubNum)
      ensures old(pubNum) <= 1 ==> pubNum == 1
    {
      ok := pubNum != 1;
      if ok {
        pubNum := pubNum + 1;
      }
    }

    /** The part of box_register_sub under the box's mutex. */
    method RaiseSub()
      modifies this`subNum
      ensures subNum == old(subNum) + 1
    {
      subNum := subNum + 1;
    }

    /** box_unregister_pub */
    method UnregisterPub() returns (ret: int)
      modifies this`pubNum
      ensures ret == (if old(pubNum) == 0 then -1 else 0)
      ensures pubNum == if old(pubNum) == 0 then 0 else old(pubNum) - 1
      ensures old(pubNum) <= 1 ==> pubNum == 0
    {
      if pubNum == 0 {
        return -1;
      }
      pubNum := pubNum - 1;
      return 0;
    }

    /** box_unregister_sub */
    method UnregisterSub() returns (ret: int)
      modifies this`subNum
      ensures ret == (if old(subNum) == 0 then -1 else 0)
      ensures subNum == if old(subNum) == 0 then 0 else old(subNum) - 1
    {
      if subNum == 0 {
        return -1;
      }
      subNum := subNum - 1;
      return 0;
    }
  }

  // ---------- Slots ----------

  type Slots = seq<Box?>

  function Occupied(slots: Slots): (n: nat)
    ensures n <= |slots|
    ensures n == |slots| <==> null !in slots
  {
    if slots == [] then 0 else Occupied(slots[..|slots| - 1]) + if slots[|slots| - 1] == null then 0 else 1
  }

  lemma {:induction false} OccupiedUpdate(slots: Slots, k: nat, b: Box?)
    requires k < |slots|
    ensures Occupied(slots[k := b])
         == Occupied(slots) - (if slots[k] == null then 0 else 1) + (if b == null then 0 else 1)
  {
    var last := |slots| - 1;
    if k == last {
      assert slots[k := b][..last] == slots[..last];
    } else {
      assert slots[k := b][..last] == slots[..last][k := b];
      OccupiedUpdate(slots[..last], k, b);
    }
  }

  lemma OccupiedNext(slots: Slots, n: nat)
    requires n < |slots|
    ensures Occupied(slots[..n + 1]) == Occupied(slots[..n]) + if slots[n] == null then 0 else 1
  {
    assert slots[..n + 1][..n] == slots[..n];
  }

  predicate IsHole(b: Box?) { b == null }

  ghost predicate Holds(slots: Slots, i: int, name: CString) {
    0 <= i < |slots| && slots[i] != null && slots[i].fileName == name
  }

  ghost predicate Named(slots: Slots, name: CString) {
    exists i :: Holds(slots, i, name)
  }

  /** The box box_find stops at: the first of that name, or null. */
  function FirstNamed(slots: Slots, name: CString): (box: Box?)
    ensures box == null <==> forall i :: !Holds(slots, i, name)
    ensures box != null ==> box in slots && box.fileName == name
    ensures forall i | Holds(slots, i, name) && forall j | 0 <= j < i :: !Holds(slots, j, name) :: slots[i] == box
  {
    var i := Least(slots, (b: Box?) => b != null && b.fileName == name);
    assert i == -1 ==> forall j | 0 <= j < |slots| :: !Holds(slots, j, name);
    assert i >= 0 ==> Holds(slots, i, name) && forall j | 0 <= j < i :: !Holds(slots, j, name);
    if i == -1 then null else slots[i]
  }

  /** No two boxes have the same name. */
  ghost predicate NamesDistinct(slots: Slots) {
    forall i, j | 0 <= i < j < |slots| && slots[i] != null && slots[j] != null :: slots[i].fileName != slots[j].fileName
  }

  /** The finite map a table with distinct names stands for. */
  ghost function Entries(slots: Slots): map<CString, Box>
    requires NamesDistinct(slots)
  {
    map i | 0 <= i < |slots| && slots[i] != null :: slots[i].fileName := slots[i]
  }

  lemma EntryAt(slots: Slots, i: int, name: CString)
    requires NamesDistinct(slots) && Holds(slots, i, name)
    ensures name in Entries(slots) && Entries(slots)[name] == slots[i]
  {
  }

  lemma EntrySlot(slots: Slots, name: CString) returns (i: int)
    requires NamesDistinct(slots) && name in Entries(slots)
    ensures Holds(slots, i, name) && Entries(slots)[name] == slots[i]
  {
    i :| 0 <= i < |slots| && slots[i] != null && slots[i].fileName == name;
  }

  lemma NotEntryNotNamed(slots: Slots, name: CString)
    requires NamesDistinct(slots) && name !in Entries(slots)
    ensures !Named(slots, name)
  {
  }

  lemma EntryIsNamed(slots: Slots, name: CString)
    requires NamesDistinct(slots) && name in Entries(slots)
    ensures Named(slots, name)
  {
    var i := EntrySlot(slots, name);
  }

  lemma EntriesAllocated(slots: Slots)
    requires NamesDistinct(slots)
    ensures forall n | n in Entries(slots) :: allocated(Entries(slots)[n])
  {
  }

  lemma StateIs(box: Box)
    ensures box.State() == BoxState(box.id, box.pubNum, box.subNum, box.size)
  {
  }

  lemma EntriesNamed(slots: Slots)
    requires NamesDistinct(slots)
    ensures forall n | n in Entries(slots) :: Entries(slots)[n].fileName == n && Entries(slots)[n] in slots
  {
    forall n | n in Entries(slots)
      ensures Entries(slots)[n].fileName == n && Entries(slots)[n] in slots
    {
      var i := EntrySlot(slots, n);
    }
  }

  lemma {:induction false} OccupiedCountsEntries(slots: Slots)
    requires NamesDistinct(slots)
    ensures Occupied(slots) == |Entries(slots)|
    decreases |slots|
  {
    if slots != [] {
      var last := |slots| - 1;
      var front, b := slots[..last], slots[last];
      assert front + [null] == slots[last := null];
      EntriesExtended(front, [null]);
      if b == null {
        assert slots == front + [null];
        StillDistinct(slots, last);
      } else {
        StillDistinct(slots, last);
        EntriesAdded(slots[last := null], last, b);
        assert slots[last := null][last := b] == slots;
        EntryIffNamed(slots[last := null], b.fileName);
      }
      OccupiedCountsEntries(front);
    }
  }

  lemma EntryIffNamed(slots: Slots, name: CString)
    requires NamesDistinct(slots)
    ensures name in Entries(slots) <==> Named(slots, name)
  {
    if name in Entries(slots) {
      EntryIsNamed(slots, name);
    } else {
      NotEntryNotNamed(slots, name);
    }
  }

  /** The boxes' fields by name. */
  ghost function States(slots: Slots): (table: map<CString, BoxState>)
    requires NamesDistinct(slots)
    reads slots
    ensures table.Keys == Entries(slots).Keys
    ensures forall n | n in table :: Entries(slots)[n] in slots && table[n] == Entries(slots)[n].State()
  {
    EntriesNamed(slots);
    map n | n in Entries(slots) :: Entries(slots)[n].State()
  }

  lemma StatesAre(slots: Slots, table: map<CString, BoxState>)
    requires NamesDistinct(slots) && Entries(slots).Keys == table.Keys
    requires forall n | n in table :: Entries(slots)[n].State() == table[n]
    ensures States(slots) == table
  {
    hide NamesDistinct, Entries;
  }

  /** Changing one box changes one entry. */
  lemma OneBoxChanged(slots: Slots, before: map<CString, BoxState>, name: CString)
    requires NamesDistinct(slots) && name in Entries(slots) && Entries(slots).Keys == before.Keys
    requires forall n | n in before && n != name :: Entries(slots)[n].State() == before[n]
    ensures States(slots) == before[name := Entries(slots)[name].State()]
  {
    hide NamesDistinct, Entries;
  }

  lemma EntriesExtended(slots: Slots, holes: Slots)
    requires forall i | 0 <= i < |holes| :: holes[i] == null
    ensures NamesDistinct(slots + holes) <==> NamesDistinct(slots)
    ensures forall name :: Named(slots + holes, name) <==> Named(slots, name)
    ensures NamesDistinct(slots) ==> Entries(slots + holes) == Entries(slots)
  {
    var all := slots + holes;
    assert forall i, name :: Holds(all, i, name) <==> Holds(slots, i, name);
    if NamesDistinct(all) {
      forall i, j | 0 <= i < j < |slots| && slots[i] != null && slots[j] != null
        ensures slots[i].fileName != slots[j].fileName
      {
        assert all[i] == slots[i] && all[j] == slots[j];
      }
    }
    if NamesDistinct(slots) {
      forall name | name in Entries(all)
        ensures name in Entries(slots) && Entries(slots)[name] == Entries(all)[name]
      {
        var i := EntrySlot(all, name);
        EntryAt(slots, i, name);
      }
      forall name | name in Entries(slots)
        ensures name in Entries(all)
      {
        var i := EntrySlot(slots, name);
        EntryAt(all, i, name);
      }
    }
  }

  lemma NotNamed(slots: Slots, name: CString)
    requires forall j | 0 <= j < |slots| :: !Holds(slots, j, name)
    ensures !Named(slots, name)
    ensures NamesDistinct(slots) ==> name !in Entries(slots) && Entries(slots) - {name} == Entries(slots)
  {
    if NamesDistinct(slots) {
      forall i | 0 <= i < |slots| && slots[i] != null
        ensures slots[i].fileName != name
      {
        assert !Holds(slots, i, name);
      }
    }
  }

  /** Adding keeps the names distinct exactly if the name is new, and then extends the map. */
  lemma EntriesAdded(slots: Slots, k: nat, b: Box)
    requires k < |slots| && slots[k] == null
    ensures NamesDistinct(slots[k := b]) <==> NamesDistinct(slots) && !Named(slots, b.fileName)
    ensures NamesDistinct(slots[k := b]) ==> Entries(slots[k := b]) == Entries(slots)[b.fileName := b]
  {
    var t := slots[k := b];
    if NamesDistinct(t) {
      forall i, j | 0 <= i < j < |slots| && slots[i] != null && slots[j] != null
        ensures slots[i].fileName != slots[j].fileName
      {
        assert t[i] == slots[i] && t[j] == slots[j];
      }
      forall i | 0 <= i < |slots|
        ensures !Holds(slots, i, b.fileName)
      {
        assert t[k] == b && (i != k ==> t[i] == slots[i]);
      }
      AddedMap(slots, k, b);
    } else if NamesDistinct(slots) {
      var i, j :| 0 <= i < j < |t| && t[i] != null && t[j] != null && t[i].fileName == t[j].fileName;
      assert Holds(slots, i, b.fileName) || Holds(slots, j, b.fileName);
    }
  }

  lemma AddedMap(slots: Slots, k: nat, b: Box)
    requires k < |slots| && slots[k] == null && NamesDistinct(slots) && NamesDistinct(slots[k := b])
    ensures Entries(slots[k := b]) == Entries(slots)[b.fileName := b]
  {
    hide NamesDistinct, Entries;
    var t := slots[k := b];
    assert Holds(t, k, b.fileName);
    EntryAt(t, k, b.fileName);
    forall name | name in Entries(t)
      ensures name in Entries(slots)[b.fileName := b] && Entries(slots)[b.fileName := b][name] == Entries(t)[name]
    {
      var i := EntrySlot(t, name);
      if i != k {
        EntryAt(slots, i, name);
      }
    }
    forall name | name in Entries(slots)
      ensures name in Entries(t)
    {
      var i := EntrySlot(slots, name);
      EntryAt(t, i, name);
    }
  }

  lemma StillDistinct(slots: Slots, k: nat)
    requires k < |slots| && NamesDistinct(slots)
    ensures NamesDistinct(slots[k := null])
  {
  }

  lemma RemovedEntry(slots: Slots, k: nat, name: CString)
    requires k < |slots| && slots[k] != null && NamesDistinct(slots) && NamesDistinct(slots[k := null])
    ensures var e, e' := Entries(slots), Entries(slots[k := null]);
            && (name in e' <==> name in e && name != slots[k].fileName)
            && (name in e' ==> e'[name] == e[name])
  {
    var t := slots[k := null];
    if name in Entries(t) {
      var i := EntrySlot(t, name);
      EntryAt(slots, i, name);
      EntryAt(slots, k, slots[k].fileName);
    } else if name in Entries(slots) {
      var i := EntrySlot(slots, name);
      assert i != k ==> Holds(t, i, name);
    }
  }

  lemma EntriesRemoved(slots: Slots, k: nat)
    requires k < |slots| && slots[k] != null && NamesDistinct(slots)
    ensures NamesDistinct(slots[k := null]) && Entries(slots[k := null]) == Entries(slots) - {slots[k].fileName}
  {
    StillDistinct(slots, k);
    forall name: CString
      ensures name in Entries(slots[k := null]) <==> name in Entries(slots) && name != slots[k].fileName
      ensures name in Entries(slots[k := null]) ==> Entries(slots[k := null])[name] == Entries(slots)[name]
    {
      RemovedEntry(slots, k, name);
    }
  }

  /** The slots after making room: doubled only when the last one has been used. */
  function Grown(slots: Slots, size: nat): Slots {
    if size == |slots| then slots + seq(|slots|, _ => null) else slots
  }

  lemma PlacedFrom(slots: Slots, size: nat, k: nat, box: Box)
    requires k < |Grown(slots, size)|
    ensures forall b: Box | b in Grown(slots, size)[k := box] :: b == box || b in slots
  {
  }

  /** The slot a new box goes to: the end of a table without holes, else the first hole. */
  function AddSlot(slots: Slots, size: nat, numElem: nat): int
    requires size <= |slots|
  {
    if size == numElem then size else Least(slots[..size], IsHole)
  }

  /** A table with fewer boxes than used slots has a hole. */
  lemma HoleExists(slots: Slots, size: nat, numElem: nat)
    requires size <= |slots| && numElem == Occupied(slots[..size])
    ensures AddSlot(slots, size, numElem) >= 0
  {
    var used := slots[..size];
    if size != numElem {
      var i :| 0 <= i < |used| && used[i] == null;
      assert IsHole(used[i]);
    }
  }

  /** Where that is: behind the boxes of a table without holes, else in the first hole. */
  lemma AddedWhere(slots: Slots, size: nat, numElem: nat, box: Box)
    requires size <= |slots| && |slots| > 0 && numElem == Occupied(slots[..size])
    ensures var k, after := AddSlot(slots, size, numElem), Grown(slots, size);
            && 0 <= k < |after|
            && (numElem == size ==> k == size && after[k := box][..size + 1] == slots[..size] + [box])
            && (numElem != size ==>
                  && k < size && slots[k] == null && (forall j | 0 <= j < k :: slots[j] != null)
                  && after[k := box][..size] == slots[..size][k := box])
  {
    hide Occupied;
    HoleExists(slots, size, numElem);
    var k, used := AddSlot(slots, size, numElem), slots[..size];
    if k < size {
      assert IsHole(used[k]);
      forall j | 0 <= j < k
        ensures slots[j] != null
      {
        assert !IsHole(used[j]);
      }
    }
  }

  // ---------- The table ----------

  class BoxTable {
    var boxes: array<Box?>
    var capacity: nat
    var size: nat
    var numElem: nat

    ghost predicate Valid()
      reads this, boxes
    {
      && 0 < capacity == boxes.Length
      && size <= capacity
      && numElem == Occupied(boxes[..size])
      && forall i | size <= i < capacity :: boxes[i] == null
    }

    ghost function All(): Slots
      reads this, boxes
    {
      boxes[..]
    }

    ghost function View(): (table: map<CString, BoxState>)
      requires NamesDistinct(All())
      reads this, boxes, boxes[..]
      ensures table == States(All())
    {
      States(All())
    }

    /** box_table_init */
    constructor Init()
      ensures Valid() && fresh(boxes)
      ensures size == 0 && capacity == TABLE_STARTING_CAPACITY
      ensures All() == seq(TABLE_STARTING_CAPACITY, _ => null)
    {
      boxes := new Box?[TABLE_STARTING_CAPACITY](_ => null);
      capacity := TABLE_STARTING_CAPACITY;
      size := 0;
      numElem := 0;
    }

    /** expand_table */
    method ExpandTable()
      requires Valid()
      modifies this`boxes, this`capacity
      ensures Valid() && fresh(boxes) && capacity == 2 * old(capacity)
      ensures All() == old(All()) + seq(old(capacity), _ => null)
    {
      var larger := new Box?[2 * capacity](_ => null);
      ghost var before := boxes[..];
      for i := 0 to boxes.Length
        invariant forall j | 0 <= j < i :: larger[j] == before[j]
        invariant forall j | i <= j < larger.Length :: larger[j] == null
        modifies larger
      {
        larger[i] := boxes[i];
      }
      capacity := 2 * capacity;
      boxes := larger;
      assert boxes[..size] == before[..size];
    }

    method Place(box: Box, k: nat)
      requires Valid() && k < boxes.Length && boxes[k] == null && k <= size
      modifies boxes, this`size, this`numElem
      ensures Valid() && All() == old(All())[k := box]
      ensures size == (if k == old(size) then old(size) + 1 else old(size)) && numElem == old(numElem) + 1
    {
      ghost var before := boxes[..];
      if k == size {
        OccupiedNext(before, size);
        assert boxes[..size] == before[..size];
      } else {
        OccupiedUpdate(before[..size], k, box);
      }
      boxes[k] := box;
      ghost var after := boxes[..];
      if k == size {
        size := size + 1;
        OccupiedNext(after, k);
        assert after[..k] == before[..k];
      } else {
        assert after[..size] == before[..size][k := box];
      }
      numElem := numElem + 1;
    }

    /**
     box_add: growing keeps every box in its slot, and the fall-through after the scan
     for a hole is never reached.
     */
    method Add(filename: BoxName, ghost id: nat) returns (ret: int, box: Box)
      requires Valid()
      modifies this, boxes
      ensures Valid() && ret == 0
      ensures boxes == old(boxes) || fresh(boxes)
      ensures fresh(box) && box.fileName == filename && box.id == id && box.pubNum == box.subNum == box.size == 0
      ensures var before, k := old(All()), AddSlot(old(All()), old(size), old(numElem));
              && 0 <= k < |All()| && All() == Grown(before, old(size))[k := box]
              && (forall i | 0 <= i < |before| && before[i] != null :: All()[i] == before[i])
              && numElem == old(numElem) + 1 && size == if k == old(size) then old(size) + 1 else old(size)
      ensures capacity == |All()| == (if old(size) == old(capacity) then 2 * old(capacity) else old(capacity))
      // without holes the box goes to the end, otherwise to the first hole; every other slot stays as it was
      ensures old(numElem) == old(size) ==>
                size == old(size) + 1 && All()[..size] == old(All())[..old(size)] + [box]
      ensures old(numElem) != old(size) ==>
                && size == old(size)
                && exists k: nat | k < old(size) ::
                     && old(All())[k] == null && (forall j | 0 <= j < k :: old(All())[j] != null)
                     && All()[..size] == old(All())[..old(size)][k := box]
      ensures forall b: Box | b in All() :: b == box || b in old(All())
      ensures NamesDistinct(All()) <==> old(NamesDistinct(All())) && !old(Named(All(), filename))
      ensures NamesDistinct(All()) ==> Entries(All()) == old(Entries(All()))[filename := box]
    {
      hide NamesDistinct, Entries, Named, Occupied, AddSlot;
      box := new Box(filename, id);
      ghost var before := All();
      if size == capacity {
        ExpandTable();
      }
      ghost var grown := All();
      assert grown == Grown(before, size);
      EntriesExtended(before, grown[|before|..]);
      assert before + grown[|before|..] == grown;
      AddedWhere(before, size, numElem, box);
      ghost var k := AddSlot(before, size, numElem);
      assert forall j | 0 <= j < size :: grown[j] == before[j];
      EntriesAdded(grown, k, box);
      PlacedFrom(before, size, k, box);
      if size == numElem {
        Place(box, size);
        return 0, box;
      }
      for i := 0 to size
        invariant All() == grown && i <= k
      {
        if boxes[i] == null {
          Place(box, i);
          return 0, box;
        }
      }
      assert false;
    }

    method Clear(i: nat)
      requires Valid() && i < size && boxes[i] != null
      modifies this`size, this`numElem, boxes
      ensures Valid() && All() == old(All())[i := null]
      ensures size == (if old(size) == i + 1 then old(size) - 1 else old(size)) && numElem == old(numElem) - 1
    {
      ghost var before := All();
      OccupiedUpdate(before[..size], i, null);
      boxes[i] := null;
      ghost var after := All();
      assert after[..size] == before[..size][i := null];
      if size == i + 1 {
        OccupiedNext(after, i);
        size := size - 1;
      }
      numElem := numElem - 1;
    }

    /** box_remove */
    method Remove(filename: CString) returns (ret: int)
      requires Valid()
      modifies this`size, this`numElem, boxes
      ensures Valid()
      ensures ret == (if old(Named(All(), filename)) then 0 else -1)
      ensures ret == -1 ==> All() == old(All()) && size == old(size) && numElem == old(numElem)
      ensures ret == 0 ==> numElem == old(numElem) - 1
      ensures ret == 0 ==> exists k: nat | k < old(size) ::
          && old(Holds(All(), k, filename)) && (forall j | 0 <= j < k :: !old(Holds(All(), j, filename)))
          && All() == old(All())[k := null] && size == (if old(size) == k + 1 then old(size) - 1 else old(size))
      ensures forall b: Box | b in All() :: b in old(All())
      ensures old(NamesDistinct(All())) ==> NamesDistinct(All()) && Entries(All()) == old(Entries(All())) - {filename}
    {
      ghost var before := All();
      for i := 0 to size
        invariant forall j | 0 <= j < i :: !Holds(before, j, filename)
        invariant All() == before && Valid() && size == old(size) && numElem == old(numElem)
      {
        if boxes[i] != null {
          if boxes[i].fileName == filename {
            assert Holds(before, i, filename);
            if NamesDistinct(before) {
              EntriesRemoved(before, i);
            }
            Clear(i);
            return 0;
          }
        }
      }
      NotNamed(before, filename);
      return -1;
    }

    /** box_add of a name that no box has yet */
    method AddNew(filename: BoxName, ghost id: nat) returns (ret: int, box: Box)
      requires Valid() && NamesDistinct(All()) && filename !in View()
      modifies this, boxes
      ensures Valid() && NamesDistinct(All()) && ret == 0
      ensures boxes == old(boxes) || fresh(boxes)
      ensures box.fileName == filename && box.id == id && forall b: Box | b in All() :: b == box || b in old(All())
      ensures View() == old(View())[filename := BoxState(id, 0, 0, 0)]
    {
      hide *;
      EntriesAllocated(All());
      NotEntryNotNamed(All(), filename);
      ret, box := Add(filename, id);
      StateIs(box);
      StatesAre(All(), old(View())[filename := BoxState(id, 0, 0, 0)]);
    }

    /** box_remove where names are distinct */
    method RemoveOnly(filename: CString) returns (ret: int)
      requires Valid() && NamesDistinct(All())
      modifies this`size, this`numElem, boxes
      ensures Valid() && NamesDistinct(All()) && ret == (if filename in old(View()) then 0 else -1)
      ensures forall b: Box | b in All() :: b in old(All())
      ensures View() == old(View()) - {filename}
    {
      hide *;
      EntriesAllocated(All());
      EntryIffNamed(All(), filename);
      ret := Remove(filename);
      StatesAre(All(), old(View()) - {filename});
    }

    /** box_find */
    method Find(filename: CString) returns (box: Box?)
      requires Valid()
      ensures box == FirstNamed(All(), filename)
      ensures box != null ==>
                exists k: nat | k < |All()| :: All()[k] == box && box.fileName == filename && forall j | 0 <= j < k :: !Holds(All(), j, filename)
      ensures box == null <==> !Named(All(), filename)
      ensures NamesDistinct(All()) ==> (box == null <==> filename !in Entries(All()))
      ensures NamesDistinct(All()) && box != null ==> box == Entries(All())[filename]
    {
      for i := 0 to size
        invariant forall j | 0 <= j < i :: !Holds(All(), j, filename)
      {
        if boxes[i] != null {
          if boxes[i].fileName == filename {
            assert Holds(All(), i, filename);
            if NamesDistinct(All()) {
              EntryAt(All(), i, filename);
            }
            return boxes[i];
          }
        }
      }
      NotNamed(All(), filename);
      return null;
    }

    /** box_register_pub: the first box of that name gets its publisher, if it has none. */
    method RegisterPub(filename: CString) returns (box: Box?)
      requires Valid()
      modifies var first := FirstNamed(All(), filename); if first == null then {} else {first}
      ensures Valid() && All() == old(All())
      ensures var first := FirstNamed(All(), filename);
              && box == (if first != null && old(first.pubNum) != 1 then first else null)
              && (first != null ==>
                    && first.pubNum == old(first.pubNum) + (if box == null then 0 else 1)
                    && first.subNum == old(first.subNum) && first.size == old(first.size))
    {
      box := Find(filename);
      if box == null {
        return null;
      }
      var ok := box.RaisePub();
      if !ok {
        return null;
      }
    }

    /** box_register_sub */
    method RegisterSub(filename: CString) returns (box: Box?)
      requires Valid()
      modifies var first := FirstNamed(All(), filename); if first == null then {} else {first}
      ensures Valid() && All() == old(All())
      ensures box == FirstNamed(All(), filename)
      ensures box != null ==>
                box.subNum == old(box.subNum) + 1 && box.pubNum == old(box.pubNum) && box.size == old(box.size)
    {
      box := Find(filename);
      if box == null {
        return null;
      }
      box.RaiseSub();
    }
  }
}
