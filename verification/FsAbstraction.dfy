/**
 What the tables stand for: the abstraction from table states to `FsSpec.Fs`, and
 the counting arguments that relate free table entries to the abstract capacities.
 */
module FsAbstraction {
  import opened CStrings
  import opened Finite
  import opened FsSpec
  import opened FsState

  ghost function TakenSet(m: seq<Alloc>): set<int> {
    set i | 0 <= i < |m| && m[i] == TAKEN
  }

  ghost function UsedSlots(s: State): set<int> {
    set k | 0 <= k < |s.dir| && Used(s, k)
  }

  ghost function Content(s: State, i: int): seq<Byte>
    requires Owned(s) && IsFile(s, i)
  {
    if s.inodes[i].size == 0 then []
    else
      assert HasBlock(s, i);
      s.blocks[s.inodes[i].dataBlock][..s.inodes[i].size]
  }

  ghost function Files(s: State): map<CString, seq<Byte>>
    requires Owned(s)
  {
    map k | k in UsedSlots(s) :: NameAt(s, k) := Content(s, s.dir[k].inumber)
  }

  /** The slot that names a file. */
  ghost function SlotOf(s: State, i: int): (k: int)
    requires Owned(s) && IsFile(s, i)
    ensures Used(s, k) && s.dir[k].inumber == i
    ensures forall l | Used(s, l) && s.dir[l].inumber == i :: l == k
  {
    assert Listed(s, i);
    var k :| Used(s, k) && s.dir[k].inumber == i;
    k
  }

  ghost function NameOf(s: State, i: int): CString
    requires Owned(s) && IsFile(s, i)
  {
    NameAt(s, SlotOf(s, i))
  }

  ghost function Handles(s: State, live: set<int>): map<int, Handle>
    requires Inv(s, live)
  {
    map h | h in TakenSet(s.openTaken) ::
      if h in live then Live(NameOf(s, s.open[h].inumber), s.open[h].offset) else Stale
  }

  ghost function Abs(s: State, live: set<int>): Fs
    requires Inv(s, live)
  {
    Fs(Files(s), Handles(s, live))
  }

  /** A file's content is filed under its slot's name, and nothing else is. */
  lemma FileAt(s: State, k: int)
    requires Owned(s) && Used(s, k)
    ensures NameAt(s, k) in Files(s) && Files(s)[NameAt(s, k)] == Content(s, s.dir[k].inumber)
    ensures NameOf(s, s.dir[k].inumber) == NameAt(s, k)
  {
    assert k in UsedSlots(s);
  }

  lemma SlotNamed(s: State, n: CString) returns (k: int)
    requires Owned(s) && n in Files(s)
    ensures Used(s, k) && NameAt(s, k) == n
  {
    k :| k in UsedSlots(s) && NameAt(s, k) == n;
  }

  /** How to recognise the files of a state. */
  lemma FilesAre(s: State, m: map<CString, seq<Byte>>)
    requires Owned(s)
    requires forall k | Used(s, k) :: NameAt(s, k) in m && m[NameAt(s, k)] == Content(s, s.dir[k].inumber)
    requires forall n | n in m :: exists k :: Used(s, k) && NameAt(s, k) == n
    ensures Files(s) == m
  {
    forall n | n in Files(s)
      ensures n in m && m[n] == Files(s)[n]
    {
      var k := SlotNamed(s, n);
      FileAt(s, k);
    }
    forall n | n in m
      ensures n in Files(s)
    {
      var k :| Used(s, k) && NameAt(s, k) == n;
      FileAt(s, k);
    }
  }

  /** tfs_lookup finds a name exactly if a file has it. */
  lemma LookupFinds(s: State, n: CString)
    requires Owned(s)
    ensures FindInDir(s, n) == -1 <==> n !in Files(s)
    ensures n in Files(s) ==>
              var i := FindInDir(s, n);
              IsFile(s, i) && NameOf(s, i) == n && Files(s)[n] == Content(s, i)
  {
    FoundSlot(s, n);
    if n in Files(s) {
      var k := SlotNamed(s, n);
      FileAt(s, k);
    } else {
      forall k | Used(s, k)
        ensures NameAt(s, k) != n
      {
        FileAt(s, k);
      }
    }
  }

  // ---------- Counting ----------

  /** A first-fit scan fails exactly when as many entries are taken as there are. */
  lemma FullWhenCounted(m: seq<Alloc>)
    ensures |TakenSet(m)| <= |m|
    ensures Least(m, IsFree) == -1 <==> |TakenSet(m)| == |m|
  {
    RangeSize(|m|);
    SubsetSize(TakenSet(m), Range(|m|));
    var f := Least(m, IsFree);
    if f == -1 {
      assert TakenSet(m) == Range(|m|);
    } else {
      assert f in Range(|m|) && f !in TakenSet(m);
    }
  }

  lemma DirFullWhenCounted(s: State)
    ensures |UsedSlots(s)| <= |s.dir|
    ensures Least(s.dir, IsFreeEntry) == -1 <==> |UsedSlots(s)| == |s.dir|
  {
    RangeSize(|s.dir|);
    SubsetSize(UsedSlots(s), Range(|s.dir|));
    var f := Least(s.dir, IsFreeEntry);
    if f == -1 {
      assert UsedSlots(s) == Range(|s.dir|);
    } else {
      assert f in Range(|s.dir|) && f !in UsedSlots(s);
    }
  }

  /** One used slot per file. */
  lemma SlotsCountFiles(s: State)
    requires Owned(s)
    ensures |UsedSlots(s)| == |Files(s)|
  {
    var m := map k | k in UsedSlots(s) :: NameAt(s, k);
    forall n | n in Files(s).Keys
      ensures exists k :: k in UsedSlots(s) && m[k] == n
    {
      var k := SlotNamed(s, n);
      assert k in UsedSlots(s) && m[k] == n;
    }
    BijectionSize(m, UsedSlots(s), Files(s).Keys);
  }

  lemma SlotOfInode(s: State, i: int) returns (k: int)
    requires Shaped(s) && DirOk(s) && IsFile(s, i)
    ensures k in UsedSlots(s) && s.dir[k].inumber == i
  {
    assert Listed(s, i);
    k :| Used(s, k) && s.dir[k].inumber == i;
  }

  lemma InodeOfSlot(s: State, k: int, l: int)
    requires Shaped(s) && DirOk(s) && k in UsedSlots(s) && l in UsedSlots(s)
    ensures IsFile(s, s.dir[k].inumber)
    ensures s.dir[k].inumber == s.dir[l].inumber || NameAt(s, k) == NameAt(s, l) ==> k == l
  {
    assert Used(s, k) && Used(s, l);
  }

  /** One taken inode per file, and the root. */
  lemma InodesCountSlots(s: State)
    requires Shaped(s) && InodesOk(s) && DirOk(s)
    ensures |TakenSet(s.inodeTaken)| == |UsedSlots(s)| + 1
  {
    hide DirOk;
    var m := map k | k in UsedSlots(s) :: s.dir[k].inumber;
    var rest := TakenSet(s.inodeTaken) - {ROOT_DIR_INUM};
    forall i | i in rest
      ensures exists k :: k in UsedSlots(s) && m[k] == i
    {
      var k := SlotOfInode(s, i);
    }
    forall k | k in UsedSlots(s)
      ensures m[k] in rest
    {
      InodeOfSlot(s, k, k);
    }
    forall k, l | k in m && l in m && m[k] == m[l]
      ensures k == l
    {
      InodeOfSlot(s, k, l);
    }
    BijectionSize(m, UsedSlots(s), rest);
  }

  ghost function FullSlots(s: State): set<int>
    requires Shaped(s) && DirOk(s)
  {
    set k | k in UsedSlots(s) && s.inodes[s.dir[k].inumber].size > 0
  }

  lemma FullSlotNamesContent(s: State, k: int)
    requires Owned(s) && Used(s, k)
    ensures NameAt(s, k) in Files(s)
    ensures k in FullSlots(s) <==> Files(s)[NameAt(s, k)] != []
  {
    FileAt(s, k);
    var i := s.dir[k].inumber;
    assert s.inodes[i].size > 0 ==> HasBlock(s, i) && |Content(s, i)| == s.inodes[i].size;
    assert k in UsedSlots(s);
  }

  lemma FullSlotsCountNames(s: State)
    requires Owned(s)
    ensures |FullSlots(s)| == |NonEmpty(Files(s))|
  {
    hide DirOk, BlocksOk, InodesOk;
    var full, names := FullSlots(s), NonEmpty(Files(s));
    var m := map k | k in full :: NameAt(s, k);
    forall k | k in full
      ensures m[k] in names
    {
      FullSlotNamesContent(s, k);
    }
    forall k, l | k in m && l in m && m[k] == m[l]
      ensures k == l
    {
      InodeOfSlot(s, k, l);
    }
    forall n | n in names
      ensures exists k :: k in full && m[k] == n
    {
      var k := SlotNamed(s, n);
      FullSlotNamesContent(s, k);
      assert k in full && m[k] == n;
    }
    BijectionSize(m, full, names);
  }

  lemma FullSlotOwnsBlock(s: State, k: int)
    requires Shaped(s) && InodesOk(s) && BlocksOk(s) && DirOk(s) && k in FullSlots(s)
    ensures Used(s, k) && HasBlock(s, s.dir[k].inumber)
    ensures s.inodes[s.dir[k].inumber].dataBlock in TakenSet(s.blockTaken) - {0}
  {
    assert HasBlock(s, ROOT_DIR_INUM) && Used(s, k) && HasBlock(s, s.dir[k].inumber);
  }

  lemma BlockOwnedBySlot(s: State, b: int) returns (k: int)
    requires Shaped(s) && InodesOk(s) && BlocksOk(s) && DirOk(s) && b in TakenSet(s.blockTaken) - {0}
    ensures k in FullSlots(s) && s.inodes[s.dir[k].inumber].dataBlock == b
  {
    assert HasOwner(s, b);
    var i :| HasBlock(s, i) && s.inodes[i].dataBlock == b;
    assert IsFile(s, i) && Listed(s, i);
    k :| Used(s, k) && s.dir[k].inumber == i;
  }

  lemma SlotBlocksDistinct(s: State, k: int, l: int)
    requires Shaped(s) && InodesOk(s) && BlocksOk(s) && DirOk(s) && k in FullSlots(s) && l in FullSlots(s)
    requires s.inodes[s.dir[k].inumber].dataBlock == s.inodes[s.dir[l].inumber].dataBlock
    ensures k == l
  {
    FullSlotOwnsBlock(s, k);
    FullSlotOwnsBlock(s, l);
  }

  /** The block of each slot naming a non-empty file. */
  ghost function SlotBlocks(s: State): (m: map<int, int>)
    requires Shaped(s) && DirOk(s)
    ensures m.Keys == FullSlots(s)
  {
    map k | k in FullSlots(s) :: s.inodes[s.dir[k].inumber].dataBlock
  }

  lemma FullSlotsCountBlocks(s: State)
    requires Shaped(s) && InodesOk(s) && BlocksOk(s) && DirOk(s)
    ensures |TakenSet(s.blockTaken)| == |FullSlots(s)| + 1
  {
    var full, rest, m := FullSlots(s), TakenSet(s.blockTaken) - {0}, SlotBlocks(s);
    assert HasBlock(s, ROOT_DIR_INUM) && 0 in TakenSet(s.blockTaken);
    assert |TakenSet(s.blockTaken)| == |rest| + 1;
    forall k, l | k in full && l in full && m[k] == m[l]
      ensures k == l
    {
      SlotBlocksDistinct(s, k, l);
    }
    forall k | k in full
      ensures m[k] in rest
    {
      FullSlotOwnsBlock(s, k);
    }
    forall b | b in rest
      ensures exists k :: k in full && m[k] == b
    {
      var k := BlockOwnedBySlot(s, b);
      assert k in full && m[k] == b;
    }
    BijectionSize(m, full, rest);
  }

  /** Taken inodes and blocks, counted in files. */
  lemma TablesCountFiles(s: State)
    requires Owned(s)
    ensures |TakenSet(s.inodeTaken)| == |Files(s)| + 1
    ensures |TakenSet(s.blockTaken)| == |NonEmpty(Files(s))| + 1
    ensures |UsedSlots(s)| == |Files(s)|
  {
    SlotsCountFiles(s);
    InodesCountSlots(s);
    FullSlotsCountNames(s);
    FullSlotsCountBlocks(s);
  }

  lemma FileBounds(s: State, n: CString)
    requires Owned(s) && n in Files(s)
    ensures 0 < |n| < MAX_FILE_NAME && |Files(s)[n]| <= s.params.blockSize
  {
    var k := SlotNamed(s, n);
    FileAt(s, k);
    TerminatorIndex(s.dir[k].name);
    assert HasBlock(s, s.dir[k].inumber) || Content(s, s.dir[k].inumber) == [];
  }

  /** Every table state within the invariant stands for a consistent file system. */
  lemma AbsConsistent(s: State, live: set<int>)
    requires Inv(s, live)
    ensures Consistent(s.params, Abs(s, live))
  {
    var a := Abs(s, live);
    TablesCountFiles(s);
    DirFullWhenCounted(s);
    FullWhenCounted(s.inodeTaken);
    FullWhenCounted(s.blockTaken);
    forall n | n in a.files
      ensures 0 < |n| < MAX_FILE_NAME && |a.files[n]| <= s.params.blockSize
    {
      FileBounds(s, n);
    }
    forall h | IsLive(a, h)
      ensures a.handles[h].name in a.files && a.handles[h].offset <= |a.files[a.handles[h].name]|
    {
      LiveHandle(s, live, h);
    }
  }

  lemma LiveHandle(s: State, live: set<int>, h: int)
    requires Inv(s, live) && h in live
    ensures var i := s.open[h].inumber;
            && IsFile(s, i) && NameOf(s, i) in Files(s)
            && h in Handles(s, live) && Handles(s, live)[h] == Live(NameOf(s, i), s.open[h].offset)
            && Files(s)[NameOf(s, i)] == Content(s, i)
            && |Content(s, i)| == s.inodes[i].size
  {
    var i := s.open[h].inumber;
    FileAt(s, SlotOf(s, i));
    assert HasBlock(s, i) || s.inodes[i].size == 0;
  }
}
