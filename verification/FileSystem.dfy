/**
 TecnicoFS as the library keeps it: fixed tables and one flat array of data blocks,
 changed in place by first-fit scans. Each method is tied to the function of the same
 name in `FsState`, and each `tfs_*` method to the specification in `FsSpec`.
 */
module FileSystem {
  import opened CStrings
  import opened FsSpec
  import opened FsState
  import opened FsAbstraction
  import Laws = FsLaws
  import Steps = FsSteps
  import Refinement = FsRefinement

  // ---------- Blocks inside the flat data array ----------

  lemma BlockBounds(b: int, n: nat, size: nat)
    requires 0 <= b < n
    ensures 0 <= b * size <= b * size + size <= n * size
  {
    assert (b + 1) * size <= n * size;
  }

  lemma BlocksDisjoint(b: int, c: int, size: nat)
    requires 0 <= b < c
    ensures b * size + size <= c * size
  {
    assert (b + 1) * size <= c * size;
  }

  function BlockOf(data: seq<Byte>, b: int, n: nat, size: nat): (block: seq<Byte>)
    requires 0 <= b < n && |data| == n * size
    ensures |block| == size
  {
    BlockBounds(b, n, size);
    data[b * size..b * size + size]
  }

  function Blocks(data: seq<Byte>, n: nat, size: nat): (blocks: seq<seq<Byte>>)
    requires |data| == n * size
    ensures |blocks| == n
    ensures forall b | 0 <= b < n :: |blocks[b]| == size
  {
    seq(n, b requires 0 <= b < n => BlockOf(data, b, n, size))
  }

  lemma SliceOfBlock(data: seq<Byte>, n: nat, size: nat, b: int, at: nat, len: nat)
    requires |data| == n * size && 0 <= b < n && at + len <= size
    requires 0 <= b * size && b * size + at + len <= |data|
    ensures Blocks(data, n, size)[b][at..at + len] == data[b * size + at..b * size + at + len]
  {
    BlockBounds(b, n, size);
    var lo, block := b * size, Blocks(data, n, size)[b];
    assert block == data[lo..lo + size];
    SliceOfSlice(data, lo, size, at, len);
  }

  lemma SliceOfSlice(data: seq<Byte>, start: nat, size: nat, at: nat, len: nat)
    requires start + size <= |data| && at + len <= size
    ensures data[start..start + size][at..at + len] == data[start + at..start + at + len]
  {
    var whole, part := data[start..start + size], data[start + at..start + at + len];
    assert forall i | 0 <= i < len :: whole[at + i] == part[i];
    assert whole[at..at + len] == part;
  }

  /** A copy into an array, seen through a window that holds it or is clear of it. */
  lemma OverwriteWindow(data: seq<Byte>, lo: nat, size: nat, pos: nat, bytes: seq<Byte>)
    requires lo + size <= |data| && pos + |bytes| <= |data|
    ensures lo + size <= pos || pos + |bytes| <= lo ==>
              Overwrite(data, pos, bytes)[lo..lo + size] == data[lo..lo + size]
    ensures lo <= pos && pos + |bytes| <= lo + size ==>
              Overwrite(data, pos, bytes)[lo..lo + size] == Overwrite(data[lo..lo + size], pos - lo, bytes)
  {
    var after, window := Overwrite(data, pos, bytes), data[lo..lo + size];
    assert forall i | 0 <= i < size ::
        after[lo + i] == if pos <= lo + i < pos + |bytes| then bytes[lo + i - pos] else window[i];
  }

  /** A copy inside block `b` leaves every other block as it was. */
  lemma CopyIntoBlock(data: seq<Byte>, data': seq<Byte>, n: nat, size: nat, b: int, at: nat, bytes: seq<Byte>)
    requires |data| == |data'| == n * size && 0 <= b < n && at + |bytes| <= size
    requires 0 <= b * size && b * size + at + |bytes| <= |data|
    requires data' == Overwrite(data, b * size + at, bytes)
    ensures Blocks(data', n, size)
         == Blocks(data, n, size)[b := Overwrite(Blocks(data, n, size)[b], at, bytes)]
  {
    hide Overwrite;
    forall c | 0 <= c < n
      ensures BlockOf(data', c, n, size)
           == if c == b then Overwrite(BlockOf(data, b, n, size), at, bytes) else BlockOf(data, c, n, size)
    {
      BlockBounds(b, n, size);
      BlockBounds(c, n, size);
      if c < b {
        BlocksDisjoint(c, b, size);
      } else if b < c {
        BlocksDisjoint(b, c, size);
      }
      var lo, pos := c * size, b * size + at;
      OverwriteWindow(data, lo, size, pos, bytes);
    }
  }

  /** An inode found by name is in the table, and so is its block, if it has one. */
  lemma FoundInode(s: State, name: CString)
    requires Owned(s)
    ensures Shaped(s) && s.params.maxInodes > 0
    ensures var i := FsState.FindInDir(s, name);
            i != -1 ==>
              && 0 < i < s.params.maxInodes && |name| < MAX_FILE_NAME
              && s.inodeTaken[i] == TAKEN
              && (s.inodes[i].size > 0 ==> 0 <= s.inodes[i].dataBlock < s.params.maxBlocks)
  {
    FoundSlot(s, name);
    var i := FsState.FindInDir(s, name);
    assert i != -1 ==> HasBlock(s, i) || s.inodes[i].size == 0;
  }

  lemma TfsWriteClosed(s: State, live: set<int>, h: int, buffer: seq<Byte>)
    requires Inv(s, live) && MayUse(s, live, h) && |buffer| <= PTRDIFF_MAX
    ensures !IsOpen(s, h) ==> TfsWrite(s, live, h, buffer) == (s, -1)
  {
  }

  lemma TfsReadClosed(s: State, live: set<int>, h: int, len: nat)
    requires Inv(s, live) && MayUse(s, live, h)
    ensures !IsOpen(s, h) ==> TfsRead(s, live, h, len) == (s, -1, [])
  {
  }

  lemma InitMeaning(s: State)
    requires FreshTables(s)
    ensures TfsInit(s).1 == 0 ==>
              Inv(TfsInit(s).0, {}) && Abs(TfsInit(s).0, {}) == Fs(map[], map[])
  {
    if TfsInit(s).1 == 0 {
      Refinement.InitIsEmpty(s);
    }
  }

  // ---------- The specification's cases ----------

  lemma OpenCases(p: Params, a: Fs, path: CharPtr, mode: OpenMode)
    ensures var (b, r) := FsSpec.Open(p, a, path, mode);
            if path.Null? || |path.chars| < 2 || path.chars[0] != 47 then r == -1 && b == a
            else
              var n := path.chars[1..];
              if n in a.files then
                && b.files == (if mode.trunc then a.files[n := []] else a.files)
                && Laws.HandleGiven(p, if mode.trunc then CutHandles(a.handles, n, 0) else a.handles, b.handles, r, n,
                                    if mode.append && !mode.trunc then |a.files[n]| else 0)
                && forall h | h in a.handles ::
                     h in b.handles
                     && b.handles[h] == if mode.trunc && a.handles[h].Live? && a.handles[h].name == n && a.handles[h].offset > 0
                                        then Stale else a.handles[h]
              else if mode.creat && |a.files| + 1 < p.maxInodes && |a.files| < p.blockSize / 44 && |n| < 40
              then b.files == a.files[n := []] && Laws.HandleGiven(p, a.handles, b.handles, r, n, 0)
              else r == -1 && b == a
  {
    hide FsSpec.Open, Laws.HandleGiven, CutHandles;
    if path.Null? || |path.chars| < 2 || path.chars[0] != 47 {
      Laws.BadPathsRefused(p, a, path, mode);
    } else if path.chars[1..] in a.files {
      Laws.OpenThere(p, a, path, mode);
    } else {
      Laws.OpenMissing(p, a, path, mode);
    }
  }

  lemma UnlinkCases(a: Fs, path: CharPtr)
    ensures var (b, r) := FsSpec.Unlink(a, path);
            if path.Null? || |path.chars| < 2 || path.chars[0] != 47 || path.chars[1..] !in a.files then r == -1 && b == a
            else
              var n := path.chars[1..];
              && r == 0 && b.files == a.files - {n} && b.handles.Keys == a.handles.Keys
              && forall h | h in a.handles ::
                   b.handles[h] == if a.handles[h].Live? && a.handles[h].name == n then Stale else a.handles[h]
  {
    hide FsSpec.Unlink;
    if path.Null? || |path.chars| < 2 || path.chars[0] != 47 {
      Laws.BadPathsRefused(Params(0, 0, 0, 0), a, path, OpenMode(false, false, false));
    } else {
      Laws.UnlinkMeans(a, path);
    }
  }

  class Tfs {
    const params: Params
    const inodeTable: array<Inode>
    const freeInodeTs: array<Alloc>
    const fsData: array<Byte>
    const freeBlocks: array<Alloc>
    // the entries laid out in block 0
    const dirEntries: array<DirEntry>
    const openFileTable: array<OpenEntry>
    const freeOpenFileEntries: array<Alloc>
    // the handles that have not lost their file
    ghost var live: set<int>

    ghost predicate Allocated() {
      && params.Valid()
      && inodeTable.Length == freeInodeTs.Length == params.maxInodes
      && fsData.Length == params.maxBlocks * params.blockSize && freeBlocks.Length == params.maxBlocks
      && dirEntries.Length == params.MaxDirEntries()
      && openFileTable.Length == freeOpenFileEntries.Length == params.maxOpenFiles
      && freeInodeTs != freeBlocks && freeInodeTs != freeOpenFileEntries && freeBlocks != freeOpenFileEntries
    }

    ghost function Repr(): set<object> {
      {this, inodeTable, freeInodeTs, fsData, freeBlocks, dirEntries, openFileTable, freeOpenFileEntries}
    }

    ghost function Tables(): State
      requires Allocated()
      reads Repr()
    {
      State(params, inodeTable[..], freeInodeTs[..], Blocks(fsData[..], params.maxBlocks, params.blockSize),
            freeBlocks[..], dirEntries[..], openFileTable[..], freeOpenFileEntries[..])
    }

    ghost predicate Valid()
      reads Repr()
    {
      Allocated() && Inv(Tables(), live)
    }

    ghost function View(): (a: Fs)
      requires Valid()
      reads Repr()
      ensures Consistent(params, a)
    {
      AbsConsistent(Tables(), live);
      Abs(Tables(), live)
    }

    /** state_init: the tables are allocated and marked free, and nothing else is initialised. */
    constructor StateInit(params: Params)
      requires params.Valid()
      ensures fresh(Repr()) && this.params == params && Allocated() && live == {}
      ensures FreshTables(Tables())
    {
      this.params := params;
      inodeTable := new Inode[params.maxInodes];
      freeInodeTs := new Alloc[params.maxInodes];
      fsData := new Byte[params.maxBlocks * params.blockSize];
      freeBlocks := new Alloc[params.maxBlocks];
      dirEntries := new DirEntry[params.MaxDirEntries()];
      openFileTable := new OpenEntry[params.maxOpenFiles];
      freeOpenFileEntries := new Alloc[params.maxOpenFiles];
      live := {};
      new;
      MarkFree(freeInodeTs);
      MarkFree(freeBlocks);
      MarkFree(freeOpenFileEntries);
    }

    static method MarkFree(map_: array<Alloc>)
      modifies map_
      ensures forall i | 0 <= i < map_.Length :: map_[i] == FREE
    {
      for i := 0 to map_.Length
        invariant forall j | 0 <= j < i :: map_[j] == FREE
      {
        map_[i] := FREE;
      }
    }

    // ---------- fs/state.c ----------

    method InodeAlloc() returns (inumber: int)
      requires Allocated()
      modifies freeInodeTs
      ensures (Tables(), inumber) == FsState.InodeAlloc(old(Tables()))
    {
      for i := 0 to freeInodeTs.Length
        invariant forall j | 0 <= j < i :: !IsFree(freeInodeTs[j])
        invariant freeInodeTs[..] == old(freeInodeTs[..])
      {
        if freeInodeTs[i] == FREE {
          assert IsFree(freeInodeTs[..][i]);
          freeInodeTs[i] := TAKEN;
          return i;
        }
      }
      return -1;
    }

    method DataBlockAlloc() returns (b: int)
      requires Allocated()
      modifies freeBlocks
      ensures (Tables(), b) == FsState.DataBlockAlloc(old(Tables()))
    {
      for i := 0 to freeBlocks.Length
        invariant forall j | 0 <= j < i :: !IsFree(freeBlocks[j])
        invariant freeBlocks[..] == old(freeBlocks[..])
      {
        if freeBlocks[i] == FREE {
          assert IsFree(freeBlocks[..][i]);
          freeBlocks[i] := TAKEN;
          return i;
        }
      }
      return -1;
    }

    method DataBlockFree(b: int)
      requires Allocated() && 0 <= b < params.maxBlocks
      modifies freeBlocks
      ensures Tables() == FsState.DataBlockFree(old(Tables()), b)
    {
      freeBlocks[b] := FREE;
    }

    method InodeCreateFile() returns (inumber: int)
      requires Allocated() && params.maxInodes > 0 && params.maxBlocks > 0
      modifies freeInodeTs, inodeTable
      ensures (Tables(), inumber) == FsState.InodeCreateFile(old(Tables()))
    {
      inumber := InodeAlloc();
      if inumber == -1 {
        return;
      }
      inodeTable[inumber] := Inode(T_FILE, 0, -1);
    }

    method InodeCreateDirectory() returns (inumber: int)
      requires Allocated()
      modifies freeInodeTs, inodeTable, freeBlocks, dirEntries
      ensures (Tables(), inumber) == FsState.InodeCreateDirectory(old(Tables()))
    {
      inumber := InodeAlloc();
      if inumber == -1 {
        return;
      }
      inodeTable[inumber] := inodeTable[inumber].(nodeType := T_DIRECTORY);
      var b := DataBlockAlloc();
      if b == -1 {
        inodeTable[inumber] := inodeTable[inumber].(size := 0, dataBlock := -1);
        assert inodeTable[..] == old(inodeTable[..])[inumber := Inode(T_DIRECTORY, 0, -1)];
        InodeDelete(inumber);
        return -1;
      }
      inodeTable[inumber] := inodeTable[inumber].(size := params.blockSize, dataBlock := b);
      MarkEntriesEmpty();
      assert Tables() == FsState.InodeCreateDirectory(old(Tables())).0;
    }

    method MarkEntriesEmpty()
      modifies dirEntries
      ensures dirEntries[..] == seq(dirEntries.Length,
                k requires 0 <= k < dirEntries.Length => old(dirEntries[..])[k].(inumber := -1))
    {
      ghost var before := dirEntries[..];
      for i := 0 to dirEntries.Length
        invariant forall j | 0 <= j < i :: dirEntries[j] == before[j].(inumber := -1)
        invariant forall j | i <= j < dirEntries.Length :: dirEntries[j] == before[j]
      {
        dirEntries[i] := dirEntries[i].(inumber := -1);
      }
    }

    method InodeDelete(inumber: int)
      requires Allocated() && 0 <= inumber < params.maxInodes && freeInodeTs[inumber] == TAKEN
      requires inodeTable[inumber].size > 0 ==> 0 <= inodeTable[inumber].dataBlock < params.maxBlocks
      modifies freeInodeTs, freeBlocks
      ensures Tables() == FsState.InodeDelete(old(Tables()), inumber)
    {
      if inodeTable[inumber].size > 0 {
        DataBlockFree(inodeTable[inumber].dataBlock);
      }
      freeInodeTs[inumber] := FREE;
    }

    method FindInDir(subName: CString) returns (inumber: int)
      requires Allocated()
      ensures inumber == FsState.FindInDir(Tables(), subName)
    {
      for i := 0 to dirEntries.Length
        invariant forall j | 0 <= j < i ::
            !(dirEntries[j].inumber != -1 && StrNCmpEqual(dirEntries[j].name, subName, MAX_FILE_NAME))
      {
        if dirEntries[i].inumber != -1 && StrNCmpEqual(dirEntries[i].name, subName, MAX_FILE_NAME) {
          assert dirEntries[i] == dirEntries[..][i];
          return dirEntries[i].inumber;
        }
      }
      return -1;
    }

    method AddDirEntry(subName: CString, subInumber: int) returns (ret: int)
      requires Allocated()
      modifies dirEntries
      ensures (Tables(), ret) == FsState.AddDirEntry(old(Tables()), subName, subInumber)
    {
      if |subName| == 0 || |subName| > MAX_FILE_NAME - 1 {
        return -1;
      }
      for i := 0 to dirEntries.Length
        invariant forall j | 0 <= j < i :: !IsFreeEntry(dirEntries[j])
        invariant dirEntries[..] == old(dirEntries[..])
      {
        if dirEntries[i].inumber == -1 {
          assert IsFreeEntry(dirEntries[..][i]);
          dirEntries[i] := DirEntry(StoredName(dirEntries[i].name, subName), subInumber);
          return 0;
        }
      }
      return -1;
    }

    method ClearDirEntry(subName: CString) returns (ret: int)
      requires Allocated() && forall i | 0 <= i < dirEntries.Length :: Comparable(dirEntries[i].name, subName)
      modifies dirEntries
      ensures (Tables(), ret) == FsState.ClearDirEntry(old(Tables()), subName)
    {
      for i := 0 to dirEntries.Length
        invariant dirEntries[..] == old(dirEntries[..])
        invariant forall j | 0 <= j < i :: !StrCmpEqual(dirEntries[j].name, subName)
      {
        if StrCmpEqual(dirEntries[i].name, subName) {
          assert StrCmpEqual(dirEntries[..][i].name, subName);
          dirEntries[i] := DirEntry(EmptyName(), -1);
          return 0;
        }
      }
      return -1;
    }

    method AddToOpenFileTable(inumber: int, offset: nat) returns (fhandle: int)
      requires Allocated()
      modifies openFileTable, freeOpenFileEntries
      ensures (Tables(), fhandle) == FsState.AddToOpenFileTable(old(Tables()), inumber, offset)
    {
      for i := 0 to freeOpenFileEntries.Length
        invariant forall j | 0 <= j < i :: !IsFree(freeOpenFileEntries[j])
        invariant freeOpenFileEntries[..] == old(freeOpenFileEntries[..])
        invariant openFileTable[..] == old(openFileTable[..])
      {
        if freeOpenFileEntries[i] == FREE {
          assert IsFree(freeOpenFileEntries[..][i]);
          freeOpenFileEntries[i] := TAKEN;
          openFileTable[i] := OpenEntry(inumber, offset);
          return i;
        }
      }
      return -1;
    }

    /** get_open_file_entry: whether there is an entry to get. */
    method GetOpenFileEntry(fhandle: int) returns (found: bool)
      requires Allocated()
      ensures found == IsOpen(Tables(), fhandle)
    {
      if !(0 <= fhandle < params.maxOpenFiles) {
        return false;
      }
      return freeOpenFileEntries[fhandle] == TAKEN;
    }

    // ---------- fs/operations.c ----------

    /** tfs_init, after state_init. */
    method Init() returns (ret: int)
      requires Allocated() && FreshTables(Tables())
      modifies freeInodeTs, inodeTable, freeBlocks, dirEntries
      ensures (Tables(), ret) == TfsInit(old(Tables()))
      ensures ret == 0 <==> 0 < params.maxInodes && 0 < params.maxBlocks
      ensures ret == 0 && live == {} ==> Valid() && View() == Fs(map[], map[])
    {
      Refinement.InitResult(Tables());
      InitMeaning(Tables());
      var root := InodeCreateDirectory();
      if root != ROOT_DIR_INUM {
        return -1;
      }
      return 0;
    }

    method Lookup(name: CharPtr) returns (inumber: int)
      requires Allocated()
      ensures inumber == if ValidPathname(name) then FsState.FindInDir(Tables(), BaseName(name)) else -1
      ensures name.Null? || |name.chars| < 2 || name.chars[0] != 47 ==> inumber == -1
    {
      if !ValidPathname(name) {
        return -1;
      }
      inumber := FindInDir(name.chars[1..]);
    }

    method Truncate(inumber: int)
      requires Allocated() && 0 <= inumber < params.maxInodes
      requires inodeTable[inumber].size > 0 ==> 0 <= inodeTable[inumber].dataBlock < params.maxBlocks
      modifies freeBlocks, inodeTable
      ensures Tables() == FsState.Truncate(old(Tables()), inumber)
    {
      if inodeTable[inumber].size > 0 {
        DataBlockFree(inodeTable[inumber].dataBlock);
        inodeTable[inumber] := inodeTable[inumber].(size := 0);
      }
    }

    method OpenExisting(inumber: int, mode: OpenMode) returns (ret: int)
      requires Allocated() && 0 <= inumber < params.maxInodes && Shaped(Tables())
      requires inodeTable[inumber].size > 0 ==> 0 <= inodeTable[inumber].dataBlock < params.maxBlocks
      modifies freeBlocks, inodeTable, openFileTable, freeOpenFileEntries
      ensures (Tables(), ret) == FsState.OpenExisting(old(Tables()), inumber, mode)
    {
      if mode.trunc {
        Truncate(inumber);
      }
      ret := AddToOpenFileTable(inumber, if mode.append then inodeTable[inumber].size else 0);
    }

    method OpenNew(name: CString) returns (ret: int)
      requires Allocated() && Shaped(Tables())
      modifies freeInodeTs, inodeTable, freeBlocks, dirEntries, openFileTable, freeOpenFileEntries
      ensures (Tables(), ret) == FsState.OpenNew(old(Tables()), name)
    {
      var inumber := InodeCreateFile();
      if inumber == -1 {
        return -1;
      }
      var added := AddDirEntry(name, inumber);
      if added == -1 {
        InodeDelete(inumber);
        return -1;
      }
      ret := AddToOpenFileTable(inumber, 0);
    }

    /** tfs_open */
    method Open(path: CharPtr, mode: OpenMode) returns (ret: int)
      requires Valid()
      modifies Repr()
      ensures (Tables(), ret) == TfsOpen(old(Tables()), path, mode)
      ensures Valid() && (View(), ret) == FsSpec.Open(params, old(View()), path, mode)
      ensures path.Null? || |path.chars| < 2 || path.chars[0] != 47 ==> ret == -1 && View() == old(View())
      // a missing file is made only with TFS_O_CREAT, and exactly where there is room
      ensures path.Str? && |path.chars| >= 2 && path.chars[0] == 47 && path.chars[1..] !in old(View()).files && !mode.creat ==>
                ret == -1 && View() == old(View())
      ensures path.Str? && |path.chars| >= 2 && path.chars[0] == 47 && path.chars[1..] !in old(View()).files && mode.creat ==>
                var a, b, n := old(View()), View(), path.chars[1..];
                if |a.files| + 1 < params.maxInodes && |a.files| < params.blockSize / 44 && |n| < 40
                then b.files == a.files[n := []] && Laws.HandleGiven(params, a.handles, b.handles, ret, n, 0)
                else ret == -1 && b == a
      // an existing file is opened, emptied if that is asked for
      ensures path.Str? && |path.chars| >= 2 && path.chars[0] == 47 && path.chars[1..] in old(View()).files ==>
                var a, b, n := old(View()), View(), path.chars[1..];
                && b.files == (if mode.trunc then a.files[n := []] else a.files)
                && Laws.HandleGiven(params, if mode.trunc then CutHandles(a.handles, n, 0) else a.handles, b.handles, ret, n,
                                    if mode.append && !mode.trunc then |a.files[n]| else 0)
                && forall h | h in a.handles ::
                     h in b.handles
                     && b.handles[h] == if mode.trunc && a.handles[h].Live? && a.handles[h].name == n && a.handles[h].offset > 0
                                        then Stale else a.handles[h]
    {
      hide DirOk, BlocksOk, InodesOk, HandlesOk, Files, Handles, FsState.OpenExisting, FsState.OpenNew, FsState.FindInDir,
           FsSpec.Open, Refinement.LiveAfterOpen, Laws.HandleGiven, CutHandles;
      ghost var s := Tables();
      OpenCases(params, View(), path, mode);
      Refinement.OpenRefines(s, live, path, mode);
      live := Refinement.LiveAfterOpen(s, live, path, mode);
      if !ValidPathname(path) {
        return -1;
      }
      var inumber := Lookup(path);
      FoundInode(s, BaseName(path));
      if inumber >= 0 {
        ret := OpenExisting(inumber, mode);
      } else if mode.creat {
        ret := OpenNew(path.chars[1..]);
      } else {
        ret := -1;
      }
    }

    /** tfs_close */
    method Close(fhandle: int) returns (ret: int)
      requires Valid()
      modifies Repr()
      ensures (Tables(), ret) == TfsClose(old(Tables()), fhandle)
      ensures Valid() && (View(), ret) == FsSpec.Close(old(View()), fhandle)
      ensures fhandle !in old(View()).handles ==> ret == -1 && View() == old(View())
      ensures fhandle in old(View()).handles ==>
                ret == 0 && View().files == old(View()).files && View().handles == old(View()).handles - {fhandle}
    {
      Steps.CloseRefines(Tables(), live, fhandle);
      live := live - {fhandle};
      var found := GetOpenFileEntry(fhandle);
      if !found {
        return -1;
      }
      freeOpenFileEntries[fhandle] := FREE;
      return 0;
    }

    /** The bytes of the file's block that memcpy replaces, and no others. */
    method CopyIn(b: int, at: nat, bytes: seq<Byte>)
      requires Allocated() && 0 <= b < params.maxBlocks && at + |bytes| <= params.blockSize
      modifies fsData
      ensures Tables() == old(Tables()).(blocks :=
                old(Tables()).blocks[b := Overwrite(old(Tables()).blocks[b], at, bytes)])
    {
      BlockBounds(b, params.maxBlocks, params.blockSize);
      var base := b * params.blockSize + at;
      ghost var before := fsData[..];
      forall k | 0 <= k < |bytes| {
        fsData[base + k] := bytes[k];
      }
      assert fsData[..] == Overwrite(before, base, bytes);
      CopyIntoBlock(before, fsData[..], params.maxBlocks, params.blockSize, b, at, bytes);
    }

    method BlockForWrite(inumber: int) returns (ok: int)
      requires Allocated() && Shaped(Tables()) && BlocksOk(Tables()) && IsFile(Tables(), inumber)
      modifies freeBlocks, inodeTable
      ensures (Tables(), ok) == FsState.BlockForWrite(old(Tables()), inumber)
    {
      if inodeTable[inumber].size == 0 {
        var bnum := DataBlockAlloc();
        if bnum == -1 {
          return -1;
        }
        inodeTable[inumber] := inodeTable[inumber].(dataBlock := bnum);
      }
      return 0;
    }

    method StoreBytes(fhandle: int, bytes: seq<Byte>)
      requires Allocated() && 0 <= fhandle < params.maxOpenFiles
      requires 0 <= openFileTable[fhandle].inumber < params.maxInodes
      requires 0 <= inodeTable[openFileTable[fhandle].inumber].dataBlock < params.maxBlocks
      requires openFileTable[fhandle].offset + |bytes| <= params.blockSize
      modifies fsData, openFileTable, inodeTable
      ensures Tables() == FsState.StoreBytes(old(Tables()), fhandle, bytes)
    {
      var inumber := openFileTable[fhandle].inumber;
      CopyIn(inodeTable[inumber].dataBlock, openFileTable[fhandle].offset, bytes);
      openFileTable[fhandle] := openFileTable[fhandle].(offset := openFileTable[fhandle].offset + |bytes|);
      if openFileTable[fhandle].offset > inodeTable[inumber].size {
        inodeTable[inumber] := inodeTable[inumber].(size := openFileTable[fhandle].offset);
      }
    }

    method WriteOpen(fhandle: int, buffer: seq<Byte>) returns (ret: int)
      requires Valid() && fhandle in live && |buffer| <= PTRDIFF_MAX
      modifies fsData, openFileTable, inodeTable, freeBlocks
      ensures (Tables(), ret) == TfsWrite(old(Tables()), live, fhandle, buffer)
    {
      hide DirOk, InodesOk, FsState.BlockForWrite, FsState.StoreBytes;
      ghost var s := Tables();
      var inumber := openFileTable[fhandle].inumber;
      Refinement.FileSizeBound(s, inumber);
      WriteNeverWraps(s, openFileTable[fhandle].offset, |buffer|);
      var toWrite := |buffer|;
      if SizeAdd(toWrite, openFileTable[fhandle].offset) > params.blockSize {
        toWrite := SizeSub(params.blockSize, openFileTable[fhandle].offset);
      }
      if toWrite > 0 {
        var ok := BlockForWrite(inumber);
        if ok == -1 {
          return -1;
        }
        StoreBytes(fhandle, buffer[..toWrite]);
      }
      return toWrite;
    }

    /**
     tfs_write, of a buffer that is one C object, through a closed handle or one that
     has not lost its file.
     */
    method Write(fhandle: int, buffer: seq<Byte>) returns (ret: int)
      requires Valid() && |buffer| <= PTRDIFF_MAX
      requires fhandle in View().handles ==> IsLive(View(), fhandle)
      modifies Repr()
      ensures Valid() && (View(), ret) == FsSpec.Write(params, old(View()), fhandle, buffer)
      ensures fhandle !in old(View()).handles ==> ret == -1 && View() == old(View())
      ensures ret != -1 ==> Laws.Stores(params, old(View()), View(), fhandle, buffer, ret)
    {
      hide DirOk, BlocksOk, InodesOk, Files, Consistent, FsSpec.Write, TfsWrite, Laws.Stores;
      ghost var s := Tables();
      Refinement.WriteRefines(s, live, fhandle, buffer);
      Laws.WriteMeans(params, View(), fhandle, buffer);
      TfsWriteClosed(s, live, fhandle, buffer);
      var found := GetOpenFileEntry(fhandle);
      if !found {
        return -1;
      }
      ret := WriteOpen(fhandle, buffer);
    }

    /** memcpy of part of block `b` */
    method CopyOut(b: int, at: nat, len: nat) returns (bytes: seq<Byte>)
      requires Allocated() && 0 <= b < params.maxBlocks && at + len <= params.blockSize
      ensures bytes == Tables().blocks[b][at..at + len]
    {
      BlockBounds(b, params.maxBlocks, params.blockSize);
      var base := b * params.blockSize + at;
      bytes := fsData[base..base + len];
      SliceOfBlock(fsData[..], params.maxBlocks, params.blockSize, b, at, len);
    }

    method ReadOpen(fhandle: int, len: nat) returns (ret: int, bytes: seq<Byte>)
      requires Valid() && fhandle in live
      modifies openFileTable
      ensures (Tables(), ret, bytes) == TfsRead(old(Tables()), live, fhandle, len)
    {
      hide DirOk, BlocksOk, InodesOk, TfsRead, Overwrite, Blocks;
      ghost var s := Tables();
      Refinement.TfsReadIs(s, live, fhandle, len);
      var inumber, offset := openFileTable[fhandle].inumber, openFileTable[fhandle].offset;
      Refinement.FileSizeBound(s, inumber);
      ReadNeverWraps(s, inumber, offset);
      var toRead := SizeSub(inodeTable[inumber].size, offset);
      if toRead > len {
        toRead := len;
      }
      bytes := [];
      if toRead > 0 {
        bytes := CopyOut(inodeTable[inumber].dataBlock, offset, toRead);
        openFileTable[fhandle] := OpenEntry(inumber, offset + toRead);
      }
      assert openFileTable[..] == s.open[fhandle := OpenEntry(inumber, offset + toRead)];
      return toRead, bytes;
    }

    /** tfs_read: the bytes are the part of the caller's buffer that is filled. */
    method Read(fhandle: int, len: nat) returns (ret: int, bytes: seq<Byte>)
      requires Valid()
      requires fhandle in View().handles ==> IsLive(View(), fhandle)
      modifies Repr()
      ensures Valid() && (View(), ret, bytes) == FsSpec.Read(params, old(View()), fhandle, len)
      ensures fhandle !in old(View()).handles ==> ret == -1 && View() == old(View())
      ensures fhandle in old(View()).handles ==> Laws.Delivers(old(View()), View(), fhandle, len, ret, bytes)
    {
      hide DirOk, BlocksOk, InodesOk, Files, Consistent, FsSpec.Read, TfsRead, Laws.Delivers;
      ghost var s := Tables();
      Refinement.ReadRefines(s, live, fhandle, len);
      Laws.ReadMeans(params, View(), fhandle, len);
      TfsReadClosed(s, live, fhandle, len);
      var found := GetOpenFileEntry(fhandle);
      if !found {
        return -1, [];
      }
      ret, bytes := ReadOpen(fhandle, len);
    }

    /** tfs_unlink */
    method Unlink(target: CharPtr) returns (ret: int)
      requires Valid()
      modifies Repr()
      ensures (Tables(), ret) == TfsUnlink(old(Tables()), target)
      ensures Valid() && (View(), ret) == FsSpec.Unlink(old(View()), target)
      ensures target.Null? || |target.chars| < 2 || target.chars[0] != 47 || target.chars[1..] !in old(View()).files ==>
                ret == -1 && View() == old(View())
      ensures target.Str? && |target.chars| >= 2 && target.chars[0] == 47 && target.chars[1..] in old(View()).files ==>
                var a, b, n := old(View()), View(), target.chars[1..];
                && ret == 0 && b.files == a.files - {n} && b.handles.Keys == a.handles.Keys
                && forall h | h in a.handles ::
                     b.handles[h] == if a.handles[h].Live? && a.handles[h].name == n then Stale else a.handles[h]
    {
      hide DirOk, BlocksOk, InodesOk, HandlesOk, Files, Handles, FsState.FindInDir, FsSpec.Unlink, Refinement.LiveAfterUnlink;
      ghost var s := Tables();
      UnlinkCases(View(), target);
      Refinement.UnlinkRefines(s, live, target);
      live := Refinement.LiveAfterUnlink(s, live, target);
      if !ValidPathname(target) {
        return -1;
      }
      var inumber := Lookup(target);
      if inumber == -1 {
        return -1;
      }
      FoundInode(s, BaseName(target));
      InodeDelete(inumber);
      ret := ClearDirEntry(target.chars[1..]);
    }
  }
}
