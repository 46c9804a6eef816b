/**
 The calls of fs/operations.c refine `FsSpec`: each keeps the ownership invariant,
 changes what the tables stand for exactly as specified, and returns exactly the
 specified value, failures included. The code neither protects open files from
 unlinking nor from truncation; the handles that lose their file are computed here:
 exactly those left on an inode that is free, or behind the end of their file.
 */
module FsRefinement {
  import opened CStrings
  import opened Finite
  import opened FsSpec
  import opened FsLaws
  import opened FsState
  import opened FsAbstraction
  import opened FsSteps
  import opened FsContents

  // ---------- Initialisation ----------

  /** tfs_init succeeds exactly if there is an inode and a block for the root. */
  lemma InitResult(s: State)
    requires FreshTables(s)
    ensures TfsInit(s).1 == 0 <==> 0 < s.params.maxInodes && 0 < s.params.maxBlocks
    ensures TfsInit(s).1 != 0 ==> TfsInit(s).1 == -1
  {
    assert s.params.maxInodes > 0 ==> IsFree(s.inodeTaken[0]);
    assert s.params.maxBlocks > 0 ==> IsFree(s.blockTaken[0]);
  }

  /**
   After a successful tfs_init the invariant holds, whatever names the memory of the
   root directory's block held: the code marks the entries free and never reads them.
   */
  lemma InitInvariant(s: State)
    requires FreshTables(s) && TfsInit(s).1 == 0
    ensures Inv(TfsInit(s).0, {})
  {
    var t := TfsInit(s).0;
    InitResult(s);
    assert IsFree(s.inodeTaken[0]) && IsFree(s.blockTaken[0]);
    assert forall i {:trigger HasBlock(t, i)} :: HasBlock(t, i) <==> i == ROOT_DIR_INUM;
    assert HasBlock(t, ROOT_DIR_INUM);
    assert Shaped(t) && InodesOk(t);
    assert forall b | 0 <= b < |t.blocks| && t.blockTaken[b] == TAKEN :: b == 0 && HasOwner(t, b);
    assert forall k {:trigger Used(t, k)} :: !Used(t, k);
  }

  lemma InitIsEmpty(s: State)
    requires FreshTables(s) && TfsInit(s).1 == 0
    ensures Inv(TfsInit(s).0, {}) && Abs(TfsInit(s).0, {}) == Fs(map[], map[])
  {
    var t := TfsInit(s).0;
    InitInvariant(s);
    assert UsedSlots(t) == {} && TakenSet(t.openTaken) == {};
  }

  // ---------- tfs_open ----------

  /** Opening file `i` without truncation. */
  lemma OpenAtRefines(s: State, live: set<int>, i: int, append: bool)
    requires Inv(s, live) && IsFile(s, i)
    ensures var offset := if append then s.inodes[i].size else 0;
            var (t, h) := AddToOpenFileTable(s, i, offset);
            var live' := if h == -1 then live else live + {h};
            var n := NameOf(s, i);
            && Inv(t, live') && n in Files(s) && |Files(s)[n]| == s.inodes[i].size
            && (Abs(t, live'), h) == NewHandle(s.params, Abs(s, live), n, if append then |Files(s)[n]| else 0)
  {
    FileAt(s, SlotOf(s, i));
    assert HasBlock(s, i) || s.inodes[i].size == 0;
    AddToOpenFileTableRefines(s, live, i, if append then s.inodes[i].size else 0);
  }

  lemma OpenFileRefines(s: State, live: set<int>, i: int, mode: OpenMode)
    requires Inv(s, live) && IsFile(s, i)
    ensures s.inodes[i].size > 0 ==> 0 <= s.inodes[i].dataBlock < |s.blockTaken|
    ensures NameOf(s, i) in Files(s)
    ensures var (t, h) := FsState.OpenExisting(s, i, mode);
            var live1 := if mode.trunc then LiveAfterTruncate(s, live, i) else live;
            var live' := if h == -1 then live1 else live1 + {h};
            && Inv(t, live')
            && (Abs(t, live'), h) == FsSpec.OpenExisting(s.params, Abs(s, live), NameOf(s, i), mode)
  {
    assert HasBlock(s, i) || s.inodes[i].size == 0;
    FileAt(s, SlotOf(s, i));
    if mode.trunc {
      TruncateRefines(s, live, i);
      OpenAtRefines(Truncate(s, i), LiveAfterTruncate(s, live, i), i, mode.append);
    } else {
      OpenAtRefines(s, live, i, mode.append);
    }
  }

  lemma CreationCapacities(s: State)
    requires Owned(s)
    ensures Least(s.inodeTaken, IsFree) == -1 <==> |Files(s)| + 1 >= s.params.maxInodes
    ensures Least(s.dir, IsFreeEntry) == -1 <==> |Files(s)| >= s.params.MaxDirEntries()
  {
    TablesCountFiles(s);
    FullWhenCounted(s.inodeTaken);
    DirFullWhenCounted(s);
  }

  /** A creation that fails leaves every table as it was, but for fields of a free inode. */
  lemma FailedCreation(s: State, live: set<int>, n: CString)
    requires Inv(s, live) && 0 < |n| && n !in Files(s)
    requires !CanCreate(s.params, Abs(s, live), n)
    ensures var (t, r) := FsState.OpenNew(s, n);
            && r == -1 && t == s.(inodes := t.inodes)
            && Inv(t, live) && Abs(t, live) == Abs(s, live)
  {
    hide DirOk, BlocksOk, Content, Files;
    CreationCapacities(s);
    var i := Least(s.inodeTaken, IsFree);
    if i != -1 {
      var node := Inode(T_FILE, 0, -1);
      assert s.inodeTaken[i := TAKEN][i := FREE] == s.inodeTaken;
      assert FsState.OpenNew(s, n).0 == s.(inodes := s.inodes[i := node]);
      FreeInodeFrame(s, i, node);
      assert Handles(s.(inodes := s.inodes[i := node]), live) == Handles(s, live);
    }
  }

  lemma SuccessfulCreation(s: State, live: set<int>, n: CString)
    requires Inv(s, live) && 0 < |n| && n !in Files(s)
    requires CanCreate(s.params, Abs(s, live), n)
    ensures var (t, r) := FsState.OpenNew(s, n);
            var live' := if r == -1 then live else live + {r};
            && Inv(t, live')
            && (Abs(t, live'), r) == NewHandle(s.params, Abs(s, live).(files := Files(s)[n := []]), n, 0)
  {
    hide DirOk, BlocksOk, Content, Files, Handles;
    CreationCapacities(s);
    var i, k := Least(s.inodeTaken, IsFree), Least(s.dir, IsFreeEntry);
    assert IsFree(s.inodeTaken[i]) && IsFreeEntry(s.dir[k]);
    assert forall j | 0 <= j < k :: !IsFreeEntry(s.dir[j]) && Used(s, j);
    CreatedHandles(s, live, i, k, n);
    AddToOpenFileTableRefines(Created(s, i, k, n), live, i, 0);
  }

  lemma CreatedHandles(s: State, live: set<int>, i: int, k: int, n: CString)
    requires Inv(s, live) && MayCreate(s, i, k, n)
    ensures var t := Created(s, i, k, n);
            && Inv(t, live) && IsFile(t, i) && NameOf(t, i) == n
            && Abs(t, live) == Abs(s, live).(files := Files(s)[n := []])
  {
    hide DirOk, BlocksOk, Content;
    CreatedNames(s, i, k, n);
    CreatedFiles(s, i, k, n);
    assert Handles(Created(s, i, k, n), live) == Handles(s, live);
  }

  ghost function LiveAfterOpen(s: State, live: set<int>, path: CharPtr, mode: OpenMode): set<int>
    requires Inv(s, live)
  {
    var h := TfsOpen(s, path, mode).1;
    var kept := if mode.trunc && ValidPathname(path) then LiveAfterTruncate(s, live, FindInDir(s, BaseName(path))) else live;
    if h == -1 then kept else kept + {h}
  }

  /** tfs_open does exactly what the specification says, whatever the path and mode. */
  lemma OpenRefines(s: State, live: set<int>, path: CharPtr, mode: OpenMode)
    requires Inv(s, live)
    ensures var (t, r) := TfsOpen(s, path, mode);
            var live' := LiveAfterOpen(s, live, path, mode);
            && Inv(t, live')
            && (Abs(t, live'), r) == Open(s.params, Abs(s, live), path, mode)
    ensures path.Null? || |path.chars| < 2 || path.chars[0] != 47 || (path.chars[1..] !in Files(s) && !mode.creat) ==>
              TfsOpen(s, path, mode) == (s, -1)
  {
    if ValidPathname(path) {
      var n := BaseName(path);
      LookupFinds(s, n);
      if n in Files(s) {
        OpenFileRefines(s, live, FindInDir(s, n), mode);
      } else {
        assert LiveAfterTruncate(s, live, -1) == live;
        if mode.creat {
          if CanCreate(s.params, Abs(s, live), n) {
            SuccessfulCreation(s, live, n);
          } else {
            FailedCreation(s, live, n);
          }
        }
      }
    }
  }

  // ---------- tfs_write and tfs_read ----------

  lemma BlockLeftAgrees(s: State, live: set<int>)
    requires Inv(s, live)
    ensures Least(s.blockTaken, IsFree) != -1 <==> BlockLeft(s.params, Abs(s, live))
  {
    TablesCountFiles(s);
    FullWhenCounted(s.blockTaken);
  }

  lemma WriteStepRefines(s: State, live: set<int>, h: int, bytes: seq<Byte>)
    requires Inv(s, live) && h in live && bytes != [] && s.open[h].offset + |bytes| <= s.params.blockSize
    requires s.inodes[s.open[h].inumber].size > 0 || Least(s.blockTaken, IsFree) != -1
    ensures var (s1, ok) := BlockForWrite(s, s.open[h].inumber);
            var n := NameOf(s, s.open[h].inumber);
            var t := StoreBytes(s1, h, bytes);
            && ok == 0 && Inv(t, live) && n in Files(s) && s.open[h].offset <= |Files(s)[n]|
            && Abs(t, live) == Fs(Files(s)[n := Splice(Files(s)[n], s.open[h].offset, bytes)],
                 Handles(s, live)[h := Live(n, s.open[h].offset + |bytes|)])
  {
    var i := s.open[h].inumber;
    assert HasBlock(s, i) || s.inodes[i].size == 0;
    var b := if s.inodes[i].size > 0 then s.inodes[i].dataBlock else Least(s.blockTaken, IsFree);
    assert IsFree(s.blockTaken[b]) || s.inodes[i].size > 0;
    var s1 := BlockForWrite(s, i).0;
    assert s.inodes[i].(dataBlock := b) == s1.inodes[i];
    assert StoreBytes(s1, h, bytes).inodes == Written(s, h, b, bytes).inodes;
    assert StoreBytes(s1, h, bytes).blockTaken == Written(s, h, b, bytes).blockTaken;
    assert StoreBytes(s1, h, bytes) == Written(s, h, b, bytes);
    WrittenFiles(s, live, h, b, bytes);
    WrittenHandles(s, live, h, b, bytes);
  }

  lemma AbsHandle(s: State, live: set<int>, h: int)
    requires Inv(s, live) && MayUse(s, live, h)
    ensures var a := Abs(s, live);
            && Consistent(s.params, a) && (IsOpen(s, h) <==> h in a.handles) && (h in a.handles ==> IsLive(a, h))
    ensures IsOpen(s, h) ==>
              var a, i := Abs(s, live), s.open[h].inumber;
              && IsFile(s, i) && NameOf(s, i) in a.files
              && a.handles[h] == Live(NameOf(s, i), s.open[h].offset)
              && |a.files[NameOf(s, i)]| == s.inodes[i].size
  {
    AbsConsistent(s, live);
    if IsOpen(s, h) {
      LiveHandle(s, live, h);
    }
  }

  /** tfs_write stores exactly the bytes that fit, or fails for lack of a block. */
  lemma WriteRefines(s: State, live: set<int>, h: int, buffer: seq<Byte>)
    requires Inv(s, live) && MayUse(s, live, h) && |buffer| <= PTRDIFF_MAX
    ensures Consistent(s.params, Abs(s, live)) && (h in Abs(s, live).handles ==> IsLive(Abs(s, live), h))
    ensures var (t, r) := TfsWrite(s, live, h, buffer);
            Inv(t, live) && (Abs(t, live), r) == Write(s.params, Abs(s, live), h, buffer)
  {
    AbsHandle(s, live, h);
    if IsOpen(s, h) {
      OpenWriteRefines(s, live, h, buffer);
    }
  }

  /** tfs_write through a live handle: nothing to store, no block, or the bytes that fit. */
  lemma TfsWriteIs(s: State, live: set<int>, h: int, buffer: seq<Byte>)
    requires Inv(s, live) && h in live && |buffer| <= PTRDIFF_MAX
    ensures var i, at := s.open[h].inumber, s.open[h].offset;
            && IsFile(s, i) && at <= s.inodes[i].size <= s.params.blockSize
            && var n := Min(|buffer|, s.params.blockSize - at);
               var (s1, ok) := BlockForWrite(s, i);
               && TfsWrite(s, live, h, buffer)
                  == (if n == 0 then (s, 0) else if ok == -1 then (s, -1) else (StoreBytes(s1, h, buffer[..n]), n as int))
               && (ok == -1 <==> s.inodes[i].size == 0 && Least(s.blockTaken, IsFree) == -1)
  {
    hide DirOk;
    FileSizeBound(s, s.open[h].inumber);
    WriteNeverWraps(s, s.open[h].offset, |buffer|);
  }

  lemma SpecWriteIs(p: Params, a: Fs, h: int, buffer: seq<Byte>)
    requires Consistent(p, a) && IsLive(a, h)
    ensures var Live(name, at) := a.handles[h];
            && name in a.files && at <= |a.files[name]| <= p.blockSize
            && var n := Min(|buffer|, p.blockSize - at);
               Write(p, a, h, buffer)
               == if n == 0 then (a, 0)
                  else if a.files[name] == [] && !BlockLeft(p, a) then (a, -1)
                  else (Fs(a.files[name := Splice(a.files[name], at, buffer[..n])], a.handles[h := Live(name, at + n)]),
                        n as int)
  {
    hide NonEmpty, Splice;
  }

  lemma OpenWriteRefines(s: State, live: set<int>, h: int, buffer: seq<Byte>)
    requires Inv(s, live) && h in live && |buffer| <= PTRDIFF_MAX && IsOpen(s, h)
    requires Consistent(s.params, Abs(s, live)) && IsLive(Abs(s, live), h)
    ensures var (t, r) := TfsWrite(s, live, h, buffer);
            Inv(t, live) && (Abs(t, live), r) == Write(s.params, Abs(s, live), h, buffer)
  {
    hide *;
    LiveBounds(s, live, h);
    AbsHandle(s, live, h);
    BlockLeftAgrees(s, live);
    TfsWriteIs(s, live, h, buffer);
    SpecWriteIs(s.params, Abs(s, live), h, buffer);
    AbsIs(s, live);
    var at := s.open[h].offset;
    MinIs(|buffer|, s.params.blockSize - at);
    var n := Min(|buffer|, s.params.blockSize - at);
    if n > 0 && (s.inodes[s.open[h].inumber].size > 0 || Least(s.blockTaken, IsFree) != -1) {
      WriteStepRefines(s, live, h, buffer[..n]);
    }
  }

  /** A live handle stands within its file, and its file within a block: no size_t operation on it wraps. */
  lemma LiveNeverWraps(s: State, live: set<int>, h: int, toWrite: nat)
    requires Inv(s, live) && h in live && toWrite <= PTRDIFF_MAX
    ensures var i, at := s.open[h].inumber, s.open[h].offset;
            && IsFile(s, i) && at <= s.inodes[i].size <= s.params.blockSize
            && SizeSub(s.inodes[i].size, at) == s.inodes[i].size - at
            && WriteLength(s, at, toWrite) == Min(toWrite, s.params.blockSize - at)
  {
    hide DirOk, BlocksOk;
    FileSizeBound(s, s.open[h].inumber);
    WriteNeverWraps(s, s.open[h].offset, toWrite);
    ReadNeverWraps(s, s.open[h].inumber, s.open[h].offset);
  }

  lemma HandleMoved(s: State, live: set<int>, h: int, at: nat)
    requires Inv(s, live) && h in live && at <= s.inodes[s.open[h].inumber].size
    ensures var i := s.open[h].inumber;
            var t := s.(open := s.open[h := OpenEntry(i, at)]);
            && Inv(t, live) && IsFile(s, i)
            && Abs(t, live) == Fs(Files(s), Handles(s, live)[h := Live(NameOf(s, i), at)])
  {
    hide DirOk, BlocksOk, InodesOk, Content;
    var i := s.open[h].inumber;
    var t := s.(open := s.open[h := OpenEntry(i, at)]);
    OpenTableFrame(s, t);
    assert Handles(t, live) == Handles(s, live)[h := Live(NameOf(s, i), at)];
  }

  lemma FileBytes(s: State, i: int)
    requires Owned(s) && IsFile(s, i) && s.inodes[i].size > 0
    ensures HasBlock(s, i) && 0 <= s.inodes[i].dataBlock < |s.blocks|
    ensures NameOf(s, i) in Files(s)
    ensures s.inodes[i].size <= |s.blocks[s.inodes[i].dataBlock]|
    ensures Files(s)[NameOf(s, i)] == s.blocks[s.inodes[i].dataBlock][..s.inodes[i].size]
  {
    assert HasBlock(s, i);
    FileAt(s, SlotOf(s, i));
  }

  lemma FileSizeBound(s: State, i: int)
    requires Owned(s) && IsFile(s, i)
    ensures s.inodes[i].size <= s.params.blockSize <= PTRDIFF_MAX
  {
  }

  lemma TfsReadIs(s: State, live: set<int>, h: int, len: nat)
    requires Inv(s, live) && h in live
    ensures var i, at := s.open[h].inumber, s.open[h].offset;
            && IsFile(s, i) && at <= s.inodes[i].size
            && var n := Min(len, s.inodes[i].size - at);
               && (n > 0 ==> HasBlock(s, i) && 0 <= s.inodes[i].dataBlock < |s.blocks|
                             && s.inodes[i].size <= |s.blocks[s.inodes[i].dataBlock]|)
               && TfsRead(s, live, h, len)
               == (s.(open := s.open[h := OpenEntry(i, at + n)]), n as int,
                   if n == 0 then [] else s.blocks[s.inodes[i].dataBlock][at..at + n])
  {
    hide DirOk;
    var i, at := s.open[h].inumber, s.open[h].offset;
    FileSizeBound(s, i);
    ReadNeverWraps(s, i, at);
    var n := Min(len, s.inodes[i].size - at);
    if n == 0 {
      assert s.open[h := OpenEntry(i, at)] == s.open;
    } else {
      assert HasBlock(s, i);
    }
  }

  /** tfs_read delivers exactly the bytes from the position on; its subtraction never wraps. */
  lemma ReadRefines(s: State, live: set<int>, h: int, len: nat)
    requires Inv(s, live) && MayUse(s, live, h)
    ensures Consistent(s.params, Abs(s, live)) && (h in Abs(s, live).handles ==> IsLive(Abs(s, live), h))
    ensures var (t, r, bytes) := TfsRead(s, live, h, len);
            Inv(t, live) && (Abs(t, live), r, bytes) == Read(s.params, Abs(s, live), h, len)
  {
    AbsHandle(s, live, h);
    if IsOpen(s, h) {
      OpenReadRefines(s, live, h, len);
    }
  }

  lemma SpecReadIs(p: Params, a: Fs, h: int, len: nat)
    requires Consistent(p, a) && IsLive(a, h)
    ensures var Live(name, at) := a.handles[h];
            && name in a.files && at <= |a.files[name]|
            && var n := Min(len, |a.files[name]| - at);
               Read(p, a, h, len)
               == (Fs(a.files, a.handles[h := Live(name, at + n)]), n as int, a.files[name][at..at + n])
  {
  }

  lemma MinIs(a: nat, b: nat)
    ensures Min(a, b) <= a && Min(a, b) <= b
  {
  }

  lemma LiveBounds(s: State, live: set<int>, h: int)
    requires Inv(s, live) && h in live
    ensures Owned(s) && 0 <= h < |s.open| && 0 <= s.open[h].inumber < |s.inodes| && IsFile(s, s.open[h].inumber)
  {
  }

  lemma AbsIs(s: State, live: set<int>)
    requires Inv(s, live)
    ensures Abs(s, live) == Fs(Files(s), Handles(s, live))
  {
  }

  lemma OpenReadRefines(s: State, live: set<int>, h: int, len: nat)
    requires Inv(s, live) && h in live && IsOpen(s, h)
    requires Consistent(s.params, Abs(s, live)) && IsLive(Abs(s, live), h)
    ensures var (t, r, bytes) := TfsRead(s, live, h, len);
            Inv(t, live) && (Abs(t, live), r, bytes) == Read(s.params, Abs(s, live), h, len)
  {
    hide *;
    LiveBounds(s, live, h);
    AbsHandle(s, live, h);
    TfsReadIs(s, live, h, len);
    SpecReadIs(s.params, Abs(s, live), h, len);
    var i, at := s.open[h].inumber, s.open[h].offset;
    var n := Min(len, s.inodes[i].size - at);
    MinIs(len, s.inodes[i].size - at);
    HandleMoved(s, live, h, at + n);
    AbsIs(s, live);
    var content := Files(s)[NameOf(s, i)];
    if n > 0 {
      FileBytes(s, i);
      assert content[at..at + n] == s.blocks[s.inodes[i].dataBlock][at..at + n];
    } else {
      assert content[at..at] == [];
    }
  }

  // ---------- tfs_unlink ----------

  ghost function LiveAfterUnlink(s: State, live: set<int>, path: CharPtr): set<int>
    requires Inv(s, live)
  {
    if ValidPathname(path) then LiveAfterDelete(s, live, FindInDir(s, BaseName(path))) else live
  }

  lemma UnlinkDeletes(s: State, path: CharPtr)
    requires Owned(s) && ValidPathname(path) && BaseName(path) in Files(s)
    ensures var n := BaseName(path);
            var k := FindSlot(s.dir, n);
            && Used(s, k) && NameAt(s, k) == n && s.dir[k].inumber == FindInDir(s, n)
            && TfsUnlink(s, path) == (Deleted(s, FindInDir(s, n), k), 0)
  {
    var n := BaseName(path);
    LookupFinds(s, n);
    FoundSlot(s, n);
    SameSlot(s, n);
    var i := FindInDir(s, n);
    assert HasBlock(s, i) || s.inodes[i].size == 0;
  }

  /** tfs_unlink removes exactly the named file; the inode and the entry it clears belong together. */
  lemma UnlinkRefines(s: State, live: set<int>, path: CharPtr)
    requires Inv(s, live)
    ensures var (t, r) := TfsUnlink(s, path);
            var live' := LiveAfterUnlink(s, live, path);
            Inv(t, live') && (Abs(t, live'), r) == Unlink(Abs(s, live), path)
  {
    if ValidPathname(path) {
      var n := BaseName(path);
      LookupFinds(s, n);
      if n in Files(s) {
        UnlinkDeletes(s, path);
        var i, k := FindInDir(s, n), FindSlot(s.dir, n);
        DeletedFiles(s, i, k);
        DeletedHandles(s, live, i, k);
      } else {
        assert LiveAfterDelete(s, live, -1) == live;
      }
    }
  }

  // ---------- Handles the code does not protect ----------

  /**
   Unlinking never breaks ownership, but it does not look at the open-file table: the
   live handles stay valid exactly if none of them is on the unlinked file.
   */
  lemma UnlinkInvalidatesExactly(s: State, live: set<int>, path: CharPtr)
    requires Inv(s, live) && TfsUnlink(s, path).1 == 0
    ensures var t := TfsUnlink(s, path).0;
            && Owned(t)
            && (HandlesOk(t, live) <==> forall h | h in live :: s.open[h].inumber != FindInDir(s, BaseName(path)))
            && forall some | some <= live :: HandlesOk(t, some) <==> some <= LiveAfterUnlink(s, live, path)
  {
    var n := BaseName(path);
    LookupFinds(s, n);
    UnlinkDeletes(s, path);
    var i, k := FindInDir(s, n), FindSlot(s.dir, n);
    DeletedOwned(s, i, k);
    DeletedLive(s, live, i, k);
  }

  /**
   Opening with truncation frees the block under the other handles of the file: they
   stay valid exactly if each of them stands at offset 0.
   */
  lemma TruncationInvalidatesExactly(s: State, live: set<int>, path: CharPtr, mode: OpenMode)
    requires Inv(s, live) && mode.trunc && ValidPathname(path) && BaseName(path) in Files(s)
    ensures var t, i := TfsOpen(s, path, mode).0, FindInDir(s, BaseName(path));
            && Owned(t)
            && (HandlesOk(t, live) <==>
                forall h | h in live && s.open[h].inumber == i :: s.open[h].offset == 0)
            && forall some | some <= live :: HandlesOk(t, some) <==> some <= LiveAfterTruncate(s, live, i)
  {
    hide DirOk, BlocksOk, InodesOk, Files, Handles, Content;
    LookupFinds(s, BaseName(path));
    var i := FindInDir(s, BaseName(path));
    OpenFileRefines(s, live, i, mode);
    TruncateRefines(s, live, i);
    assert live <= live;
  }

  // ---------- What stays unchanged ----------

  /**
   A write changes the bytes of the file's own block only, the content of that file only,
   and the position of that handle only.
   */
  lemma WriteTouchesOnlyItsFile(s: State, live: set<int>, h: int, buffer: seq<Byte>)
    requires Inv(s, live) && h in live && |buffer| <= PTRDIFF_MAX
    ensures var t, i := TfsWrite(s, live, h, buffer).0, s.open[h].inumber;
            && Inv(t, live) && t.dir == s.dir && t.inodeTaken == s.inodeTaken && t.openTaken == s.openTaken
            && (forall j | IsFile(s, j) && j != i :: Content(t, j) == Content(s, j))
            && (forall g | 0 <= g < |s.open| && g != h :: t.open[g] == s.open[g])
            && (forall b | 0 <= b < |s.blocks| && t.blocks[b] != s.blocks[b] ::
                  HasBlock(t, i) && t.inodes[i].dataBlock == b)
  {
    WriteRefines(s, live, h, buffer);
    WriteShape(s, live, h, buffer);
    var t, i := TfsWrite(s, live, h, buffer).0, s.open[h].inumber;
    forall j | IsFile(s, j) && j != i
      ensures Content(t, j) == Content(s, j)
    {
      ContentElsewhere(s, t, live, h, buffer, j);
    }
  }

  lemma WriteShape(s: State, live: set<int>, h: int, buffer: seq<Byte>)
    requires Inv(s, live) && h in live && |buffer| <= PTRDIFF_MAX
    ensures var t, i := TfsWrite(s, live, h, buffer).0, s.open[h].inumber;
            && t.dir == s.dir && t.inodeTaken == s.inodeTaken && t.openTaken == s.openTaken
            && |t.open| == |s.open| && |t.blocks| == |s.blocks|
            && (forall g | 0 <= g < |s.open| && g != h :: t.open[g] == s.open[g])
            && (forall b | 0 <= b < |s.blocks| && t.blocks[b] != s.blocks[b] ::
                  HasBlock(t, i) && t.inodes[i].dataBlock == b)
  {
    hide DirOk;
    FileSizeBound(s, s.open[h].inumber);
    WriteNeverWraps(s, s.open[h].offset, |buffer|);
  }

  lemma ContentElsewhere(s: State, t: State, live: set<int>, h: int, buffer: seq<Byte>, j: int)
    requires Inv(s, live) && h in live && |buffer| <= PTRDIFF_MAX && t == TfsWrite(s, live, h, buffer).0
    requires Inv(t, live) && t.dir == s.dir && t.inodeTaken == s.inodeTaken
    requires IsFile(s, j) && j != s.open[h].inumber
    ensures IsFile(t, j) && Content(t, j) == Content(s, j)
  {
    hide *;
    LiveBounds(s, live, h);
    LiveBounds(t, live, h);
    AbsIs(s, live);
    AbsIs(t, live);
    NamesFrame(s, t);
    NamedContent(s, j);
    NamedContent(t, j);
    SameName(s, s.open[h].inumber, j);
    OpenHandle(s, live, h);
    WriteRefines(s, live, h, buffer);
    SpecWriteElsewhere(s.params, Abs(s, live), h, buffer, NameOf(s, j));
  }

  lemma OpenHandle(s: State, live: set<int>, h: int)
    requires Inv(s, live) && h in live
    ensures MayUse(s, live, h) && h in Abs(s, live).handles && IsFile(s, s.open[h].inumber)
    ensures Abs(s, live).handles[h] == Live(NameOf(s, s.open[h].inumber), s.open[h].offset)
  {
  }

  lemma NamedContent(s: State, i: int)
    requires Owned(s) && IsFile(s, i)
    ensures NameOf(s, i) in Files(s) && Files(s)[NameOf(s, i)] == Content(s, i)
  {
    FileAt(s, SlotOf(s, i));
  }

  lemma SpecWriteElsewhere(p: Params, a: Fs, h: int, buffer: seq<Byte>, n: CString)
    requires Consistent(p, a) && IsLive(a, h) && n in a.files && n != a.handles[h].name
    ensures n in Write(p, a, h, buffer).0.files && Write(p, a, h, buffer).0.files[n] == a.files[n]
  {
  }

  // ---------- Creation undone ----------

  lemma FreeCounts(s: State, live: set<int>, t: State, live': set<int>)
    requires Inv(s, live) && Inv(t, live') && Abs(s, live) == Abs(t, live')
    ensures |TakenSet(t.inodeTaken)| == |TakenSet(s.inodeTaken)|
    ensures |TakenSet(t.blockTaken)| == |TakenSet(s.blockTaken)|
    ensures |UsedSlots(t)| == |UsedSlots(s)|
    ensures TakenSet(t.openTaken) == TakenSet(s.openTaken)
  {
    TablesCountFiles(s);
    TablesCountFiles(t);
    assert Handles(s, live).Keys == TakenSet(s.openTaken) && Handles(t, live').Keys == TakenSet(t.openTaken);
  }

  /** Creating, closing and unlinking a file gives every table entry back. */
  lemma CreateCloseUnlinkRestoresTables(s: State, live: set<int>, path: CharPtr)
    requires Inv(s, live) && ValidPathname(path) && BaseName(path) !in Files(s)
    requires TfsOpen(s, path, OpenMode(true, false, false)).1 != -1
    ensures var (t1, h) := TfsOpen(s, path, OpenMode(true, false, false));
            var t2 := TfsClose(t1, h).0;
            && Owned(t2)
            && var (t3, r) := TfsUnlink(t2, path);
               && r == 0
               && |TakenSet(t3.inodeTaken)| == |TakenSet(s.inodeTaken)|
               && |TakenSet(t3.blockTaken)| == |TakenSet(s.blockTaken)|
               && |UsedSlots(t3)| == |UsedSlots(s)|
               && TakenSet(t3.openTaken) == TakenSet(s.openTaken)
  {
    hide *;
    InvOwned(s, live);
    var mode := OpenMode(true, false, false);
    var (t1, h) := TfsOpen(s, path, mode);
    var live1 := LiveAfterOpen(s, live, path, mode);
    OpenRefines(s, live, path, mode);
    AbsConsistent(s, live);
    AbsIs(s, live);
    CloseRefines(t1, live1, h);
    var t2 := TfsClose(t1, h).0;
    InvOwned(t2, live1 - {h});
    UnlinkRefines(t2, live1 - {h}, path);
    CreateCloseUnlinkRestores(s.params, Abs(s, live), path);
    FreeCounts(s, live, TfsUnlink(t2, path).0, LiveAfterUnlink(t2, live1 - {h}, path));
  }

  lemma InvOwned(s: State, live: set<int>)
    requires Inv(s, live)
    ensures Owned(s)
  {
  }
}
