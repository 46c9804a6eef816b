/**
 What the code does through a handle it should have refused: the handle of an unlinked
 file writes into whatever file gets the inode next, and a read behind the end of a
 truncated file asks for almost 2^64 bytes.
 */
module FsStaleHandles {
  import opened CStrings
  import opened Finite
  import opened FsSpec
  import opened FsState
  import opened FsAbstraction
  import opened FsSteps
  import opened FsContents
  import opened FsRefinement
  import opened Sizes

  const CREATE := OpenMode(true, false, false)

  /** Handle `h` stands at the start of the file `path` names. */
  ghost predicate StandsOn(s: State, live: set<int>, h: int, path: CharPtr) {
    && Inv(s, live) && h in live && s.open[h].offset == 0
    && ValidPathname(path) && FindInDir(s, BaseName(path)) == s.open[h].inumber
  }

  /** After unlinking, the freed inode is the one the next creation takes. */
  lemma UnlinkedInodeIsNext(s: State, live: set<int>, h: int, a: CharPtr)
    requires StandsOn(s, live, h, a)
    requires forall j | 0 <= j < s.open[h].inumber :: s.inodeTaken[j] == TAKEN
    ensures var (t, r) := TfsUnlink(s, a);
            && r == 0 && Owned(t) && Least(t.inodeTaken, IsFree) == s.open[h].inumber
            && t.open == s.open && t.openTaken == s.openTaken && t.params == s.params
  {
    hide DirOk, BlocksOk, InodesOk, Files, Content, NameOf, TfsUnlink;
    var n, i := BaseName(a), s.open[h].inumber;
    LookupFinds(s, n);
    UnlinkDeletes(s, a);
    var k := FindSlot(s.dir, n);
    DeletedOwned(s, i, k);
    var t := Deleted(s, i, k);
    assert IsFree(t.inodeTaken[i]);
    assert forall j | 0 <= j < i :: !IsFree(t.inodeTaken[j]);
  }

  /** What a creation that succeeds does to the tables. */
  lemma CreationIs(t: State, b: CharPtr)
    requires Owned(t) && ValidPathname(b) && BaseName(b) !in Files(t) && TfsOpen(t, b, CREATE).1 != -1
    ensures var i, k := Least(t.inodeTaken, IsFree), Least(t.dir, IsFreeEntry);
            && i != -1 && k != -1 && MayCreate(t, i, k, BaseName(b))
            && TfsOpen(t, b, CREATE) == AddToOpenFileTable(Created(t, i, k, BaseName(b)), i, 0)
  {
    hide DirOk, BlocksOk, InodesOk, Files, NameOf;
    LookupFinds(t, BaseName(b));
    var i, k := Least(t.inodeTaken, IsFree), Least(t.dir, IsFreeEntry);
    assert i != -1 ==> IsFree(t.inodeTaken[i]);
    assert k != -1 ==> IsFreeEntry(t.dir[k]);
    assert forall j | 0 <= j < k :: !IsFreeEntry(t.dir[j]) && Used(t, j);
  }

  /** A creation gives the new file the lowest free inode and touches no open handle. */
  lemma CreationTakesInode(t: State, b: CharPtr)
    requires Owned(t) && ValidPathname(b) && BaseName(b) !in Files(t) && TfsOpen(t, b, CREATE).1 != -1
    ensures var (u, g) := TfsOpen(t, b, CREATE);
            var i := Least(t.inodeTaken, IsFree);
            && Owned(u) && IsFile(u, i) && NameOf(u, i) == BaseName(b)
            && u.inodes[i].size == 0 && u.params == t.params
            && (forall h | IsOpen(t, h) && h < |t.open| :: h != g && IsOpen(u, h) && u.open[h] == t.open[h])
  {
    hide DirOk, BlocksOk, InodesOk, Files, NameOf, MayCreate, TfsOpen;
    CreationIs(t, b);
    var i, k := Least(t.inodeTaken, IsFree), Least(t.dir, IsFreeEntry);
    CreatedNames(t, i, k, BaseName(b));
    var c := Created(t, i, k, BaseName(b));
    var (u, g) := AddToOpenFileTable(c, i, 0);
    assert IsFree(c.openTaken[g]);
    OpenTableFrame(c, u);
  }

  /** Open `a`, unlink `a`, create `b`: the handle of `a` now stands on `b`. */
  lemma StaleHandleReachesNewFile(s: State, live: set<int>, h: int, a: CharPtr, b: CharPtr)
    requires StandsOn(s, live, h, a)
    requires forall j | 0 <= j < s.open[h].inumber :: s.inodeTaken[j] == TAKEN
    requires ValidPathname(b) && BaseName(b) !in Files(s)
    ensures TfsUnlink(s, a).1 == 0 && Owned(TfsUnlink(s, a).0)
    ensures var (u, g) := TfsOpen(TfsUnlink(s, a).0, b, CREATE);
            g != -1 ==>
              && Inv(u, {h}) && u.params == s.params && h in Abs(u, {h}).handles && BaseName(b) in Files(u)
              && Abs(u, {h}).handles[h] == Live(BaseName(b), 0) && Files(u)[BaseName(b)] == []
  {
    hide DirOk, BlocksOk, InodesOk, TfsUnlink, TfsOpen, Files, Handles, Content, NameOf, Abs;
    UnlinkedInodeIsNext(s, live, h, a);
    var t := TfsUnlink(s, a).0;
    UnlinkRefines(s, live, a);
    AbsIs(s, live);
    AbsIs(t, LiveAfterUnlink(s, live, a));
    var (u, g) := TfsOpen(t, b, CREATE);
    if g != -1 {
      CreationTakesInode(t, b);
      NewFileIsEmpty(u, s.open[h].inumber, h, BaseName(b));
    }
  }

  /** What is then written through the old handle becomes the content of the new file. */
  lemma StaleHandleWritesToNewFile(s: State, live: set<int>, h: int, a: CharPtr, b: CharPtr, buffer: seq<Byte>)
    requires StandsOn(s, live, h, a) && |buffer| <= PTRDIFF_MAX
    requires forall j | 0 <= j < s.open[h].inumber :: s.inodeTaken[j] == TAKEN
    requires ValidPathname(b) && BaseName(b) !in Files(s)
    ensures TfsUnlink(s, a).1 == 0 && Owned(TfsUnlink(s, a).0)
    ensures var (u, g) := TfsOpen(TfsUnlink(s, a).0, b, CREATE);
            g != -1 ==>
              && Inv(u, {h})
              && var (v, r) := TfsWrite(u, {h}, h, buffer);
                 && Inv(v, {h}) && BaseName(b) in Files(v)
                 && Files(v)[BaseName(b)] == if r > 0 then buffer[..Min(|buffer|, s.params.blockSize)] else []
  {
    hide *;
    StandsOnParts(s, live, h, a);
    StaleHandleReachesNewFile(s, live, h, a, b);
    var (u, g) := TfsOpen(TfsUnlink(s, a).0, b, CREATE);
    if g != -1 {
      MayUseLive(u, h);
      WriteRefines(u, {h}, h, buffer);
      AbsIs(u, {h});
      AbsIs(TfsWrite(u, {h}, h, buffer).0, {h});
      WriteIntoEmpty(u.params, Abs(u, {h}), h, BaseName(b), buffer);
    }
  }

  lemma StandsOnParts(s: State, live: set<int>, h: int, a: CharPtr)
    requires StandsOn(s, live, h, a)
    ensures Owned(s) && 0 <= h < |s.open|
  {
  }

  lemma MayUseLive(s: State, h: int)
    ensures MayUse(s, {h}, h)
  {
  }

  lemma WriteIntoEmpty(p: Params, a: Fs, h: int, n: CString, buffer: seq<Byte>)
    requires Consistent(p, a) && h in a.handles && a.handles[h] == Live(n, 0) && n in a.files && a.files[n] == []
    ensures IsLive(a, h)
    ensures var (a1, r) := Write(p, a, h, buffer);
            n in a1.files && a1.files[n] == if r > 0 then buffer[..Min(|buffer|, p.blockSize)] else []
  {
  }

  lemma NewFileIsEmpty(u: State, i: int, h: int, n: CString)
    requires Inv(u, {h}) && u.open[h] == OpenEntry(i, 0) && IsFile(u, i) && NameOf(u, i) == n && u.inodes[i].size == 0
    ensures n in Files(u) && Files(u)[n] == [] && h in Abs(u, {h}).handles && Abs(u, {h}).handles[h] == Live(n, 0)
  {
    LiveHandle(u, {h}, h);
    FileAt(u, SlotOf(u, i));
  }

  /** Truncating under a handle behind the start makes its next read ask for more than a block. */
  lemma TruncatedReadWraps(s: State, live: set<int>, h: int, path: CharPtr, mode: OpenMode)
    requires Inv(s, live) && h in live && s.open[h].offset > 0 && mode.trunc
    requires ValidPathname(path) && FindInDir(s, BaseName(path)) == s.open[h].inumber
    ensures var t, i := TfsOpen(s, path, mode).0, s.open[h].inumber;
            && IsOpen(t, h) && h < |t.open| && t.open[h] == s.open[h] && i < |t.inodes|
            && SizeSub(t.inodes[i].size, t.open[h].offset) == SIZE_T_RANGE - s.open[h].offset > s.params.blockSize
  {
    hide *;
    LiveBounds(s, live, h);
    LiveOffset(s, live, h);
    OpenIsExisting(s, path, mode);
    ExistingOpened(s, s.open[h].inumber, mode, h);
    SubtractionWraps(s.open[h].offset);
  }

  lemma LiveOffset(s: State, live: set<int>, h: int)
    requires Inv(s, live) && h in live
    ensures Shaped(s) && IsOpen(s, h) && s.open[h].inumber != -1 && s.params.blockSize <= PTRDIFF_MAX
    ensures s.open[h].offset <= s.params.blockSize <= SIZE_T_RANGE - 1 - s.params.blockSize
  {
    FileSizeBound(s, s.open[h].inumber);
  }

  lemma SubtractionWraps(offset: nat)
    requires 0 < offset < SIZE_T_RANGE
    ensures SizeSub(0, offset) == SIZE_T_RANGE - offset
  {
  }

  /** Opening with truncation leaves the entry of an open handle alone. */
  lemma ExistingOpened(s: State, i: int, mode: OpenMode, h: int)
    requires Shaped(s) && 0 <= i < |s.inodes| && IsOpen(s, h) && mode.trunc
    requires s.inodes[i].size > 0 ==> 0 <= s.inodes[i].dataBlock < |s.blockTaken|
    ensures var t := FsState.OpenExisting(s, i, mode).0;
            && IsOpen(t, h) && h < |t.open| && t.open[h] == s.open[h] && |t.inodes| == |s.inodes| && t.inodes[i].size == 0
  {
    var t1 := Truncate(s, i);
    var g := Least(t1.openTaken, IsFree);
    assert g != -1 ==> IsFree(t1.openTaken[g]);
  }

  lemma OpenIsExisting(s: State, path: CharPtr, mode: OpenMode)
    requires Owned(s) && ValidPathname(path) && FindInDir(s, BaseName(path)) != -1
    ensures var i := FindInDir(s, BaseName(path));
            && 0 <= i < |s.inodes| && (s.inodes[i].size > 0 ==> 0 <= s.inodes[i].dataBlock < |s.blockTaken|)
            && TfsOpen(s, path, mode) == FsState.OpenExisting(s, i, mode)
  {
    var i := FindInDir(s, BaseName(path));
    assert Used(s, FindSlot(s.dir, BaseName(path)));
    assert HasBlock(s, i) || s.inodes[i].size == 0;
  }

  /** The situation arises: the first file of a new file system gets inode 1, the lowest one after the root. */
  lemma FirstFileStandsLowest(s0: State, a: CharPtr)
    requires FreshTables(s0) && s0.params.maxInodes >= 2 && s0.params.maxBlocks >= 1
    requires s0.params.MaxDirEntries() >= 1 && s0.params.maxOpenFiles >= 1
    requires ValidPathname(a) && |BaseName(a)| < MAX_FILE_NAME
    ensures TfsInit(s0).1 == 0 && Owned(TfsInit(s0).0)
    ensures var (s, h) := TfsOpen(TfsInit(s0).0, a, CREATE);
            h == 0 && StandsOn(s, {h}, h, a) && s.open[h].inumber == 1 && s.inodeTaken[0] == TAKEN
  {
    InitResult(s0);
    InitIsEmpty(s0);
    var s1 := TfsInit(s0).0;
    FirstFileOpens(s1, a);
    assert IsFree(s0.inodeTaken[0]);
    assert s1.inodeTaken[0] == TAKEN && IsFree(s1.inodeTaken[1]);
    FirstFileStands(s1, a);
  }

  lemma FirstFileOpens(s1: State, a: CharPtr)
    requires Inv(s1, {}) && Abs(s1, {}) == Fs(map[], map[]) && ValidPathname(a) && |BaseName(a)| < MAX_FILE_NAME
    requires s1.params.maxInodes >= 2 && s1.params.MaxDirEntries() >= 1 && s1.params.maxOpenFiles >= 1
    ensures TfsOpen(s1, a, CREATE).1 == 0 && BaseName(a) !in Files(s1)
  {
    hide DirOk, BlocksOk, InodesOk, TfsOpen;
    OpenRefines(s1, {}, a, CREATE);
    AbsIs(s1, {});
  }

  lemma FirstFileStands(s1: State, a: CharPtr)
    requires Inv(s1, {}) && ValidPathname(a) && BaseName(a) !in Files(s1) && TfsOpen(s1, a, CREATE).1 == 0
    requires 1 < |s1.inodeTaken| && s1.inodeTaken[0] == TAKEN && s1.inodeTaken[1] == FREE
    ensures var (s, h) := TfsOpen(s1, a, CREATE);
            StandsOn(s, {h}, h, a) && s.open[h].inumber == 1 && s.inodeTaken[0] == TAKEN
  {
    hide DirOk, BlocksOk, InodesOk, Files, NameOf, TfsOpen, Content, FindInDir;
    CreationIs(s1, a);
    CreationTakesInode(s1, a);
    assert IsFree(s1.inodeTaken[1]) && !IsFree(s1.inodeTaken[0]);
    var (s, h) := TfsOpen(s1, a, CREATE);
    NameFound(s, 1, BaseName(a));
  }

  lemma NameFound(s: State, i: int, n: CString)
    requires Owned(s) && IsFile(s, i) && NameOf(s, i) == n
    ensures FindInDir(s, n) == i
  {
    FoundSlot(s, n);
    FileAt(s, SlotOf(s, i));
  }

  // ---------- Both failures from a new file system ----------

  /** What a new file system needs for them: the root and one file, two handles. */
  ghost predicate RoomForTwo(s0: State) {
    && FreshTables(s0) && s0.params.maxInodes >= 2 && s0.params.maxBlocks >= 2
    && s0.params.MaxDirEntries() >= 1 && s0.params.maxOpenFiles >= 2
  }

  lemma FirstFileIs(s0: State, a: CharPtr)
    requires RoomForTwo(s0) && ValidPathname(a) && |BaseName(a)| < MAX_FILE_NAME
    ensures TfsInit(s0).1 == 0 && Owned(TfsInit(s0).0)
    ensures var (s, h) := TfsOpen(TfsInit(s0).0, a, CREATE);
            && h == 0 && StandsOn(s, {0}, 0, a) && s.open[0].inumber == 1 && s.inodeTaken[0] == TAKEN
            && s.params == s0.params && Abs(s, {0}) == Fs(map[BaseName(a) := []], map[0 := Live(BaseName(a), 0)])
  {
    hide DirOk, BlocksOk, InodesOk, Files, Handles, Content, NameOf, TfsOpen, FindInDir, Abs, Open, TfsInit, Shaped;
    FirstFileStandsLowest(s0, a);
    InitIsEmpty(s0);
    InitParams(s0);
    var s1 := TfsInit(s0).0;
    LookupFinds(s1, BaseName(a));
    AbsIs(s1, {});
    CreationTakesInode(s1, a);
    OpenRefines(s1, {}, a, CREATE);
    FirstFile(s1.params, a);
    assert LiveAfterOpen(s1, {}, a, CREATE) == {0};
  }

  lemma InitParams(s0: State)
    requires FreshTables(s0)
    ensures TfsInit(s0).0.params == s0.params
  {
  }

  lemma FirstFile(p: Params, a: CharPtr)
    requires p.maxInodes >= 2 && p.MaxDirEntries() >= 1 && p.maxOpenFiles >= 1
    requires ValidPathname(a) && |BaseName(a)| < MAX_FILE_NAME
    ensures Open(p, Fs(map[], map[]), a, CREATE) == (Fs(map[BaseName(a) := []], map[0 := Live(BaseName(a), 0)]), 0)
  {
  }

  lemma FirstFileGone(a: CharPtr)
    requires ValidPathname(a)
    ensures Unlink(Fs(map[BaseName(a) := []], map[0 := Live(BaseName(a), 0)]), a) == (Fs(map[], map[0 := Stale]), 0)
  {
    var files: map<CString, seq<Byte>> := map[BaseName(a) := []];
    assert files - {BaseName(a)} == map[];
    assert DropHandles(map[0 := Live(BaseName(a), 0)], BaseName(a)) == map[0 := Stale];
  }

  lemma SecondFile(p: Params, b: CharPtr)
    requires p.maxInodes >= 2 && p.MaxDirEntries() >= 1 && p.maxOpenFiles >= 2
    requires ValidPathname(b) && |BaseName(b)| < MAX_FILE_NAME
    ensures Open(p, Fs(map[], map[0 := Stale]), b, CREATE)
         == (Fs(map[BaseName(b) := []], map[0 := Stale, 1 := Live(BaseName(b), 0)]), 1)
  {
    var unlinked := Fs(map[], map[0 := Stale]);
    assert 0 in unlinked.handles && 1 !in unlinked.handles;
    assert FreeHandle(p, unlinked) == 1;
  }

  lemma FirstWrite(p: Params, a: Fs, n: CString, buffer: seq<Byte>)
    requires Consistent(p, a) && a.files == map[n := []] && p.maxBlocks >= 2
    requires 0 in a.handles && a.handles[0] == Live(n, 0)
    ensures var (a1, w) := Write(p, a, 0, buffer);
            && w == Min(|buffer|, p.blockSize) && n in a1.files && a1.files[n] == buffer[..w]
            && 0 in a1.handles && a1.handles[0] == Live(n, w)
  {
    assert NonEmpty(a.files) == {};
  }

  /**
   Opening `a` gives handle 0; it is unlinked and `b` created, with handle 1. What is then
   written through handle 0 is the content of `b`.
   */
  lemma StaleWriteArises(s0: State, a: CharPtr, b: CharPtr, buffer: seq<Byte>)
    requires RoomForTwo(s0) && ValidPathname(a) && |BaseName(a)| < MAX_FILE_NAME
    requires ValidPathname(b) && |BaseName(b)| < MAX_FILE_NAME && BaseName(b) != BaseName(a) && |buffer| <= PTRDIFF_MAX
    ensures TfsInit(s0).1 == 0 && Owned(TfsInit(s0).0)
    ensures var (s, h) := TfsOpen(TfsInit(s0).0, a, CREATE);
            && h == 0 && Owned(s)
            && var (t, r) := TfsUnlink(s, a);
               && r == 0 && Owned(t)
               && var (u, g) := TfsOpen(t, b, CREATE);
                  && g == 1 && Inv(u, {0})
                  && var (v, w) := TfsWrite(u, {0}, 0, buffer);
                     && w == Min(|buffer|, s0.params.blockSize) && Owned(v)
                     && BaseName(b) in Files(v) && Files(v)[BaseName(b)] == buffer[..w]
  {
    hide DirOk, BlocksOk, InodesOk, Files, Handles, Content, NameOf, TfsWrite, TfsOpen, TfsUnlink, TfsInit, FindInDir, Abs, Shaped;
    FirstFileIs(s0, a);
    var s := TfsOpen(TfsInit(s0).0, a, CREATE).0;
    SecondFileOpens(s, a, b);
    var u := TfsOpen(TfsUnlink(s, a).0, b, CREATE).0;
    WriteIntoFirst(u, BaseName(b), buffer);
  }

  lemma SecondFileOpens(s: State, a: CharPtr, b: CharPtr)
    requires StandsOn(s, {0}, 0, a) && s.open[0].inumber == 1 && s.inodeTaken[0] == TAKEN
    requires Abs(s, {0}) == Fs(map[BaseName(a) := []], map[0 := Live(BaseName(a), 0)])
    requires s.params.maxInodes >= 2 && s.params.MaxDirEntries() >= 1 && s.params.maxOpenFiles >= 2
    requires ValidPathname(b) && |BaseName(b)| < MAX_FILE_NAME && BaseName(b) != BaseName(a)
    ensures TfsUnlink(s, a).1 == 0 && Owned(TfsUnlink(s, a).0)
    ensures var (u, g) := TfsOpen(TfsUnlink(s, a).0, b, CREATE);
            && g == 1 && Inv(u, {0}) && u.params == s.params
            && Abs(u, {0}).files == map[BaseName(b) := []]
            && 0 in Abs(u, {0}).handles && Abs(u, {0}).handles[0] == Live(BaseName(b), 0)
  {
    hide DirOk, BlocksOk, InodesOk, Files, Handles, Content, NameOf, TfsOpen, TfsUnlink, FindInDir, Abs, Open, Unlink,
         LiveAfterUnlink, LiveAfterOpen, Shaped;
    FirstFileGone(a);
    SecondFile(s.params, b);
    AbsIs(s, {0});
    var t, live := TfsUnlink(s, a).0, LiveAfterUnlink(s, {0}, a);
    UnlinkRefines(s, {0}, a);
    UnlinkedInodeIsNext(s, {0}, 0, a);
    OpenRefines(t, live, b, CREATE);
    StaleHandleReachesNewFile(s, {0}, 0, a, b);
    var u := TfsOpen(t, b, CREATE).0;
    AbsIs(u, LiveAfterOpen(t, live, b, CREATE));
    AbsIs(u, {0});
  }

  lemma WriteIntoFirst(u: State, n: CString, buffer: seq<Byte>)
    requires Inv(u, {0}) && |buffer| <= PTRDIFF_MAX && u.params.maxBlocks >= 2
    requires Abs(u, {0}).files == map[n := []] && 0 in Abs(u, {0}).handles && Abs(u, {0}).handles[0] == Live(n, 0)
    ensures var (v, w) := TfsWrite(u, {0}, 0, buffer);
            && w == Min(|buffer|, u.params.blockSize) && Inv(v, {0}) && Owned(v)
            && n in Files(v) && Files(v)[n] == buffer[..w]
            && 0 in Handles(v, {0}) && Handles(v, {0})[0] == Live(n, w)
  {
    hide DirOk, BlocksOk, InodesOk, Files, Handles, Content, NameOf, TfsWrite, Abs, Write, Shaped;
    WriteRefines(u, {0}, 0, buffer);
    FirstWrite(u.params, Abs(u, {0}), n, buffer);
    AbsIs(TfsWrite(u, {0}, 0, buffer).0, {0});
  }

  /**
   Something is written to the new file `a`, then `a` is opened again with truncation: the
   next read through handle 0 asks for almost 2^64 bytes.
   */
  lemma TruncatedReadArises(s0: State, a: CharPtr, buffer: seq<Byte>, mode: OpenMode)
    requires RoomForTwo(s0) && ValidPathname(a) && |BaseName(a)| < MAX_FILE_NAME
    requires 0 < |buffer| <= PTRDIFF_MAX && mode.trunc
    ensures TfsInit(s0).1 == 0 && Owned(TfsInit(s0).0)
    ensures var (s, h) := TfsOpen(TfsInit(s0).0, a, CREATE);
            && h == 0 && Inv(s, {0})
            && var (v, w) := TfsWrite(s, {0}, 0, buffer);
               && w == Min(|buffer|, s0.params.blockSize) && Owned(v)
               && var t := TfsOpen(v, a, mode).0;
                  && IsOpen(t, 0) && 0 < |t.open| && 0 <= t.open[0].inumber < |t.inodes|
                  && SizeSub(t.inodes[t.open[0].inumber].size, t.open[0].offset) == SIZE_T_RANGE - w > s0.params.blockSize
  {
    hide DirOk, BlocksOk, InodesOk, Files, Handles, Content, NameOf, TfsWrite, TfsOpen, TfsInit, FindInDir;
    FirstFileIs(s0, a);
    var s := TfsOpen(TfsInit(s0).0, a, CREATE).0;
    WriteIntoFirst(s, BaseName(a), buffer);
    var v := TfsWrite(s, {0}, 0, buffer).0;
    WriteParams(s, buffer);
    LiveHandle(v, {0}, 0);
    NameFound(v, v.open[0].inumber, BaseName(a));
    TruncatedReadWraps(v, {0}, 0, a, mode);
  }

  lemma WriteParams(s: State, buffer: seq<Byte>)
    requires Inv(s, {0}) && |buffer| <= PTRDIFF_MAX
    ensures TfsWrite(s, {0}, 0, buffer).0.params == s.params
  {
    hide DirOk, BlocksOk, InodesOk, Content, TfsWrite;
    TfsWriteIs(s, {0}, 0, buffer);
  }
}
