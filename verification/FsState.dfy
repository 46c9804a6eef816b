/**
 The tables of TecnicoFS as one value, the functions of fs/state.c and
 fs/operations.c over it, and the ownership invariant of the tables.

 Every `tfs_*` call holds the library mutex from start to end, so each is one step.
 */
module FsState {
  import opened CStrings
  import opened Finite
  import opened FsSpec
  import opened Sizes

  const ROOT_DIR_INUM: nat := 0

  datatype NodeType = T_FILE | T_DIRECTORY
  datatype Inode = Inode(nodeType: NodeType, size: nat, dataBlock: int)
  datatype Alloc = FREE | TAKEN
  type NameField = s: seq<Byte> | |s| == MAX_FILE_NAME witness seq(MAX_FILE_NAME, _ => NUL)
  datatype DirEntry = DirEntry(name: NameField, inumber: int)
  datatype OpenEntry = OpenEntry(inumber: int, offset: nat)

  datatype State = State(
    params: Params,
    inodes: seq<Inode>, inodeTaken: seq<Alloc>,
    blocks: seq<seq<Byte>>, blockTaken: seq<Alloc>,
    dir: seq<DirEntry>,
    open: seq<OpenEntry>, openTaken: seq<Alloc>)

  // size_t arithmetic wraps around.
  function SizeAdd(a: nat, b: nat): nat { (a + b) % SIZE_T_RANGE }

  function SizeSub(a: nat, b: nat): nat { (a - b) % SIZE_T_RANGE }

  // ---------- The ownership invariant ----------

  ghost predicate Shaped(s: State) {
    && s.params.Valid()
    && 0 < |s.inodes| == |s.inodeTaken| == s.params.maxInodes
    && 0 < |s.blocks| == |s.blockTaken| == s.params.maxBlocks
    && |s.dir| == s.params.MaxDirEntries()
    && |s.open| == |s.openTaken| == s.params.maxOpenFiles
    && forall b | 0 <= b < |s.blocks| :: |s.blocks[b]| == s.params.blockSize
  }

  ghost predicate IsFile(s: State, i: int) {
    ROOT_DIR_INUM < i < |s.inodeTaken| && s.inodeTaken[i] == TAKEN
  }

  ghost predicate HasBlock(s: State, i: int) {
    0 <= i < |s.inodeTaken| && i < |s.inodes| && s.inodeTaken[i] == TAKEN && s.inodes[i].size > 0
  }

  ghost predicate Used(s: State, k: int) {
    0 <= k < |s.dir| && s.dir[k].inumber != -1
  }

  function NameAt(s: State, k: int): CString
    requires 0 <= k < |s.dir|
  {
    StringIn(s.dir[k].name)
  }

  ghost predicate Listed(s: State, i: int) {
    exists k :: Used(s, k) && s.dir[k].inumber == i
  }

  ghost predicate HasOwner(s: State, b: int) {
    exists i :: HasBlock(s, i) && s.inodes[i].dataBlock == b
  }

  /** The root owns block 0; every other taken inode is a file of at most one block. */
  ghost predicate InodesOk(s: State)
    requires Shaped(s)
  {
    && s.inodeTaken[ROOT_DIR_INUM] == TAKEN
    && s.inodes[ROOT_DIR_INUM] == Inode(T_DIRECTORY, s.params.blockSize, 0)
    && forall i {:trigger IsFile(s, i)} | IsFile(s, i) ::
         s.inodes[i].nodeType == T_FILE && s.inodes[i].size <= s.params.blockSize
  }

  /** The taken blocks are exactly the blocks of the non-empty taken inodes, one each. */
  ghost predicate BlocksOk(s: State)
    requires Shaped(s)
  {
    && (forall i {:trigger HasBlock(s, i)} | HasBlock(s, i) ::
          0 <= s.inodes[i].dataBlock < |s.blocks| && s.blockTaken[s.inodes[i].dataBlock] == TAKEN)
    && (forall i, j {:trigger HasBlock(s, i), HasBlock(s, j)} |
          HasBlock(s, i) && HasBlock(s, j) && s.inodes[i].dataBlock == s.inodes[j].dataBlock :: i == j)
    && (forall b {:trigger HasOwner(s, b)} | 0 <= b < |s.blocks| && s.blockTaken[b] == TAKEN :: HasOwner(s, b))
  }

  /**
   The used directory slots are in bijection with the taken non-root inodes, under
   distinct non-empty terminated names. A free slot below a used one holds the empty
   name; the slots above, never used, hold whatever their memory held.
   */
  ghost predicate DirOk(s: State)
    requires Shaped(s)
  {
    && (forall k {:trigger Used(s, k)} | Used(s, k) ::
          IsFile(s, s.dir[k].inumber) && NUL in s.dir[k].name && NameAt(s, k) != [])
    && (forall k, l {:trigger NameAt(s, k), Used(s, l)} |
          0 <= k < l && Used(s, l) && s.dir[k].inumber == -1 :: NameAt(s, k) == [])
    && (forall k, l {:trigger Used(s, k), Used(s, l)} |
          Used(s, k) && Used(s, l) && NameAt(s, k) == NameAt(s, l) :: k == l)
    && (forall k, l {:trigger Used(s, k), Used(s, l)} |
          Used(s, k) && Used(s, l) && s.dir[k].inumber == s.dir[l].inumber :: k == l)
    && (forall i {:trigger Listed(s, i)} | IsFile(s, i) :: Listed(s, i))
  }

  ghost predicate Owned(s: State) {
    Shaped(s) && InodesOk(s) && BlocksOk(s) && DirOk(s)
  }

  predicate IsOpen(s: State, h: int) {
    0 <= h < |s.openTaken| && s.openTaken[h] == TAKEN
  }

  /**
   The handles in `live` may be used for reading and writing: each refers to an
   existing file, at an offset within its contents.
   */
  ghost predicate HandlesOk(s: State, live: set<int>)
    requires Shaped(s)
  {
    forall h | h in live ::
      && IsOpen(s, h)
      && IsFile(s, s.open[h].inumber)
      && s.open[h].offset <= s.inodes[s.open[h].inumber].size
  }

  ghost predicate Inv(s: State, live: set<int>) {
    Owned(s) && HandlesOk(s, live)
  }

  // ---------- fs/state.c ----------

  predicate IsFree(a: Alloc) { a == FREE }

  function InodeAlloc(s: State): (State, int) {
    var i := Least(s.inodeTaken, IsFree);
    if i == -1 then (s, -1) else (s.(inodeTaken := s.inodeTaken[i := TAKEN]), i)
  }

  function InodeCreateFile(s: State): (State, int)
    requires Shaped(s)
  {
    var (s1, i) := InodeAlloc(s);
    if i == -1 then (s, -1) else (s1.(inodes := s1.inodes[i := Inode(T_FILE, 0, -1)]), i)
  }

  function DataBlockAlloc(s: State): (State, int) {
    var b := Least(s.blockTaken, IsFree);
    if b == -1 then (s, -1) else (s.(blockTaken := s.blockTaken[b := TAKEN]), b)
  }

  function DataBlockFree(s: State, b: int): State
    requires 0 <= b < |s.blockTaken|
  {
    s.(blockTaken := s.blockTaken[b := FREE])
  }

  function InodeDelete(s: State, i: int): State
    requires 0 <= i < |s.inodes| == |s.inodeTaken|
    requires s.inodes[i].size > 0 ==> 0 <= s.inodes[i].dataBlock < |s.blockTaken|
  {
    var s1 := if s.inodes[i].size > 0 then DataBlockFree(s, s.inodes[i].dataBlock) else s;
    s1.(inodeTaken := s1.inodeTaken[i := FREE])
  }

  predicate SameLengths(s: State) {
    && |s.inodes| == |s.inodeTaken| == s.params.maxInodes
    && |s.blocks| == |s.blockTaken| == s.params.maxBlocks
    && |s.dir| == s.params.MaxDirEntries()
    && |s.open| == |s.openTaken| == s.params.maxOpenFiles
  }

  /** inode_create(T_DIRECTORY): the entries' names are left as they are in memory. */
  function InodeCreateDirectory(s: State): (State, int)
    requires SameLengths(s)
  {
    var (s1, i) := InodeAlloc(s);
    if i == -1 then (s, -1)
    else
      var (s2, b) := DataBlockAlloc(s1);
      if b == -1 then
        (InodeDelete(s1.(inodes := s1.inodes[i := Inode(T_DIRECTORY, 0, -1)]), i), -1)
      else
        (s2.(inodes := s2.inodes[i := Inode(T_DIRECTORY, s.params.blockSize, b)],
             dir := seq(|s.dir|, k requires 0 <= k < |s.dir| => s.dir[k].(inumber := -1))), i)
  }

  /** The name field after strncpy and the explicit terminator. */
  function StoredName(field: NameField, name: CString): NameField {
    StrNCpy(field, name, MAX_FILE_NAME - 1)[MAX_FILE_NAME - 1 := NUL]
  }

  /** The name field after memset(d_name, 0, MAX_FILE_NAME). */
  function EmptyName(): NameField {
    seq(MAX_FILE_NAME, _ => NUL)
  }

  predicate IsFreeEntry(e: DirEntry) { e.inumber == -1 }

  function AddDirEntry(s: State, name: CString, inumber: int): (State, int) {
    if |name| == 0 || |name| > MAX_FILE_NAME - 1 then (s, -1)
    else
      var k := Least(s.dir, IsFreeEntry);
      if k == -1 then (s, -1)
      else (s.(dir := s.dir[k := DirEntry(StoredName(s.dir[k].name, name), inumber)]), 0)
  }

  /** The slot find_in_dir stops at. */
  function FindSlot(dir: seq<DirEntry>, name: CString): int {
    Least(dir, (e: DirEntry) => e.inumber != -1 && StrNCmpEqual(e.name, name, MAX_FILE_NAME))
  }

  function FindInDir(s: State, name: CString): int {
    var k := FindSlot(s.dir, name);
    if k == -1 then -1 else s.dir[k].inumber
  }

  /** The slot clear_dir_entry stops at: it compares names only. */
  function ClearSlot(dir: seq<DirEntry>, name: CString): int {
    Least(dir, (e: DirEntry) => Comparable(e.name, name) && StrCmpEqual(e.name, name))
  }

  function ClearDirEntry(s: State, name: CString): (State, int) {
    var k := ClearSlot(s.dir, name);
    if k == -1 then (s, -1) else (s.(dir := s.dir[k := DirEntry(EmptyName(), -1)]), 0)
  }

  function AddToOpenFileTable(s: State, inumber: int, offset: nat): (State, int)
    requires |s.open| == |s.openTaken|
  {
    var h := Least(s.openTaken, IsFree);
    if h == -1 then (s, -1)
    else (s.(openTaken := s.openTaken[h := TAKEN], open := s.open[h := OpenEntry(inumber, offset)]), h)
  }

  // ---------- fs/operations.c ----------

  /** Frees the block of a non-empty file. */
  function Truncate(s: State, i: int): State
    requires 0 <= i < |s.inodes|
    requires s.inodes[i].size > 0 ==> 0 <= s.inodes[i].dataBlock < |s.blockTaken|
  {
    if s.inodes[i].size > 0 then
      DataBlockFree(s, s.inodes[i].dataBlock).(inodes := s.inodes[i := s.inodes[i].(size := 0)])
    else s
  }

  function OpenExisting(s: State, i: int, mode: OpenMode): (State, int)
    requires Shaped(s) && 0 <= i < |s.inodes|
    requires s.inodes[i].size > 0 ==> 0 <= s.inodes[i].dataBlock < |s.blockTaken|
  {
    var s1 := if mode.trunc then Truncate(s, i) else s;
    AddToOpenFileTable(s1, i, if mode.append then s1.inodes[i].size else 0)
  }

  function OpenNew(s: State, name: CString): (State, int)
    requires Shaped(s)
  {
    var (s1, i) := InodeCreateFile(s);
    if i == -1 then (s, -1)
    else
      var (s2, added) := AddDirEntry(s1, name, i);
      if added == -1 then (InodeDelete(s1, i), -1) else AddToOpenFileTable(s2, i, 0)
  }

  function TfsOpen(s: State, path: CharPtr, mode: OpenMode): (State, int)
    requires Owned(s)
  {
    if !ValidPathname(path) then (s, -1)
    else
      var i := FindInDir(s, BaseName(path));
      assert i >= 0 ==> Used(s, FindSlot(s.dir, BaseName(path)));
      assert i >= 0 ==> HasBlock(s, i) || s.inodes[i].size == 0;
      if i >= 0 then OpenExisting(s, i, mode)
      else if mode.creat then OpenNew(s, BaseName(path))
      else (s, -1)
  }

  /** Newly allocated tables: everything is free and nothing is initialised. */
  ghost predicate FreshTables(s: State) {
    && s.params.Valid() && SameLengths(s)
    && (forall b | 0 <= b < |s.blocks| :: |s.blocks[b]| == s.params.blockSize)
    && (forall i | 0 <= i < |s.inodeTaken| :: s.inodeTaken[i] == FREE)
    && (forall b | 0 <= b < |s.blockTaken| :: s.blockTaken[b] == FREE)
    && (forall h | 0 <= h < |s.openTaken| :: s.openTaken[h] == FREE)
  }

  function TfsInit(s: State): (State, int)
    requires SameLengths(s)
  {
    var (s1, root) := InodeCreateDirectory(s);
    (s1, if root != ROOT_DIR_INUM then -1 else 0)
  }

  function TfsClose(s: State, h: int): (State, int) {
    if IsOpen(s, h) then (s.(openTaken := s.openTaken[h := FREE]), 0) else (s, -1)
  }

  /** How many of the requested bytes fit in the file's block. */
  function WriteLength(s: State, offset: nat, toWrite: nat): nat {
    if SizeAdd(toWrite, offset) > s.params.blockSize then SizeSub(s.params.blockSize, offset) else toWrite
  }

  /** tfs_write clips to the block exactly if offset and length together fit in a size_t. */
  lemma WriteClipsExactly(s: State, offset: nat, toWrite: nat)
    requires s.params.Valid() && offset <= s.params.blockSize && toWrite < SIZE_T_RANGE
    ensures WriteLength(s, offset, toWrite) == Min(toWrite, s.params.blockSize - offset)
       <==> toWrite + offset < SIZE_T_RANGE
  {
    if toWrite + offset >= SIZE_T_RANGE {
      assert SizeAdd(toWrite, offset) == toWrite + offset - SIZE_T_RANGE;
    }
  }

  /** For one C object and an offset inside a block, neither size_t operation wraps. */
  lemma WriteNeverWraps(s: State, offset: nat, toWrite: nat)
    requires s.params.Valid() && offset <= s.params.blockSize && toWrite <= PTRDIFF_MAX
    ensures WriteLength(s, offset, toWrite) == Min(toWrite, s.params.blockSize - offset)
  {
  }

  lemma ReadNeverWraps(s: State, i: int, offset: nat)
    requires 0 <= i < |s.inodes| && offset <= s.inodes[i].size <= PTRDIFF_MAX
    ensures SizeSub(s.inodes[i].size, offset) == s.inodes[i].size - offset
  {
  }

  /** memcpy(block + at, bytes, |bytes|). */
  function Overwrite(block: seq<Byte>, at: nat, bytes: seq<Byte>): (r: seq<Byte>)
    requires at + |bytes| <= |block|
    ensures |r| == |block|
  {
    block[..at] + bytes + block[at + |bytes|..]
  }

  /** The copy of tfs_write, and the offset and size updates after it. */
  function StoreBytes(s: State, h: int, bytes: seq<Byte>): State
    requires 0 <= h < |s.open| && 0 <= s.open[h].inumber < |s.inodes|
    requires 0 <= s.inodes[s.open[h].inumber].dataBlock < |s.blocks|
    requires s.open[h].offset + |bytes| <= |s.blocks[s.inodes[s.open[h].inumber].dataBlock]|
  {
    var i := s.open[h].inumber;
    var b := s.inodes[i].dataBlock;
    var end := s.open[h].offset + |bytes|;
    s.(blocks := s.blocks[b := Overwrite(s.blocks[b], s.open[h].offset, bytes)],
       open := s.open[h := OpenEntry(i, end)],
       inodes := if end > s.inodes[i].size then s.inodes[i := s.inodes[i].(size := end)] else s.inodes)
  }

  /** What a caller may write: one C object, through a closed or a live handle. */
  ghost predicate MayUse(s: State, live: set<int>, h: int) {
    IsOpen(s, h) ==> h in live
  }

  /** Gives an empty file its block; -1 when there is none left. */
  function BlockForWrite(s: State, i: int): (r: (State, int))
    requires Shaped(s) && BlocksOk(s) && IsFile(s, i)
    ensures r.1 == -1 ==> r.0 == s
    ensures r.1 != -1 ==>
              && |r.0.inodes| == |s.inodes| && 0 <= r.0.inodes[i].dataBlock < |s.blocks|
              && r.0.blocks == s.blocks && r.0.open == s.open && r.0.params == s.params
  {
    if s.inodes[i].size == 0 then
      var (s1, b) := DataBlockAlloc(s);
      if b == -1 then (s, -1) else (s1.(inodes := s1.inodes[i := s1.inodes[i].(dataBlock := b)]), 0)
    else
      assert HasBlock(s, i);
      (s, 0)
  }

  function TfsWrite(s: State, ghost live: set<int>, h: int, buffer: seq<Byte>): (State, int)
    requires Inv(s, live) && MayUse(s, live, h) && |buffer| <= PTRDIFF_MAX
  {
    if !IsOpen(s, h) then (s, -1)
    else
      var i := s.open[h].inumber;
      WriteNeverWraps(s, s.open[h].offset, |buffer|);
      var n := WriteLength(s, s.open[h].offset, |buffer|);
      if n == 0 then (s, 0)
      else
        var (s1, ok) := BlockForWrite(s, i);
        if ok == -1 then (s, -1) else (StoreBytes(s1, h, buffer[..n]), n as int)
  }

  /** The new state, the return value, and the bytes put in the caller's buffer. */
  function TfsRead(s: State, ghost live: set<int>, h: int, len: nat): (State, int, seq<Byte>)
    requires Inv(s, live) && MayUse(s, live, h)
  {
    if !IsOpen(s, h) then (s, -1, [])
    else
      var i := s.open[h].inumber;
      var offset := s.open[h].offset;
      var rest := SizeSub(s.inodes[i].size, offset);
      var n := if rest > len then len else rest;
      assert offset + n <= s.inodes[i].size;
      if n == 0 then (s, 0, [])
      else
        assert HasBlock(s, i);
        (s.(open := s.open[h := OpenEntry(i, offset + n)]), n,
         s.blocks[s.inodes[i].dataBlock][offset..offset + n])
  }

  function TfsUnlink(s: State, path: CharPtr): (State, int)
    requires Owned(s)
  {
    if !ValidPathname(path) then (s, -1)
    else
      var name := BaseName(path);
      var i := FindInDir(s, name);
      if i == -1 then (s, -1)
      else
        FoundSlot(s, name);
        assert HasBlock(s, i) || s.inodes[i].size == 0;
        ClearDirEntry(InodeDelete(s, i), name)
  }

  // ---------- Directory searches under the invariant ----------

  /** A stored name of 1 to 39 characters is found by exactly the equal strings. */
  lemma StoredNameIsFound(field: NameField, name: CString, probe: CString)
    requires 1 <= |name| <= MAX_FILE_NAME - 1
    ensures StringIn(StoredName(field, name)) == name && NUL in StoredName(field, name)
    ensures StrNCmpEqual(StoredName(field, name), probe, MAX_FILE_NAME) <==> probe == name
  {
    var d := StoredName(field, name);
    assert d[MAX_FILE_NAME - 1] == NUL;
    assert d[..|name|] == name;
    StrLenIs(d, |name|);
    StrNCmpDecidesEquality(d, probe);
  }

  /** find_in_dir finds the one used slot of that name; no slot has a longer name. */
  lemma FoundSlot(s: State, name: CString)
    requires Shaped(s) && DirOk(s)
    ensures FindSlot(s.dir, name) != -1 ==>
              var k := FindSlot(s.dir, name);
              Used(s, k) && NameAt(s, k) == name && 0 < |name| < MAX_FILE_NAME && IsFile(s, s.dir[k].inumber)
    ensures FindSlot(s.dir, name) == -1 ==> forall k | Used(s, k) :: NameAt(s, k) != name
    ensures forall k | Used(s, k) && NameAt(s, k) == name :: FindSlot(s.dir, name) == k
  {
    forall k | Used(s, k)
      ensures StrNCmpEqual(s.dir[k].name, name, MAX_FILE_NAME) <==> NameAt(s, k) == name
      ensures |NameAt(s, k)| < MAX_FILE_NAME
    {
      StrNCmpDecidesEquality(s.dir[k].name, name);
      TerminatorIndex(s.dir[k].name);
    }
    var k := FindSlot(s.dir, name);
    assert k != -1 ==> Used(s, k);
  }

  /**
   clear_dir_entry compares names alone, so it clears the slot find_in_dir found exactly
   if no free slot before it still holds the same name.
   */
  lemma ClearedSlotIsFoundSlot(dir: seq<DirEntry>, name: CString)
    requires FindSlot(dir, name) != -1
    requires forall k | 0 <= k < |dir| :: Comparable(dir[k].name, name)
    requires forall k | 0 <= k < |dir| && dir[k].inumber != -1 :: NUL in dir[k].name
    ensures ClearSlot(dir, name) == FindSlot(dir, name)
       <==> forall k | 0 <= k < FindSlot(dir, name) && dir[k].inumber == -1 :: StringIn(dir[k].name) != name
  {
    var f := FindSlot(dir, name);
    forall k | 0 <= k < |dir|
      ensures StrCmpEqual(dir[k].name, name) <==> StringIn(dir[k].name) == name
      ensures dir[k].inumber != -1 ==>
                (StrNCmpEqual(dir[k].name, name, MAX_FILE_NAME) <==> StringIn(dir[k].name) == name)
    {
      StrCmpDecidesEquality(dir[k].name, name);
      if dir[k].inumber != -1 {
        StrNCmpDecidesEquality(dir[k].name, name);
      }
    }
    var c := ClearSlot(dir, name);
    assert StringIn(dir[f].name) == name;
    assert c != -1 && c <= f;
  }

  /** Under the invariant clear_dir_entry stops at the slot find_in_dir found. */
  lemma SameSlot(s: State, name: CString)
    requires Shaped(s) && DirOk(s) && FindSlot(s.dir, name) != -1
    ensures |name| < MAX_FILE_NAME && ClearSlot(s.dir, name) == FindSlot(s.dir, name)
  {
    FoundSlot(s, name);
    var f := FindSlot(s.dir, name);
    forall k | 0 <= k < |s.dir|
      ensures s.dir[k].inumber != -1 ==> NUL in s.dir[k].name
      ensures Comparable(s.dir[k].name, name)
      ensures k < f && s.dir[k].inumber == -1 ==> NameAt(s, k) != name
    {
      assert s.dir[k].inumber != -1 ==> Used(s, k);
      assert k < f && s.dir[k].inumber == -1 ==> NameAt(s, k) == [];
    }
    ClearedSlotIsFoundSlot(s.dir, name);
  }
}
