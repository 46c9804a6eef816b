/**
 What the library promises, without its tables: a finite map from names to
 contents and a map from open handles to positions. Each call fails exactly when
 one of the capacities counted here is used up.
 */
module FsSpec {
  import opened CStrings

  const MAX_FILE_NAME: nat := 40
  // sizeof(dir_entry_t): a 40-character name and a 4-byte inumber
  const DIR_ENTRY_SIZE: nat := 44
  const INT_MAX: nat := 0x7fff_ffff
  // no C object is larger than this
  const PTRDIFF_MAX: nat := 0x7fff_ffff_ffff_ffff

  function Min(a: nat, b: nat): nat { if a <= b then a else b }

  datatype Params = Params(maxInodes: nat, maxBlocks: nat, maxOpenFiles: nat, blockSize: nat) {
    // What the table allocations and the `int` indices ask of the parameters.
    predicate Valid() {
      && 0 < blockSize <= PTRDIFF_MAX
      && maxBlocks * blockSize <= PTRDIFF_MAX
      && maxInodes <= INT_MAX && maxBlocks <= INT_MAX && maxOpenFiles <= INT_MAX
      && blockSize / DIR_ENTRY_SIZE <= INT_MAX
    }

    function MaxDirEntries(): nat {
      blockSize / DIR_ENTRY_SIZE
    }
  }

  datatype OpenMode = OpenMode(creat: bool, trunc: bool, append: bool)

  predicate ValidPathname(path: CharPtr) {
    path.Str? && |path.chars| > 1 && path.chars[0] == SLASH
  }

  function BaseName(path: CharPtr): CString
    requires ValidPathname(path)
  {
    path.chars[1..]
  }

  /**
   A live handle stands at a position in an existing file. A stale one is open, but its
   file was unlinked or cut below its position; what reads and writes through it do is
   not described here, even where the file grew past its position again.
   */
  datatype Handle = Live(name: CString, offset: nat) | Stale

  datatype Fs = Fs(files: map<CString, seq<Byte>>, handles: map<int, Handle>)

  ghost function NonEmpty(files: map<CString, seq<Byte>>): set<CString> {
    set n | n in files && files[n] != []
  }

  ghost predicate IsLive(a: Fs, h: int) {
    h in a.handles && a.handles[h].Live?
  }

  ghost predicate Consistent(p: Params, a: Fs) {
    && |a.files| + 1 <= p.maxInodes
    && |NonEmpty(a.files)| + 1 <= p.maxBlocks
    && |a.files| <= p.MaxDirEntries()
    && (forall n | n in a.files :: 0 < |n| < MAX_FILE_NAME && |a.files[n]| <= p.blockSize)
    && (forall h | h in a.handles :: 0 <= h < p.maxOpenFiles)
    && (forall h | IsLive(a, h) ::
          a.handles[h].name in a.files && a.handles[h].offset <= |a.files[a.handles[h].name]|)
  }

  /** The lowest handle not in use, or -1. */
  ghost function FreeHandle(p: Params, a: Fs): (h: int)
    ensures h == -1 ==> forall g | 0 <= g < p.maxOpenFiles :: g in a.handles
    ensures h != -1 ==> 0 <= h < p.maxOpenFiles && h !in a.handles && forall g | 0 <= g < h :: g in a.handles
  {
    FreeHandleFrom(p, a, 0)
  }

  ghost function FreeHandleFrom(p: Params, a: Fs, k: nat): (h: int)
    requires k <= p.maxOpenFiles && forall g | 0 <= g < k :: g in a.handles
    ensures h == -1 ==> forall g | 0 <= g < p.maxOpenFiles :: g in a.handles
    ensures h != -1 ==> 0 <= h < p.maxOpenFiles && h !in a.handles && forall g | 0 <= g < h :: g in a.handles
    decreases p.maxOpenFiles - k
  {
    if k == p.maxOpenFiles then -1 else if k !in a.handles then k else FreeHandleFrom(p, a, k + 1)
  }

  ghost function NewHandle(p: Params, a: Fs, name: CString, offset: nat): (Fs, int) {
    var h := FreeHandle(p, a);
    if h == -1 then (a, -1) else (a.(handles := a.handles[h := Live(name, offset)]), h)
  }

  /** The handles of file `name` beyond `size` become stale. */
  ghost function CutHandles(handles: map<int, Handle>, name: CString, size: nat): map<int, Handle> {
    map h | h in handles ::
      if handles[h].Live? && handles[h].name == name && handles[h].offset > size then Stale else handles[h]
  }

  /** Every handle of file `name` becomes stale. */
  ghost function DropHandles(handles: map<int, Handle>, name: CString): map<int, Handle> {
    map h | h in handles :: if handles[h].Live? && handles[h].name == name then Stale else handles[h]
  }

  /** A new file needs an inode, a directory slot and a storable name. */
  ghost predicate CanCreate(p: Params, a: Fs, name: CString) {
    |a.files| + 1 < p.maxInodes && |a.files| < p.MaxDirEntries() && |name| < MAX_FILE_NAME
  }

  ghost function OpenExisting(p: Params, a: Fs, name: CString, mode: OpenMode): (Fs, int)
    requires name in a.files
  {
    var a1 := if mode.trunc then Fs(a.files[name := []], CutHandles(a.handles, name, 0)) else a;
    NewHandle(p, a1, name, if mode.append then |a1.files[name]| else 0)
  }

  ghost function OpenNew(p: Params, a: Fs, name: CString): (Fs, int) {
    if CanCreate(p, a, name) then NewHandle(p, a.(files := a.files[name := []]), name, 0) else (a, -1)
  }

  ghost function Open(p: Params, a: Fs, path: CharPtr, mode: OpenMode): (Fs, int) {
    if !ValidPathname(path) then (a, -1)
    else if BaseName(path) in a.files then OpenExisting(p, a, BaseName(path), mode)
    else if mode.creat then OpenNew(p, a, BaseName(path))
    else (a, -1)
  }

  ghost function Close(a: Fs, h: int): (Fs, int) {
    if h in a.handles then (a.(handles := a.handles - {h}), 0) else (a, -1)
  }

  /** `content` with `bytes` put at position `at`, growing if they reach past its end. */
  function Splice(content: seq<Byte>, at: nat, bytes: seq<Byte>): seq<Byte>
    requires at <= |content|
  {
    content[..at] + bytes + if at + |bytes| < |content| then content[at + |bytes|..] else []
  }

  /** An empty file can get a block. */
  ghost predicate BlockLeft(p: Params, a: Fs) {
    |NonEmpty(a.files)| + 1 < p.maxBlocks
  }

  ghost function Write(p: Params, a: Fs, h: int, buffer: seq<Byte>): (Fs, int)
    requires Consistent(p, a) && (h in a.handles ==> IsLive(a, h))
  {
    if h !in a.handles then (a, -1)
    else
      assert IsLive(a, h);
      var Live(name, offset) := a.handles[h];
      var content := a.files[name];
      var n := Min(|buffer|, p.blockSize - offset);
      if n == 0 then (a, 0)
      else if content == [] && !BlockLeft(p, a) then (a, -1)
      else
        (Fs(a.files[name := Splice(content, offset, buffer[..n])], a.handles[h := Live(name, offset + n)]), n as int)
  }

  ghost function Read(p: Params, a: Fs, h: int, len: nat): (Fs, int, seq<Byte>)
    requires Consistent(p, a) && (h in a.handles ==> IsLive(a, h))
  {
    if h !in a.handles then (a, -1, [])
    else
      assert IsLive(a, h);
      var Live(name, offset) := a.handles[h];
      var n := Min(len, |a.files[name]| - offset);
      (a.(handles := a.handles[h := Live(name, offset + n)]), n as int, a.files[name][offset..offset + n])
  }

  ghost function Unlink(a: Fs, path: CharPtr): (Fs, int) {
    if !ValidPathname(path) || BaseName(path) !in a.files then (a, -1)
    else
      var name := BaseName(path);
      (Fs(a.files - {name}, DropHandles(a.handles, name)), 0)
  }
}
