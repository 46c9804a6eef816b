/** What follows from the specification for whole sequences of calls. */
module FsLaws {
  import opened CStrings
  import opened Finite
  import opened FsSpec

  // ---------- Consistency is kept by every call ----------

  /** Replacing one content changes the number of non-empty files by that one file. */
  lemma NonEmptyUpdate(files: map<CString, seq<Byte>>, n: CString, content: seq<Byte>)
    ensures NonEmpty(files[n := content]) == if content == [] then NonEmpty(files) - {n} else NonEmpty(files) + {n}
    ensures content == [] ==> |NonEmpty(files[n := content])| <= |NonEmpty(files)|
    ensures |NonEmpty(files[n := content])| <= |NonEmpty(files)| + if n in files && files[n] != [] then 0 else 1
  {
    var after := NonEmpty(files[n := content]);
    assert after == if content == [] then NonEmpty(files) - {n} else NonEmpty(files) + {n};
    if content == [] {
      SubsetSize(after, NonEmpty(files));
    }
  }

  lemma FilesSizes(files: map<CString, seq<Byte>>, n: CString, content: seq<Byte>)
    ensures n in files ==> |files[n := content]| == |files|
    ensures n !in files ==> |files[n := content]| == |files| + 1
    ensures n in files ==> |files - {n}| == |files| - 1
  {
    assert files[n := content].Keys == files.Keys + {n};
    assert (files - {n}).Keys == files.Keys - {n};
  }

  lemma NewHandleConsistent(p: Params, a: Fs, name: CString, offset: nat)
    requires Consistent(p, a) && name in a.files && offset <= |a.files[name]|
    ensures Consistent(p, NewHandle(p, a, name, offset).0)
  {
  }

  lemma TruncatedConsistent(p: Params, a: Fs, n: CString)
    requires Consistent(p, a) && n in a.files
    ensures Consistent(p, Fs(a.files[n := []], CutHandles(a.handles, n, 0)))
  {
    NonEmptyUpdate(a.files, n, []);
    FilesSizes(a.files, n, []);
    var a1 := Fs(a.files[n := []], CutHandles(a.handles, n, 0));
    assert forall h | IsLive(a1, h) :: IsLive(a, h);
  }

  lemma CreatedConsistent(p: Params, a: Fs, n: CString)
    requires Consistent(p, a) && n !in a.files && CanCreate(p, a, n) && 0 < |n|
    ensures Consistent(p, a.(files := a.files[n := []]))
  {
    NonEmptyUpdate(a.files, n, []);
    FilesSizes(a.files, n, []);
    var a1 := a.(files := a.files[n := []]);
    assert forall h | IsLive(a1, h) :: IsLive(a, h);
  }

  lemma OpenConsistent(p: Params, a: Fs, path: CharPtr, mode: OpenMode)
    requires Consistent(p, a)
    ensures Consistent(p, Open(p, a, path, mode).0)
  {
    if ValidPathname(path) {
      var n := BaseName(path);
      if n in a.files {
        if mode.trunc {
          TruncatedConsistent(p, a, n);
        }
        var a1 := if mode.trunc then Fs(a.files[n := []], CutHandles(a.handles, n, 0)) else a;
        NewHandleConsistent(p, a1, n, if mode.append then |a1.files[n]| else 0);
      } else if mode.creat && CanCreate(p, a, n) {
        CreatedConsistent(p, a, n);
        NewHandleConsistent(p, a.(files := a.files[n := []]), n, 0);
      }
    }
  }

  lemma CloseConsistent(p: Params, a: Fs, h: int)
    requires Consistent(p, a)
    ensures Consistent(p, Close(a, h).0)
  {
    var a1 := Close(a, h).0;
    assert forall g | IsLive(a1, g) :: IsLive(a, g);
  }

  lemma WriteConsistent(p: Params, a: Fs, h: int, buffer: seq<Byte>)
    requires Consistent(p, a) && (h in a.handles ==> IsLive(a, h))
    ensures Consistent(p, Write(p, a, h, buffer).0)
  {
    hide NonEmpty;
    var (a1, r) := Write(p, a, h, buffer);
    if r > 0 {
      var Live(n, at) := a.handles[h];
      NonEmptyUpdate(a.files, n, a1.files[n]);
      FilesSizes(a.files, n, a1.files[n]);
      assert forall g | IsLive(a1, g) :: IsLive(a, g);
    }
  }

  lemma ReadConsistent(p: Params, a: Fs, h: int, len: nat)
    requires Consistent(p, a) && (h in a.handles ==> IsLive(a, h))
    ensures Consistent(p, Read(p, a, h, len).0)
  {
    var a1 := Read(p, a, h, len).0;
    assert forall g | IsLive(a1, g) :: IsLive(a, g);
  }

  lemma UnlinkConsistent(p: Params, a: Fs, path: CharPtr)
    requires Consistent(p, a)
    ensures Consistent(p, Unlink(a, path).0)
  {
    var (a1, r) := Unlink(a, path);
    if r == 0 {
      var n := BaseName(path);
      FilesSizes(a.files, n, []);
      assert NonEmpty(a1.files) == NonEmpty(a.files) - {n};
      SubsetSize(NonEmpty(a1.files), NonEmpty(a.files));
      assert forall g | IsLive(a1, g) :: IsLive(a, g);
    }
  }

  // ---------- Exactly when calls fail ----------

  /** A write through a live handle fails exactly if it needs a first block and none is left. */
  lemma WriteFailsExactly(p: Params, a: Fs, h: int, buffer: seq<Byte>)
    requires Consistent(p, a) && IsLive(a, h)
    ensures Write(p, a, h, buffer).1 == -1
       <==> a.files[a.handles[h].name] == [] && buffer != [] && |NonEmpty(a.files)| + 1 == p.maxBlocks && p.blockSize > 0
    ensures Write(p, a, h, buffer).1 != -1 ==>
              Write(p, a, h, buffer).1 == Min(|buffer|, p.blockSize - a.handles[h].offset)
  {
  }

  /** With a block per inode no write through a live handle ever fails. */
  lemma EnoughBlocksNeverFail(p: Params, a: Fs, h: int, buffer: seq<Byte>)
    requires Consistent(p, a) && IsLive(a, h) && p.maxBlocks >= p.maxInodes
    ensures Write(p, a, h, buffer).1 == Min(|buffer|, p.blockSize - a.handles[h].offset)
  {
    var n := a.handles[h].name;
    if a.files[n] == [] {
      SubsetSize(NonEmpty(a.files), a.files.Keys - {n});
    }
  }

  /** Exactly when a file can be created and opened. */
  lemma CreateFailsExactly(p: Params, a: Fs, path: CharPtr)
    requires Consistent(p, a) && ValidPathname(path) && BaseName(path) !in a.files
    ensures Open(p, a, path, OpenMode(true, false, false)).1 == -1
       <==> |a.files| + 1 == p.maxInodes || |a.files| == p.MaxDirEntries() || |BaseName(path)| >= MAX_FILE_NAME
            || |a.handles| == p.maxOpenFiles
  {
    HandlesFullExactly(p, a);
    HandlesFullExactly(p, a.(files := a.files[BaseName(path) := []]));
  }

  lemma HandlesFullExactly(p: Params, a: Fs)
    requires forall h | h in a.handles :: 0 <= h < p.maxOpenFiles
    ensures FreeHandle(p, a) == -1 <==> |a.handles| == p.maxOpenFiles
  {
    RangeSize(p.maxOpenFiles);
    SubsetSize(a.handles.Keys, Range(p.maxOpenFiles));
    if FreeHandle(p, a) == -1 {
      assert a.handles.Keys == Range(p.maxOpenFiles);
    } else {
      assert FreeHandle(p, a) in Range(p.maxOpenFiles) && FreeHandle(p, a) !in a.handles.Keys;
    }
  }

  // ---------- Round trips ----------

  lemma OpensNew(p: Params, a: Fs, path: CharPtr)
    requires ValidPathname(path) && BaseName(path) !in a.files
    requires Open(p, a, path, OpenMode(true, false, false)).1 != -1
    ensures var (a1, h) := Open(p, a, path, OpenMode(true, false, false));
            h !in a.handles
            && a1 == Fs(a.files[BaseName(path) := []], a.handles[h := Live(BaseName(path), 0)])
  {
  }

  lemma NoHandlesToDrop(p: Params, a: Fs, n: CString)
    requires Consistent(p, a) && n !in a.files
    ensures DropHandles(a.handles, n) == a.handles
  {
    forall g | g in a.handles
      ensures DropHandles(a.handles, n)[g] == a.handles[g]
    {
      assert IsLive(a, g) ==> a.handles[g].name in a.files;
    }
    assert DropHandles(a.handles, n).Keys == a.handles.Keys;
  }

  /** Creating a file, closing it and unlinking it gives back everything. */
  lemma CreateCloseUnlinkRestores(p: Params, a: Fs, path: CharPtr)
    requires Consistent(p, a) && ValidPathname(path) && BaseName(path) !in a.files
    requires Open(p, a, path, OpenMode(true, false, false)).1 != -1
    ensures var (a1, h) := Open(p, a, path, OpenMode(true, false, false));
            var (a2, closed) := Close(a1, h);
            Unlink(a2, path) == (a, 0) && closed == 0
  {
    hide Consistent, DropHandles, Open;
    OpensNew(p, a, path);
    NoHandlesToDrop(p, a, BaseName(path));
    var (a1, h) := Open(p, a, path, OpenMode(true, false, false));
    var a2 := Close(a1, h).0;
    assert a2.handles == a.handles;
    assert a2.files - {BaseName(path)} == a.files;
  }

  ghost function Flatten(chunks: seq<seq<Byte>>): seq<Byte> {
    if chunks == [] then [] else chunks[0] + Flatten(chunks[1..])
  }

  function Prefix(s: seq<Byte>, n: nat): seq<Byte> {
    s[..Min(|s|, n)]
  }

  /** Writes the chunks one after the other through handle `h`. */
  ghost function WriteAll(p: Params, a: Fs, h: int, chunks: seq<seq<Byte>>): Fs
    requires Consistent(p, a) && IsLive(a, h)
    decreases |chunks|
  {
    if chunks == [] then a
    else
      WriteConsistent(p, a, h, chunks[0]);
      WriteAll(p, Write(p, a, h, chunks[0]).0, h, chunks[1..])
  }

  lemma AppendOne(p: Params, a: Fs, h: int, chunk: seq<Byte>)
    requires Consistent(p, a) && IsLive(a, h)
    requires a.handles[h].offset == |a.files[a.handles[h].name]|
    requires a.files[a.handles[h].name] == [] ==> BlockLeft(p, a)
    ensures var n := a.handles[h].name;
            var content := Prefix(a.files[n] + chunk, p.blockSize);
            Write(p, a, h, chunk).0 == Fs(a.files[n := content], a.handles[h := Live(n, |content|)])
  {
    var n := a.handles[h].name;
    var k := Min(|chunk|, p.blockSize - |a.files[n]|);
    assert Prefix(a.files[n] + chunk, p.blockSize) == a.files[n] + chunk[..k];
    if k == 0 {
      assert a.files[n] + chunk[..0] == a.files[n] && a.files[n := a.files[n]] == a.files;
    } else {
      assert Splice(a.files[n], |a.files[n]|, chunk[..k]) == a.files[n] + chunk[..k];
    }
  }

  /**
   However the data is cut into chunks, writing at the end of a file appends the
   concatenation, as far as it fits in the file's block; nothing else changes.
   */
  lemma {:induction false} WriteAllAppends(p: Params, a: Fs, h: int, chunks: seq<seq<Byte>>)
    requires Consistent(p, a) && IsLive(a, h)
    requires a.handles[h].offset == |a.files[a.handles[h].name]|
    requires a.files[a.handles[h].name] == [] ==> BlockLeft(p, a)
    ensures var n := a.handles[h].name;
            var content := Prefix(a.files[n] + Flatten(chunks), p.blockSize);
            WriteAll(p, a, h, chunks) == Fs(a.files[n := content], a.handles[h := Live(n, |content|)])
    decreases |chunks|
  {
    var n := a.handles[h].name;
    if chunks == [] {
      assert Prefix(a.files[n] + [], p.blockSize) == a.files[n];
      assert a.files[n := a.files[n]] == a.files;
      assert a.handles[h := a.handles[h]] == a.handles;
    } else {
      var a1 := Write(p, a, h, chunks[0]).0;
      AppendOne(p, a, h, chunks[0]);
      WriteConsistent(p, a, h, chunks[0]);
      if a1.files[n] == [] {
        assert a1.files == a.files;
      }
      WriteAllAppends(p, a1, h, chunks[1..]);
      PrefixAgain(a.files[n], chunks[0], Flatten(chunks[1..]), p.blockSize);
      assert a1.files[n := Prefix(a.files[n] + Flatten(chunks), p.blockSize)]
          == a.files[n := Prefix(a.files[n] + Flatten(chunks), p.blockSize)];
    }
  }

  lemma PrefixAgain(s: seq<Byte>, t: seq<Byte>, u: seq<Byte>, n: nat)
    ensures Prefix(Prefix(s + t, n) + u, n) == Prefix(s + (t + u), n)
  {
    assert s + (t + u) == (s + t) + u;
  }

  /** Reads through `h`, asking for `want(position)` bytes each time, until a read returns 0. */
  ghost function ReadToEnd(p: Params, a: Fs, h: int, want: nat -> nat): seq<Byte>
    requires Consistent(p, a) && IsLive(a, h) && forall k :: want(k) > 0
    decreases |a.files[a.handles[h].name]| - a.handles[h].offset
  {
    var (a1, r, bytes) := Read(p, a, h, want(a.handles[h].offset));
    if r <= 0 then []
    else
      ReadConsistent(p, a, h, want(a.handles[h].offset));
      bytes + ReadToEnd(p, a1, h, want)
  }

  /** However large the reads, they deliver the rest of the file, and then a 0. */
  lemma {:induction false} ReadToEndReads(p: Params, a: Fs, h: int, want: nat -> nat)
    requires Consistent(p, a) && IsLive(a, h) && forall k :: want(k) > 0
    ensures ReadToEnd(p, a, h, want) == a.files[a.handles[h].name][a.handles[h].offset..]
    decreases |a.files[a.handles[h].name]| - a.handles[h].offset
  {
    var (a1, r, bytes) := Read(p, a, h, want(a.handles[h].offset));
    if r > 0 {
      ReadConsistent(p, a, h, want(a.handles[h].offset));
      ReadToEndReads(p, a1, h, want);
    }
  }

  /** Written in any chunks and read back in any portions, the data is the same, up to the block size. */
  lemma WriteReadRoundTrip(p: Params, a: Fs, w: int, r: int, chunks: seq<seq<Byte>>, want: nat -> nat)
    requires Consistent(p, a) && IsLive(a, w) && IsLive(a, r) && w != r
    requires a.handles[w].name == a.handles[r].name && a.files[a.handles[w].name] == []
    requires BlockLeft(p, a) && forall k :: want(k) > 0
    ensures var a1 := WriteAll(p, a, w, chunks);
            && Consistent(p, a1) && IsLive(a1, r)
            && ReadToEnd(p, a1, r, want) == Prefix(Flatten(chunks), p.blockSize)
  {
    WriteAllConsistent(p, a, w, chunks);
    WriteAllAppends(p, a, w, chunks);
    assert [] + Flatten(chunks) == Flatten(chunks);
    ReadToEndReads(p, WriteAll(p, a, w, chunks), r, want);
  }

  lemma {:induction false} WriteAllConsistent(p: Params, a: Fs, h: int, chunks: seq<seq<Byte>>)
    requires Consistent(p, a) && IsLive(a, h)
    ensures Consistent(p, WriteAll(p, a, h, chunks))
    decreases |chunks|
  {
    if chunks != [] {
      WriteConsistent(p, a, h, chunks[0]);
      WriteAllConsistent(p, Write(p, a, h, chunks[0]).0, h, chunks[1..]);
    }
  }

  // ---------- What each call does, case by case ----------

  /** The lowest free handle now stands in file `n`, or there was none and nothing changed. */
  ghost predicate HandleGiven(p: Params, before: map<int, Handle>, after: map<int, Handle>, h: int, n: CString, offset: nat) {
    if h == -1 then after == before && forall g | 0 <= g < p.maxOpenFiles :: g in before
    else
      && 0 <= h < p.maxOpenFiles && h !in before && (forall g | 0 <= g < h :: g in before)
      && after == before[h := Live(n, offset)]
  }

  /** A path that is no name under the root is refused by every call that takes one. */
  lemma BadPathsRefused(p: Params, a: Fs, path: CharPtr, mode: OpenMode)
    requires path.Null? || |path.chars| < 2 || path.chars[0] != 47
    ensures Open(p, a, path, mode) == (a, -1) && Unlink(a, path) == (a, -1)
  {
  }

  /** A missing file is refused without TFS_O_CREAT, whatever the other flags; with it, exactly where there is no room. */
  lemma OpenMissing(p: Params, a: Fs, path: CharPtr, mode: OpenMode)
    requires path.Str? && |path.chars| >= 2 && path.chars[0] == 47 && path.chars[1..] !in a.files
    ensures var (b, r), n := Open(p, a, path, mode), path.chars[1..];
            if mode.creat && |a.files| + 1 < p.maxInodes && |a.files| < p.blockSize / 44 && |n| < 40
            then b.files == a.files[n := []] && HandleGiven(p, a.handles, b.handles, r, n, 0)
            else r == -1 && b == a
  {
  }

  /**
   An existing file is opened whatever TFS_O_CREAT says; TFS_O_TRUNC empties it, which
   takes it from the handles behind its start and from no others, and TFS_O_APPEND puts
   the new handle at what is then its end.
   */
  lemma OpenThere(p: Params, a: Fs, path: CharPtr, mode: OpenMode)
    requires path.Str? && |path.chars| >= 2 && path.chars[0] == 47 && path.chars[1..] in a.files
    ensures var (b, r), n := Open(p, a, path, mode), path.chars[1..];
            && b.files == (if mode.trunc then a.files[n := []] else a.files)
            && HandleGiven(p, if mode.trunc then CutHandles(a.handles, n, 0) else a.handles, b.handles, r, n,
                           if mode.append && !mode.trunc then |a.files[n]| else 0)
            && forall h | h in a.handles ::
                 h in b.handles
                 && b.handles[h] == if mode.trunc && a.handles[h].Live? && a.handles[h].name == n && a.handles[h].offset > 0
                                    then Stale else a.handles[h]
  {
  }

  /** Closing gives an open handle back and fails for every other number, so it fails the second time. */
  lemma CloseMeans(a: Fs, h: int)
    ensures var (b, r) := Close(a, h);
            && (h in a.handles ==> r == 0 && b.files == a.files && b.handles == a.handles - {h} && Close(b, h) == (b, -1))
            && (h !in a.handles ==> r == -1 && b == a)
  {
  }

  /** From `a` to `b` the bytes that fit replaced those at the handle's position, and the handle moved over them. */
  ghost predicate Stores(p: Params, a: Fs, b: Fs, h: int, buffer: seq<Byte>, r: int) {
    && IsLive(a, h) && a.handles[h].name in a.files && a.handles[h].offset <= |a.files[a.handles[h].name]| <= p.blockSize
    && var Live(n, at) := a.handles[h];
       && r == Min(|buffer|, p.blockSize - at)
       && b.handles == a.handles[h := Live(n, at + r)]
       && b.files.Keys == a.files.Keys && (forall m | m in a.files && m != n :: b.files[m] == a.files[m])
       && |b.files[n]| == (if at + r > |a.files[n]| then at + r else |a.files[n]|)
       && (forall k | 0 <= k < |b.files[n]| ::
             b.files[n][k] == if at <= k < at + r then buffer[k - at] else a.files[n][k])
  }

  /** A write that does not fail stores what fits, keeps every other byte, and moves its handle alone. */
  lemma WriteMeans(p: Params, a: Fs, h: int, buffer: seq<Byte>)
    requires Consistent(p, a) && (h in a.handles ==> IsLive(a, h))
    ensures var (b, r) := Write(p, a, h, buffer);
            (h !in a.handles ==> r == -1 && b == a) && (r != -1 ==> Stores(p, a, b, h, buffer, r))
  {
  }

  /** From `a` to `b` the handle moved over `bytes`, which are what was there, up to the length asked for. */
  ghost predicate Delivers(a: Fs, b: Fs, h: int, len: nat, r: int, bytes: seq<Byte>) {
    && IsLive(a, h) && a.handles[h].name in a.files && a.handles[h].offset <= |a.files[a.handles[h].name]|
    && var Live(n, at) := a.handles[h];
       && r == Min(len, |a.files[n]| - at) && bytes == a.files[n][at..at + r]
       && b.files == a.files && b.handles == a.handles[h := Live(n, at + r)]
  }

  /** A read delivers what is there, up to the length asked for, and moves its handle alone. */
  lemma ReadMeans(p: Params, a: Fs, h: int, len: nat)
    requires Consistent(p, a) && (h in a.handles ==> IsLive(a, h))
    ensures var (b, r, bytes) := Read(p, a, h, len);
            (h !in a.handles ==> r == -1 && b == a) && (h in a.handles ==> Delivers(a, b, h, len, r, bytes))
  {
  }

  /** Unlinking takes away the named file and makes its handles stale, and fails for a name that is not there. */
  lemma UnlinkMeans(a: Fs, path: CharPtr)
    requires path.Str? && |path.chars| >= 2 && path.chars[0] == 47
    ensures var (b, r), n := Unlink(a, path), path.chars[1..];
            if n !in a.files then r == -1 && b == a
            else
              && r == 0 && b.files == a.files - {n} && b.handles.Keys == a.handles.Keys
              && forall h | h in a.handles ::
                   b.handles[h] == if a.handles[h].Live? && a.handles[h].name == n then Stale else a.handles[h]
  {
  }
}
