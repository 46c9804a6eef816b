/**
 How the single table changes of opening, closing, truncating and creating keep the
 ownership invariant, and what they do to the file system the tables stand for.
 */
module FsSteps {
  import opened CStrings
  import opened Finite
  import opened FsSpec
  import opened FsState
  import opened FsAbstraction

  // ---------- What unrelated changes leave alone ----------

  lemma DirFrame(s: State, t: State)
    requires Shaped(s) && Shaped(t) && DirOk(s)
    requires t.dir == s.dir && t.inodeTaken == s.inodeTaken
    ensures DirOk(t)
    ensures forall k {:trigger Used(t, k)} :: Used(t, k) <==> Used(s, k)
    ensures forall i {:trigger IsFile(t, i)} :: IsFile(t, i) <==> IsFile(s, i)
  {
    forall k | Used(t, k)
      ensures IsFile(t, t.dir[k].inumber) && NUL in t.dir[k].name && NameAt(t, k) != []
    {
      assert Used(s, k);
    }
    forall k, l | 0 <= k < l && Used(t, l) && t.dir[k].inumber == -1
      ensures NameAt(t, k) == []
    {
      assert Used(s, l) && NameAt(s, k) == [];
    }
    forall k, l | Used(t, k) && Used(t, l) && (NameAt(t, k) == NameAt(t, l) || t.dir[k].inumber == t.dir[l].inumber)
      ensures k == l
    {
      assert Used(s, k) && Used(s, l);
    }
    forall i | IsFile(t, i)
      ensures Listed(t, i)
    {
      assert IsFile(s, i) && Listed(s, i);
      var k :| Used(s, k) && s.dir[k].inumber == i;
      assert Used(t, k);
    }
  }

  lemma BlocksFrame(s: State, t: State)
    requires Shaped(s) && Shaped(t) && BlocksOk(s)
    requires t.inodes == s.inodes && t.inodeTaken == s.inodeTaken && t.blockTaken == s.blockTaken
    ensures BlocksOk(t)
  {
    forall i | HasBlock(t, i)
      ensures 0 <= t.inodes[i].dataBlock < |t.blocks| && t.blockTaken[t.inodes[i].dataBlock] == TAKEN
    {
      assert HasBlock(s, i);
    }
    forall i, j | HasBlock(t, i) && HasBlock(t, j) && t.inodes[i].dataBlock == t.inodes[j].dataBlock
      ensures i == j
    {
      assert HasBlock(s, i) && HasBlock(s, j);
    }
    forall b | 0 <= b < |t.blocks| && t.blockTaken[b] == TAKEN
      ensures HasOwner(t, b)
    {
      assert HasOwner(s, b);
      var i :| HasBlock(s, i) && s.inodes[i].dataBlock == b;
      assert HasBlock(t, i);
    }
  }

  /** Names and contents that are unchanged make the files unchanged. */
  lemma FilesFrame(s: State, t: State)
    requires Owned(s) && Owned(t)
    requires t.dir == s.dir && t.inodeTaken == s.inodeTaken
    requires forall i | IsFile(s, i) :: Content(t, i) == Content(s, i)
    ensures Files(t) == Files(s)
    ensures forall i | IsFile(s, i) :: NameOf(t, i) == NameOf(s, i)
  {
    forall k | Used(t, k)
      ensures NameAt(t, k) in Files(s) && Files(s)[NameAt(t, k)] == Content(t, t.dir[k].inumber)
    {
      assert Used(s, k);
      FileAt(s, k);
    }
    forall n | n in Files(s)
      ensures exists k :: Used(t, k) && NameAt(t, k) == n
    {
      var k := SlotNamed(s, n);
      assert Used(t, k) && NameAt(t, k) == n;
    }
    FilesAre(t, Files(s));
    NamesFrame(s, t);
  }

  lemma NamesFrame(s: State, t: State)
    requires Owned(s) && Owned(t) && t.dir == s.dir && t.inodeTaken == s.inodeTaken
    ensures forall i | IsFile(s, i) :: IsFile(t, i) && NameOf(t, i) == NameOf(s, i)
  {
    forall i | IsFile(s, i)
      ensures IsFile(t, i) && NameOf(t, i) == NameOf(s, i)
    {
      var k := SlotOf(s, i);
      assert Used(t, k) && SlotOf(t, i) == k;
    }
  }

  lemma OpenTableFrame(s: State, t: State)
    requires Owned(s)
    requires t == s.(open := t.open, openTaken := t.openTaken)
    requires |t.open| == |s.open| && |t.openTaken| == |s.openTaken|
    ensures Owned(t) && Files(t) == Files(s)
    ensures forall i | IsFile(s, i) :: IsFile(t, i) && NameOf(t, i) == NameOf(s, i)
  {
    DirFrame(s, t);
    BlocksFrame(s, t);
    FilesFrame(s, t);
  }

  // ---------- Handles ----------

  lemma FreeHandleAgrees(s: State, live: set<int>)
    requires Inv(s, live)
    ensures FreeHandle(s.params, Abs(s, live)) == Least(s.openTaken, IsFree)
  {
    var a := Abs(s, live);
    assert forall g | 0 <= g < |s.openTaken| :: IsFree(s.openTaken[g]) <==> g !in a.handles;
    var f, l := FreeHandle(s.params, a), Least(s.openTaken, IsFree);
    assert f != -1 ==> IsFree(s.openTaken[f]);
  }

  lemma HandleAdded(s: State, live: set<int>, i: int, offset: nat, h: int)
    requires Inv(s, live) && IsFile(s, i) && offset <= s.inodes[i].size
    requires 0 <= h < |s.openTaken| && s.openTaken[h] == FREE
    ensures var t := s.(openTaken := s.openTaken[h := TAKEN], open := s.open[h := OpenEntry(i, offset)]);
            && Inv(t, live + {h}) && Files(t) == Files(s)
            && Handles(t, live + {h}) == Handles(s, live)[h := Live(NameOf(s, i), offset)]
  {
    hide DirOk, BlocksOk, InodesOk, Files, Handles, NameOf, Content;
    var t := s.(openTaken := s.openTaken[h := TAKEN], open := s.open[h := OpenEntry(i, offset)]);
    OpenTableFrame(s, t);
    HandleEntryAdded(s, t, live, i, offset, h);
  }

  lemma HandleEntryAdded(s: State, t: State, live: set<int>, i: int, offset: nat, h: int)
    requires Inv(s, live) && IsFile(s, i) && 0 <= h < |s.openTaken| && s.openTaken[h] == FREE
    requires t == s.(openTaken := s.openTaken[h := TAKEN], open := s.open[h := OpenEntry(i, offset)])
    requires Inv(t, live + {h})
    requires forall j | IsFile(s, j) :: IsFile(t, j) && NameOf(t, j) == NameOf(s, j)
    ensures Handles(t, live + {h}) == Handles(s, live)[h := Live(NameOf(s, i), offset)]
  {
    hide DirOk, BlocksOk, InodesOk, NameOf;
    assert TakenSet(t.openTaken) == TakenSet(s.openTaken) + {h};
  }

  /** add_to_open_file_table takes the lowest free handle, or fails when none is left. */
  lemma AddToOpenFileTableRefines(s: State, live: set<int>, i: int, offset: nat)
    requires Inv(s, live) && IsFile(s, i) && offset <= s.inodes[i].size
    ensures var (t, h) := AddToOpenFileTable(s, i, offset);
            var live' := if h == -1 then live else live + {h};
            Inv(t, live') && (Abs(t, live'), h) == NewHandle(s.params, Abs(s, live), NameOf(s, i), offset)
  {
    FreeHandleAgrees(s, live);
    var h := Least(s.openTaken, IsFree);
    if h != -1 {
      HandleAdded(s, live, i, offset, h);
    }
  }

  lemma CloseRefines(s: State, live: set<int>, h: int)
    requires Inv(s, live)
    ensures var (t, r) := TfsClose(s, h);
            Inv(t, live - {h}) && (Abs(t, live - {h}), r) == Close(Abs(s, live), h)
    ensures var (t, r) := TfsClose(s, h);
            if 0 <= h < |s.openTaken| && s.openTaken[h] == TAKEN then r == 0 && t == s.(openTaken := s.openTaken[h := FREE])
            else r == -1 && t == s
  {
    hide DirOk, BlocksOk, InodesOk, Files, Content;
    var (t, r) := TfsClose(s, h);
    if IsOpen(s, h) {
      OpenTableFrame(s, t);
      assert Abs(t, live - {h}).handles == Abs(s, live).handles - {h};
    } else {
      assert live - {h} == live;
    }
  }

  // ---------- Truncation ----------

  /** The live handles that stay usable when file `i` is cut to nothing. */
  ghost function LiveAfterTruncate(s: State, live: set<int>, i: int): set<int>
    requires Inv(s, live)
  {
    set h | h in live && (s.open[h].inumber == i ==> s.open[h].offset == 0)
  }

  lemma TruncateKeepsOwnership(s: State, i: int)
    requires Owned(s) && IsFile(s, i) && s.inodes[i].size > 0
    requires 0 <= s.inodes[i].dataBlock < |s.blockTaken|
    ensures Owned(Truncate(s, i))
  {
    var t := Truncate(s, i);
    assert HasBlock(s, i) && HasBlock(s, ROOT_DIR_INUM);
    DirFrame(s, t);
    forall j | HasBlock(t, j)
      ensures 0 <= t.inodes[j].dataBlock < |t.blocks| && t.blockTaken[t.inodes[j].dataBlock] == TAKEN
    {
      assert HasBlock(s, j);
    }
    forall j, k | HasBlock(t, j) && HasBlock(t, k) && t.inodes[j].dataBlock == t.inodes[k].dataBlock
      ensures j == k
    {
      assert HasBlock(s, j) && HasBlock(s, k);
    }
    forall b | 0 <= b < |t.blocks| && t.blockTaken[b] == TAKEN
      ensures HasOwner(t, b)
    {
      assert HasOwner(s, b);
      var j :| HasBlock(s, j) && s.inodes[j].dataBlock == b;
      assert HasBlock(t, j);
    }
  }

  lemma TruncateRefines(s: State, live: set<int>, i: int)
    requires Inv(s, live) && IsFile(s, i)
    requires s.inodes[i].size > 0 ==> 0 <= s.inodes[i].dataBlock < |s.blockTaken|
    ensures var t := Truncate(s, i);
            var live' := LiveAfterTruncate(s, live, i);
            var a := Abs(s, live);
            var n := NameOf(s, i);
            && Inv(t, live') && IsFile(t, i) && NameOf(t, i) == n && t.inodes[i].size == 0
            && Abs(t, live') == Fs(a.files[n := []], CutHandles(a.handles, n, 0))
  {
    var t := Truncate(s, i);
    var n := NameOf(s, i);
    FileAt(s, SlotOf(s, i));
    if s.inodes[i].size > 0 {
      TruncateKeepsOwnership(s, i);
      NamesFrame(s, t);
      TruncatedFiles(s, i);
    } else {
      assert Files(s)[n := []] == Files(s);
    }
    TruncatedHandles(s, live, i);
  }

  lemma TruncatedFiles(s: State, i: int)
    requires Owned(s) && IsFile(s, i) && s.inodes[i].size > 0
    requires 0 <= s.inodes[i].dataBlock < |s.blockTaken| && Owned(Truncate(s, i))
    ensures Files(Truncate(s, i)) == Files(s)[NameOf(s, i) := []]
  {
    var t, m := Truncate(s, i), Files(s)[NameOf(s, i) := []];
    forall k | Used(t, k)
      ensures NameAt(t, k) in m && m[NameAt(t, k)] == Content(t, t.dir[k].inumber)
    {
      assert Used(s, k) && Used(s, SlotOf(s, i));
      FileAt(s, k);
    }
    forall n | n in m
      ensures exists k :: Used(t, k) && NameAt(t, k) == n
    {
      FileAt(s, SlotOf(s, i));
      var k := SlotNamed(s, n);
      assert Used(t, k) && NameAt(t, k) == n;
    }
    FilesAre(t, m);
  }

  lemma TruncatedHandles(s: State, live: set<int>, i: int)
    requires Inv(s, live) && IsFile(s, i)
    requires s.inodes[i].size > 0 ==> 0 <= s.inodes[i].dataBlock < |s.blockTaken|
    requires Owned(Truncate(s, i))
    requires forall j | IsFile(s, j) :: IsFile(Truncate(s, i), j) && NameOf(Truncate(s, i), j) == NameOf(s, j)
    ensures var t := Truncate(s, i);
            var live' := LiveAfterTruncate(s, live, i);
            Inv(t, live') && Handles(t, live') == CutHandles(Handles(s, live), NameOf(s, i), 0)
  {
    hide DirOk, BlocksOk, InodesOk, Content;
    var t := Truncate(s, i);
    var live' := LiveAfterTruncate(s, live, i);
    forall h | h in TakenSet(s.openTaken)
      ensures Handles(t, live')[h] == CutHandles(Handles(s, live), NameOf(s, i), 0)[h]
    {
      if h in live {
        SameName(s, i, s.open[h].inumber);
      }
    }
  }

  lemma SameName(s: State, i: int, j: int)
    requires Owned(s) && IsFile(s, i) && IsFile(s, j)
    ensures NameOf(s, i) == NameOf(s, j) <==> i == j
  {
    assert Used(s, SlotOf(s, i)) && Used(s, SlotOf(s, j));
  }

  // ---------- Creation ----------

  /** The new file's inode is number `i`, named by slot `k`. */
  ghost function Created(s: State, i: int, k: int, name: CString): State
    requires 0 <= i < |s.inodeTaken| == |s.inodes| && 0 <= k < |s.dir|
  {
    s.(inodeTaken := s.inodeTaken[i := TAKEN],
       inodes := s.inodes[i := Inode(T_FILE, 0, -1)],
       dir := s.dir[k := DirEntry(StoredName(s.dir[k].name, name), i)])
  }

  ghost predicate MayCreate(s: State, i: int, k: int, name: CString) {
    && Owned(s)
    && 0 <= i < |s.inodeTaken| && s.inodeTaken[i] == FREE
    && 0 <= k < |s.dir| && s.dir[k].inumber == -1 && (forall j | 0 <= j < k :: Used(s, j))
    && 0 < |name| < MAX_FILE_NAME && name !in Files(s)
  }

  lemma CreatedSlots(s: State, i: int, k: int, name: CString)
    requires MayCreate(s, i, k, name)
    ensures var t := Created(s, i, k, name);
            && NameAt(t, k) == name && NUL in t.dir[k].name && i > 0 && IsFile(t, i)
            && (forall l {:trigger Used(t, l)} :: Used(t, l) <==> l == k || Used(s, l))
            && (forall j {:trigger IsFile(t, j)} :: IsFile(t, j) <==> j == i || IsFile(s, j))
            && (forall l | Used(s, l) :: l != k && NameAt(t, l) == NameAt(s, l) != name)
  {
    var t := Created(s, i, k, name);
    StoredNameIsFound(s.dir[k].name, name, name);
    forall l | Used(s, l)
      ensures l != k && NameAt(t, l) == NameAt(s, l) != name
    {
      FileAt(s, l);
    }
  }

  lemma CreatedDirOk(s: State, i: int, k: int, name: CString)
    requires MayCreate(s, i, k, name)
    ensures Shaped(Created(s, i, k, name)) && DirOk(Created(s, i, k, name))
  {
    var t := Created(s, i, k, name);
    CreatedSlots(s, i, k, name);
    forall l, m | 0 <= l < m && Used(t, m) && t.dir[l].inumber == -1
      ensures NameAt(t, l) == []
    {
      assert !Used(s, l) && k < l && Used(s, m);
      assert NameAt(s, l) == [];
    }
    forall j | IsFile(t, j)
      ensures Listed(t, j)
    {
      if j == i {
        assert Used(t, k);
      } else {
        assert Listed(s, j);
        var l :| Used(s, l) && s.dir[l].inumber == j;
        assert Used(t, l);
      }
    }
  }

  lemma CreatedBlocksOk(s: State, i: int, k: int, name: CString)
    requires MayCreate(s, i, k, name) && Shaped(Created(s, i, k, name))
    ensures InodesOk(Created(s, i, k, name)) && BlocksOk(Created(s, i, k, name))
  {
    var t := Created(s, i, k, name);
    CreatedSlots(s, i, k, name);
    assert forall j {:trigger HasBlock(t, j)} :: HasBlock(t, j) <==> HasBlock(s, j);
    assert forall j | HasBlock(s, j) :: t.inodes[j] == s.inodes[j];
    forall b | 0 <= b < |t.blocks| && t.blockTaken[b] == TAKEN
      ensures HasOwner(t, b)
    {
      assert HasOwner(s, b);
      var j :| HasBlock(s, j) && s.inodes[j].dataBlock == b;
      assert HasBlock(t, j);
    }
  }

  lemma CreatedNames(s: State, i: int, k: int, name: CString)
    requires MayCreate(s, i, k, name)
    ensures var t := Created(s, i, k, name);
            && Owned(t) && IsFile(t, i) && NameOf(t, i) == name && Used(t, k)
            && forall j | IsFile(s, j) :: j != i && IsFile(t, j) && NameOf(t, j) == NameOf(s, j)
  {
    var t := Created(s, i, k, name);
    CreatedDirOk(s, i, k, name);
    CreatedBlocksOk(s, i, k, name);
    CreatedSlots(s, i, k, name);
    assert Used(t, k);
    FileAt(t, k);
    forall j | IsFile(s, j)
      ensures j != i && IsFile(t, j) && NameOf(t, j) == NameOf(s, j)
    {
      var l := SlotOf(s, j);
      assert Used(t, l);
      FileAt(t, l);
    }
  }

  lemma CreatedFileAt(s: State, i: int, k: int, name: CString, l: int)
    requires MayCreate(s, i, k, name) && Owned(Created(s, i, k, name)) && Used(Created(s, i, k, name), l)
    ensures var t, m := Created(s, i, k, name), Files(s)[name := []];
            NameAt(t, l) in m && m[NameAt(t, l)] == Content(t, t.dir[l].inumber)
  {
    var t := Created(s, i, k, name);
    CreatedSlots(s, i, k, name);
    if l != k {
      assert Used(s, l);
      FileAt(s, l);
      assert t.inodes[t.dir[l].inumber] == s.inodes[s.dir[l].inumber];
    }
  }

  lemma CreatedFiles(s: State, i: int, k: int, name: CString)
    requires MayCreate(s, i, k, name)
    ensures Owned(Created(s, i, k, name)) && Files(Created(s, i, k, name)) == Files(s)[name := []]
  {
    var t, m := Created(s, i, k, name), Files(s)[name := []];
    CreatedNames(s, i, k, name);
    CreatedSlots(s, i, k, name);
    forall l | Used(t, l)
      ensures NameAt(t, l) in m && m[NameAt(t, l)] == Content(t, t.dir[l].inumber)
    {
      CreatedFileAt(s, i, k, name, l);
    }
    forall n | n in m
      ensures exists l :: Used(t, l) && NameAt(t, l) == n
    {
      if n == name {
        assert Used(t, k);
      } else {
        var l := SlotNamed(s, n);
        assert Used(t, l) && NameAt(t, l) == n;
      }
    }
    FilesAre(t, m);
  }

  /** Fields of a free inode mean nothing. */
  lemma FreeInodeFrame(s: State, i: int, node: Inode)
    requires Owned(s) && 0 <= i < |s.inodes| && s.inodeTaken[i] == FREE
    ensures var t := s.(inodes := s.inodes[i := node]);
            && Owned(t) && Files(t) == Files(s)
            && forall j | IsFile(s, j) :: IsFile(t, j) && NameOf(t, j) == NameOf(s, j) && t.inodes[j] == s.inodes[j]
  {
    var t := s.(inodes := s.inodes[i := node]);
    DirFrame(s, t);
    assert forall j {:trigger HasBlock(t, j)} :: HasBlock(t, j) <==> HasBlock(s, j);
    assert forall j | HasBlock(s, j) :: t.inodes[j] == s.inodes[j];
    forall b | 0 <= b < |t.blocks| && t.blockTaken[b] == TAKEN
      ensures HasOwner(t, b)
    {
      assert HasOwner(s, b);
      var j :| HasBlock(s, j) && s.inodes[j].dataBlock == b;
      assert HasBlock(t, j);
    }
    FilesFrame(s, t);
  }
}
