/** The table changes of writing, reading and unlinking. */
module FsContents {
  import opened CStrings
  import opened FsSpec
  import opened FsState
  import opened FsAbstraction
  import opened FsSteps

  // ---------- Writing ----------

  /** Block `b` can hold the content of file `i`: it is the file's own, or a free one for an empty file. */
  ghost predicate Assignable(s: State, i: int, b: int) {
    && Owned(s) && IsFile(s, i) && 0 <= b < |s.blocks|
    && if s.inodes[i].size > 0 then s.inodes[i].dataBlock == b else s.blockTaken[b] == FREE
  }

  /** The tables after `bytes` went into block `b` of file `i` through handle `h`. */
  ghost function Written(s: State, h: int, b: int, bytes: seq<Byte>): State
    requires 0 <= h < |s.open| && Assignable(s, s.open[h].inumber, b)
    requires s.open[h].offset + |bytes| <= s.params.blockSize
  {
    var i, end := s.open[h].inumber, s.open[h].offset + |bytes|;
    s.(blockTaken := s.blockTaken[b := TAKEN],
       blocks := s.blocks[b := Overwrite(s.blocks[b], s.open[h].offset, bytes)],
       open := s.open[h := OpenEntry(i, end)],
       inodes := s.inodes[i := s.inodes[i].(dataBlock := b, size := if end > s.inodes[i].size then end else s.inodes[i].size)])
  }

  ghost predicate MayWrite(s: State, live: set<int>, h: int, b: int, bytes: seq<Byte>) {
    && Inv(s, live) && h in live && bytes != []
    && Assignable(s, s.open[h].inumber, b)
    && s.open[h].offset + |bytes| <= s.params.blockSize
  }

  /** No other file has that block. */
  lemma BlockIsExclusive(s: State, i: int, b: int, j: int)
    requires Assignable(s, i, b) && HasBlock(s, j) && j != i
    ensures s.inodes[j].dataBlock != b
  {
    assert HasBlock(s, i) || s.inodes[i].size == 0;
  }

  lemma WrittenBlocksOk(s: State, live: set<int>, h: int, b: int, bytes: seq<Byte>)
    requires MayWrite(s, live, h, b, bytes)
    ensures Shaped(Written(s, h, b, bytes)) && BlocksOk(Written(s, h, b, bytes))
  {
    var t, i := Written(s, h, b, bytes), s.open[h].inumber;
    forall j | HasBlock(t, j)
      ensures j == i || (HasBlock(s, j) && t.inodes[j] == s.inodes[j] && s.inodes[j].dataBlock != b)
      ensures 0 <= t.inodes[j].dataBlock < |t.blocks| && t.blockTaken[t.inodes[j].dataBlock] == TAKEN
    {
      if j != i {
        assert HasBlock(s, j);
        BlockIsExclusive(s, i, b, j);
      }
    }
    forall c | 0 <= c < |t.blocks| && t.blockTaken[c] == TAKEN
      ensures HasOwner(t, c)
    {
      if c == b {
        assert HasBlock(t, i);
      } else {
        assert HasOwner(s, c);
        var j :| HasBlock(s, j) && s.inodes[j].dataBlock == c;
        assert HasBlock(t, j);
      }
    }
  }

  lemma WrittenOwned(s: State, live: set<int>, h: int, b: int, bytes: seq<Byte>)
    requires MayWrite(s, live, h, b, bytes)
    ensures var t := Written(s, h, b, bytes);
            && Owned(t)
            && forall j | IsFile(s, j) :: IsFile(t, j) && NameOf(t, j) == NameOf(s, j)
  {
    WrittenBlocksOk(s, live, h, b, bytes);
    DirFrame(s, Written(s, h, b, bytes));
    NamesFrame(s, Written(s, h, b, bytes));
  }

  /** The file's content is spliced; the content of every other file is untouched. */
  lemma WrittenContent(s: State, live: set<int>, h: int, b: int, bytes: seq<Byte>, j: int)
    requires MayWrite(s, live, h, b, bytes) && Owned(Written(s, h, b, bytes))
    requires IsFile(s, j) && IsFile(Written(s, h, b, bytes), j)
    requires s.open[h].offset <= |Content(s, s.open[h].inumber)|
    ensures var t := Written(s, h, b, bytes);
            Content(t, j) == if j == s.open[h].inumber then Splice(Content(s, j), s.open[h].offset, bytes) else Content(s, j)
  {
    var t, i, at := Written(s, h, b, bytes), s.open[h].inumber, s.open[h].offset;
    if j == i {
      assert HasBlock(t, i);
      assert Content(s, i) == s.blocks[b][..s.inodes[i].size];
      SpliceOfPrefix(s.blocks[b], s.inodes[i].size, at, bytes);
    } else if s.inodes[j].size > 0 {
      assert HasBlock(s, j) && HasBlock(t, j);
      BlockIsExclusive(s, i, b, j);
    }
  }

  lemma SpliceOfPrefix(block: seq<Byte>, size: nat, at: nat, bytes: seq<Byte>)
    requires at <= size <= |block| && at + |bytes| <= |block|
    ensures Splice(block[..size], at, bytes)
         == Overwrite(block, at, bytes)[..if at + |bytes| > size then at + |bytes| else size]
  {
  }

  lemma WrittenFileAt(s: State, live: set<int>, h: int, b: int, bytes: seq<Byte>, k: int)
    requires MayWrite(s, live, h, b, bytes) && Used(s, k) && Owned(Written(s, h, b, bytes))
    requires var n := NameOf(s, s.open[h].inumber); n in Files(s) && s.open[h].offset <= |Files(s)[n]|
    ensures var t, n := Written(s, h, b, bytes), NameOf(s, s.open[h].inumber);
            var m := Files(s)[n := Splice(Files(s)[n], s.open[h].offset, bytes)];
            && Used(t, k) && IsFile(t, t.dir[k].inumber)
            && NameAt(t, k) in m && m[NameAt(t, k)] == Content(t, t.dir[k].inumber)
  {
    var t, i, j := Written(s, h, b, bytes), s.open[h].inumber, s.dir[k].inumber;
    assert Used(t, k);
    LiveHandle(s, live, h);
    FileAt(s, k);
    SameName(s, i, j);
    WrittenContent(s, live, h, b, bytes, j);
  }

  lemma UsedIsFile(s: State)
    requires Owned(s)
    ensures forall k {:trigger Used(s, k)} | Used(s, k) :: IsFile(s, s.dir[k].inumber)
  {
  }

  lemma WrittenFiles(s: State, live: set<int>, h: int, b: int, bytes: seq<Byte>)
    requires MayWrite(s, live, h, b, bytes)
    ensures var t, n := Written(s, h, b, bytes), NameOf(s, s.open[h].inumber);
            && Owned(t) && n in Files(s) && s.open[h].offset <= |Files(s)[n]|
            && Files(t) == Files(s)[n := Splice(Files(s)[n], s.open[h].offset, bytes)]
  {
    hide DirOk, BlocksOk, InodesOk, Content;
    var t, n := Written(s, h, b, bytes), NameOf(s, s.open[h].inumber);
    WrittenOwned(s, live, h, b, bytes);
    LiveHandle(s, live, h);
    UsedIsFile(t);
    var m := Files(s)[n := Splice(Files(s)[n], s.open[h].offset, bytes)];
    forall k | Used(t, k)
      ensures NameAt(t, k) in m && m[NameAt(t, k)] == Content(t, t.dir[k].inumber)
    {
      assert Used(s, k);
      WrittenFileAt(s, live, h, b, bytes, k);
    }
    forall x | x in m
      ensures exists k :: Used(t, k) && NameAt(t, k) == x
    {
      var k := SlotNamed(s, x);
      assert Used(t, k) && NameAt(t, k) == x;
    }
    FilesAre(t, m);
  }

  lemma WrittenHandles(s: State, live: set<int>, h: int, b: int, bytes: seq<Byte>)
    requires MayWrite(s, live, h, b, bytes)
    ensures var t, at := Written(s, h, b, bytes), s.open[h].offset + |bytes|;
            && Inv(t, live)
            && Handles(t, live) == Handles(s, live)[h := Live(NameOf(s, s.open[h].inumber), at)]
  {
    WrittenOwned(s, live, h, b, bytes);
  }

  // ---------- Unlinking ----------

  /** The live handles that stay usable when file `i` goes away. */
  ghost function LiveAfterDelete(s: State, live: set<int>, i: int): set<int>
    requires Inv(s, live)
  {
    set h | h in live && s.open[h].inumber != i
  }

  /** The tables after inode `i`, named by slot `k`, is deleted. */
  ghost function Deleted(s: State, i: int, k: int): State
    requires Owned(s) && Used(s, k) && s.dir[k].inumber == i
  {
    assert HasBlock(s, i) || s.inodes[i].size == 0;
    s.(inodeTaken := s.inodeTaken[i := FREE],
       blockTaken := if s.inodes[i].size > 0 then s.blockTaken[s.inodes[i].dataBlock := FREE] else s.blockTaken,
       dir := s.dir[k := DirEntry(EmptyName(), -1)])
  }

  lemma EmptyNameIsEmpty()
    ensures StringIn(EmptyName()) == []
  {
    StrLenIs(EmptyName(), 0);
  }

  lemma DeletedSlots(s: State, i: int, k: int)
    requires Owned(s) && Used(s, k) && s.dir[k].inumber == i
    ensures var t := Deleted(s, i, k);
            && Shaped(t) && NameAt(t, k) == []
            && (forall l {:trigger Used(t, l)} :: Used(t, l) <==> l != k && Used(s, l))
            && (forall j {:trigger IsFile(t, j)} :: IsFile(t, j) <==> j != i && IsFile(s, j))
            && (forall l | Used(s, l) && l != k :: s.dir[l].inumber != i && NameAt(s, l) != NameAt(s, k))
  {
    EmptyNameIsEmpty();
    assert HasBlock(s, i) || s.inodes[i].size == 0;
  }

  lemma DeletedDirOk(s: State, i: int, k: int)
    requires Owned(s) && Used(s, k) && s.dir[k].inumber == i
    ensures Shaped(Deleted(s, i, k)) && DirOk(Deleted(s, i, k))
  {
    var t := Deleted(s, i, k);
    DeletedSlots(s, i, k);
    forall l, m | 0 <= l < m && Used(t, m) && t.dir[l].inumber == -1
      ensures NameAt(t, l) == []
    {
      assert Used(s, m) && (l != k ==> NameAt(s, l) == []);
    }
    forall j | IsFile(t, j)
      ensures Listed(t, j)
    {
      assert IsFile(s, j) && Listed(s, j);
      var l :| Used(s, l) && s.dir[l].inumber == j;
      assert Used(t, l);
    }
  }

  lemma DeletedBlocksOk(s: State, i: int, k: int)
    requires Owned(s) && Used(s, k) && s.dir[k].inumber == i && Shaped(Deleted(s, i, k))
    ensures InodesOk(Deleted(s, i, k)) && BlocksOk(Deleted(s, i, k))
  {
    var t := Deleted(s, i, k);
    assert HasBlock(s, i) || s.inodes[i].size == 0;
    assert HasBlock(s, ROOT_DIR_INUM);
    assert forall j {:trigger IsFile(t, j)} :: IsFile(t, j) <==> j != i && IsFile(s, j);
    forall j | HasBlock(t, j)
      ensures j != i && HasBlock(s, j)
      ensures 0 <= t.inodes[j].dataBlock < |t.blocks| && t.blockTaken[t.inodes[j].dataBlock] == TAKEN
    {
      assert HasBlock(s, j);
    }
    forall b | 0 <= b < |t.blocks| && t.blockTaken[b] == TAKEN
      ensures HasOwner(t, b)
    {
      assert HasOwner(s, b);
      var j :| HasBlock(s, j) && s.inodes[j].dataBlock == b;
      assert HasBlock(t, j);
    }
  }

  lemma DeletedOwned(s: State, i: int, k: int)
    requires Owned(s) && Used(s, k) && s.dir[k].inumber == i
    ensures var t := Deleted(s, i, k);
            && Owned(t)
            && forall j | IsFile(s, j) && j != i :: IsFile(t, j) && NameOf(t, j) == NameOf(s, j)
  {
    var t := Deleted(s, i, k);
    DeletedDirOk(s, i, k);
    DeletedBlocksOk(s, i, k);
    DeletedSlots(s, i, k);
    forall j | IsFile(s, j) && j != i
      ensures IsFile(t, j) && NameOf(t, j) == NameOf(s, j)
    {
      var l := SlotOf(s, j);
      assert Used(t, l);
    }
  }

  lemma DeletedFileAt(s: State, i: int, k: int, l: int)
    requires Owned(s) && Used(s, k) && s.dir[k].inumber == i && Owned(Deleted(s, i, k))
    requires Used(s, l) && l != k
    ensures var t, m := Deleted(s, i, k), Files(s) - {NameAt(s, k)};
            && Used(t, l) && IsFile(t, t.dir[l].inumber) && NameAt(t, l) == NameAt(s, l)
            && NameAt(t, l) in m && m[NameAt(t, l)] == Content(t, t.dir[l].inumber)
  {
    DeletedSlots(s, i, k);
    var t, j := Deleted(s, i, k), s.dir[l].inumber;
    assert Used(t, l);
    FileAt(s, l);
    assert Content(t, j) == Content(s, j);
  }

  lemma DeletedFiles(s: State, i: int, k: int)
    requires Owned(s) && Used(s, k) && s.dir[k].inumber == i
    ensures Owned(Deleted(s, i, k)) && Files(Deleted(s, i, k)) == Files(s) - {NameAt(s, k)}
  {
    var t := Deleted(s, i, k);
    DeletedOwned(s, i, k);
    DeletedSlots(s, i, k);
    var m := Files(s) - {NameAt(s, k)};
    forall l | Used(t, l)
      ensures NameAt(t, l) in m && m[NameAt(t, l)] == Content(t, t.dir[l].inumber)
    {
      DeletedFileAt(s, i, k, l);
    }
    forall n | n in m
      ensures exists l :: Used(t, l) && NameAt(t, l) == n
    {
      var l := SlotNamed(s, n);
      DeletedFileAt(s, i, k, l);
    }
    FilesAre(t, m);
  }

  /** Exactly the handles on other files survive. */
  lemma DeletedLive(s: State, live: set<int>, i: int, k: int)
    requires Inv(s, live) && Used(s, k) && s.dir[k].inumber == i
    ensures Inv(Deleted(s, i, k), LiveAfterDelete(s, live, i))
    ensures forall some | some <= live :: HandlesOk(Deleted(s, i, k), some) <==> some <= LiveAfterDelete(s, live, i)
  {
    DeletedOwned(s, i, k);
    DeletedSlots(s, i, k);
  }

  lemma DeletedHandles(s: State, live: set<int>, i: int, k: int)
    requires Inv(s, live) && Used(s, k) && s.dir[k].inumber == i
    ensures var t := Deleted(s, i, k);
            var live' := LiveAfterDelete(s, live, i);
            && Inv(t, live') && Handles(t, live') == DropHandles(Handles(s, live), NameAt(s, k))
  {
    var t := Deleted(s, i, k);
    var live' := LiveAfterDelete(s, live, i);
    DeletedLive(s, live, i, k);
    DeletedOwned(s, i, k);
    var a, b := Handles(t, live'), DropHandles(Handles(s, live), NameAt(s, k));
    assert a.Keys == b.Keys;
    forall h | h in TakenSet(s.openTaken)
      ensures a[h] == b[h]
    {
      DeletedHandle(s, live, i, k, h);
    }
  }

  lemma DeletedHandle(s: State, live: set<int>, i: int, k: int, h: int)
    requires Inv(s, live) && Used(s, k) && s.dir[k].inumber == i && h in TakenSet(s.openTaken)
    requires Inv(Deleted(s, i, k), LiveAfterDelete(s, live, i))
    requires forall j | IsFile(s, j) && j != i :: IsFile(Deleted(s, i, k), j) && NameOf(Deleted(s, i, k), j) == NameOf(s, j)
    ensures Handles(Deleted(s, i, k), LiveAfterDelete(s, live, i))[h]
         == DropHandles(Handles(s, live), NameAt(s, k))[h]
  {
    FileAt(s, k);
    if h in live {
      SameName(s, i, s.open[h].inumber);
    }
  }
}
