/** Destroying pages: spt_destroy_entry, mmap_unmap_and_flush, and the order in which a
    process that ends gives up its executable, its mappings and its pages. */
module PagingTeardown {
  import opened Basics
  import opened Paging
  import opened PagingInvariant
  import opened PagingSteps
  import opened PagingViews

  /** spt_destroy_entry: the frame or the swap slot is given back and the entry removed. */
  function Removed(s: Vm, k: Key): Vm
    requires Core(s) && k in s.spt
  {
    match s.spt[k].status
    case Memory(_) => Drop(s, k).(spt := s.spt - {k})
    case Swap(i) => SlotInRange(s, k); s.(swapMap := s.swapMap[i := false], spt := s.spt - {k})
    case Lazy => s.(spt := s.spt - {k})
  }

  lemma SlotInRange(s: Vm, k: Key)
    requires Core(s) && k in s.spt && s.spt[k].status.Swap?
    ensures s.spt[k].status.slot < |s.swapMap|
  {
  }

  lemma DropOne(spt: map<Key, Spte>, k: Key)
    ensures SameBut(spt, spt - {k}, k) && k !in spt - {k}
  {
  }

  lemma UnownedLeaves(s: Vm, spt': map<Key, Spte>, k: Key)
    requires OwnersOk(s.frames, s.spt) && DirectoryOk(s.pd, s.spt) && k in s.spt && !s.spt[k].status.Memory?
    requires SameBut(s.spt, spt', k) && k !in spt'
    ensures OwnersOk(s.frames, spt') && DirectoryOk(s.pd, spt')
  {
  }

  lemma RemovedKeepsCore(s: Vm, k: Key)
    requires Core(s) && k in s.spt
    ensures Core(Removed(s, k))
  {
    hide PoolOk, TableOk, OwnersOk, NonePinned, DirectoryOk, SwapOk, SameBut, Drop;
    var spt' := s.spt - {k};
    DropOne(s.spt, k);
    match s.spt[k].status {
      case Memory(_) =>
        SwapUnaffected(s.swapMap, s.spt, spt', k);
        LeaveKeepsCore(s, k, spt');
      case Swap(i) =>
        SwapLoses(s.swapMap, s.spt, spt', k, i);
        UnownedLeaves(s, spt', k);
      case Lazy =>
        SwapUnaffected(s.swapMap, s.spt, spt', k);
        UnownedLeaves(s, spt', k);
    }
  }

  lemma RemovedFiles(s: Vm, k: Key)
    requires Core(s) && k in s.spt
    ensures Removed(s, k).files == s.files && Removed(s, k).inodes == s.inodes && Removed(s, k).spt == s.spt - {k}
  {
    hide TableOk, OwnersOk, NonePinned, DirectoryOk, SwapOk, SwapSized, Without, NextNode, ClearPage, Filled;
    if s.spt[k].status.Memory? {
      ResidentFrame(s, k);
    }
  }

  /** Two states that agree on everything page j depends on. */
  ghost predicate SameFields(s: Vm, s': Vm, j: Key) {
    && j in s.spt && j in s'.spt && s'.spt[j] == s.spt[j]
    && (s.spt[j].status.Memory? ==>
          var p := s.spt[j].status.kpage; p < |s.mem| && p < |s'.mem| && s'.mem[p] == s.mem[p])
    && s'.swapDev == s.swapDev
    && (FromFile(s.spt[j]) ==> ImageSame(s, s', s.spt[j]))
    && (Dirty(s', j) <==> Dirty(s, j))
  }

  lemma SameFieldsTwice(a: Vm, b: Vm, c: Vm, j: Key)
    requires SameFields(a, b, j) && SameFields(b, c, j)
    ensures SameFields(a, c, j)
  {
    hide Dirty, FileImage;
  }

  lemma RemovedFields(s: Vm, k: Key, j: Key)
    requires Core(s) && k in s.spt && j in s.spt && j != k && EntryOk(s.spt[j], s.files, s.inodes)
    ensures SameFields(s, Removed(s, k), j)
  {
    hide TableOk, OwnersOk, NonePinned, DirectoryOk, SwapOk, Drop, Dirty, Image;
    RemovedFiles(s, k);
    if s.spt[j].status.Memory? {
      ResidentFrame(s, j);
    }
    if s.spt[k].status.Memory? {
      DropOthers(s, k, j);
      SameBit(Removed(s, k), Drop(s, k), j);
    } else {
      SameBit(Removed(s, k), s, j);
    }
  }

  /** One turn of the loop in mmap_unmap_and_flush. */
  function Unmapped(s: Vm, k: Key): Vm
    requires Core(s) && k in s.spt && s.spt[k].mmap && EntryOk(s.spt[k], s.files, s.inodes)
  {
    if s.spt[k].status.Memory? then
      FlushKeepsCore(s, k);
      Removed(Flush(s, k), k)
    else Removed(s, k)
  }

  lemma FlushKeepsCore(s: Vm, k: Key)
    requires Core(s) && k in s.spt && s.spt[k].mmap && s.spt[k].status.Memory? && EntryOk(s.spt[k], s.files, s.inodes)
    ensures Core(Flush(s, k)) && Flush(s, k).spt == s.spt
  {
    FlushKeeps(s, k);
    hide PoolOk, TableOk, OwnersOk, NonePinned, DirectoryOk, SwapSized, SwapOk, Flush;
  }

  lemma UnmappedKeeps(s: Vm, k: Key)
    requires Core(s) && k in s.spt && s.spt[k].mmap && EntryOk(s.spt[k], s.files, s.inodes)
    ensures Core(Unmapped(s, k)) && Unmapped(s, k).spt == s.spt - {k}
    ensures SameFiles(s.files, Unmapped(s, k).files) && SameLengths(s.inodes, Unmapped(s, k).inodes)
  {
    hide PoolOk, TableOk, OwnersOk, NonePinned, DirectoryOk, SwapSized, SwapOk, Flush, Removed;
    if s.spt[k].status.Memory? {
      FlushKeepsCore(s, k);
      FlushEffect(s, k);
      RemovedKeepsCore(Flush(s, k), k);
      RemovedFiles(Flush(s, k), k);
    } else {
      RemovedKeepsCore(s, k);
      RemovedFiles(s, k);
    }
  }

  lemma FlushFields(s: Vm, k: Key, j: Key)
    requires Sound(s) && k in s.spt && s.spt[k].mmap && s.spt[k].status.Memory?
    requires EntryOk(s.spt[k], s.files, s.inodes)
    requires Guarded(s, j) && !(Dirty(s, k) && Aliased(s, j, k))
    ensures SameFields(s, Flush(s, k), j)
  {
    hide TableOk, OwnersOk, SwapSized, Flush, Dirty, Image, Aliased;
    FlushEffect(s, k);
    if s.spt[j].status.Memory? {
      ResidentFrame(s, j);
    }
    if FromFile(s.spt[j]) {
      FlushImages(s, k, j);
    }
    SameBit(s, Flush(s, k), j);
  }

  lemma EntryStays(e: Spte, files: map<nat, OpenFile>, inodes: map<nat, Bytes>,
                   files': map<nat, OpenFile>, inodes': map<nat, Bytes>)
    requires EntryOk(e, files, inodes) && SameFiles(files, files') && SameLengths(inodes, inodes')
    ensures EntryOk(e, files', inodes')
  {
  }

  lemma UnmappedFields(s: Vm, k: Key, j: Key)
    requires Core(s) && k in s.spt && s.spt[k].mmap && EntryOk(s.spt[k], s.files, s.inodes)
    requires Guarded(s, j) && j != k && !(s.spt[k].status.Memory? && Dirty(s, k) && Aliased(s, j, k))
    ensures SameFields(s, Unmapped(s, k), j)
  {
    hide PoolOk, TableOk, OwnersOk, NonePinned, DirectoryOk, SwapSized, SwapOk, Flush, Removed, EntryOk, Dirty,
      Aliased, SameFields;
    if s.spt[k].status.Memory? {
      FlushKeepsCore(s, k);
      FlushEffect(s, k);
      FlushFields(s, k, j);
      EntryStays(s.spt[j], s.files, s.inodes, Flush(s, k).files, Flush(s, k).inodes);
      RemovedFields(Flush(s, k), k, j);
      SameFieldsTwice(s, Flush(s, k), Unmapped(s, k), j);
    } else {
      RemovedFields(s, k, j);
    }
  }

  // ---- sequences of pages -----------------------------------------------------------------------

  ghost predicate Unmappable(s: Vm, ks: seq<Key>) {
    && Core(s) && NoDuplicates(ks)
    && (forall k | k in ks :: k in s.spt && s.spt[k].mmap && EntryOk(s.spt[k], s.files, s.inodes))
  }

  /** The pages of a mapping, unmapped one after the other. */
  function Torn(s: Vm, ks: seq<Key>): Vm
    requires Unmappable(s, ks)
    decreases |ks|
  {
    if ks == [] then s
    else
      UnmapNext(s, ks);
      Torn(Unmapped(s, ks[0]), ks[1..])
  }

  lemma UnmapNext(s: Vm, ks: seq<Key>)
    requires Unmappable(s, ks) && ks != []
    ensures Unmappable(Unmapped(s, ks[0]), ks[1..])
  {
    hide Core, Unmapped, EntryOk;
    var k, s' := ks[0], Unmapped(s, ks[0]);
    UnmappedKeeps(s, k);
    forall j | j in ks[1..] ensures j in s'.spt && s'.spt[j].mmap && EntryOk(s'.spt[j], s'.files, s'.inodes) {
      assert j != k;
      EntryStays(s.spt[j], s.files, s.inodes, s'.files, s'.inodes);
    }
  }

  lemma {:induction false} TornKeeps(s: Vm, ks: seq<Key>)
    requires Unmappable(s, ks)
    ensures Core(Torn(s, ks)) && Torn(s, ks).spt == s.spt - (set k | k in ks)
    ensures SameFiles(s.files, Torn(s, ks).files) && SameLengths(s.inodes, Torn(s, ks).inodes)
    decreases |ks|
  {
    hide Core, Unmapped, Unmappable, Torn;
    UnfoldTorn(s, ks);
    if ks != [] {
      UnmapNext(s, ks);
      UnmappableHead(s, ks);
      UnmappedKeeps(s, ks[0]);
      TornKeeps(Unmapped(s, ks[0]), ks[1..]);
      assert (set k | k in ks) == {ks[0]} + (set k | k in ks[1..]);
    }
  }

  lemma UnfoldTorn(s: Vm, ks: seq<Key>)
    requires Unmappable(s, ks)
    ensures ks == [] ==> Torn(s, ks) == s && Core(s) && SameFiles(s.files, s.files) && SameLengths(s.inodes, s.inodes)
    ensures ks != [] ==> Unmappable(Unmapped(s, ks[0]), ks[1..]) && Torn(s, ks) == Torn(Unmapped(s, ks[0]), ks[1..])
  {
    if ks != [] {
      UnmapNext(s, ks);
    }
  }

  lemma UnmappableHead(s: Vm, ks: seq<Key>)
    requires Unmappable(s, ks) && ks != []
    ensures Core(s) && ks[0] in s.spt && s.spt[ks[0]].mmap && EntryOk(s.spt[ks[0]], s.files, s.inodes)
    ensures ks[0] !in ks[1..]
  {
  }

  /** Flushing k would change what page j shows. */
  predicate Overwrites(s: Vm, k: Key, j: Key) {
    k in s.spt && s.spt[k].status.Memory? && Dirty(s, k) && Aliased(s, j, k)
  }

  lemma UnmappedDirty(s: Vm, k: Key, j: Key)
    requires Core(s) && k in s.spt && s.spt[k].mmap && EntryOk(s.spt[k], s.files, s.inodes) && j in s.spt && j != k
    ensures Dirty(Unmapped(s, k), j) <==> Dirty(s, j)
  {
    hide TableOk, OwnersOk, NonePinned, DirectoryOk, SwapSized, SwapOk, Drop, Dirty, Flush;
    if s.spt[k].status.Memory? {
      FlushKeepsCore(s, k);
      FlushEffect(s, k);
      DropOthers(Flush(s, k), k, j);
      SameBit(Unmapped(s, k), Drop(Flush(s, k), k), j);
      SameBit(Flush(s, k), s, j);
    } else {
      SameBit(Unmapped(s, k), s, j);
    }
  }

  lemma OverwritesStays(s: Vm, k: Key, i: Key, j: Key)
    requires Core(s) && k in s.spt && s.spt[k].mmap && EntryOk(s.spt[k], s.files, s.inodes)
    requires i in s.spt && j in s.spt && i != k && j != k
    ensures Overwrites(Unmapped(s, k), i, j) <==> Overwrites(s, i, j)
  {
    hide Core, Unmapped, EntryOk, Dirty;
    UnmappedKeeps(s, k);
    UnmappedDirty(s, k, i);
  }

  lemma GuardedStays(s: Vm, s': Vm, j: Key)
    requires Guarded(s, j) && j in s'.spt && s'.spt[j] == s.spt[j]
    requires SameFiles(s.files, s'.files) && SameLengths(s.inodes, s'.inodes)
    ensures Guarded(s', j)
  {
    hide Denied;
    if s.spt[j].file in s.files {
      SameDenied(s.files, s'.files, s.files[s.spt[j].file].inode);
    }
  }

  /** Unmapping a sequence of pages leaves every page alone whose bytes it does not rewrite. */
  lemma {:induction false} TornFields(s: Vm, ks: seq<Key>, j: Key)
    requires Unmappable(s, ks) && Guarded(s, j) && j !in ks
    requires forall k | k in ks :: !Overwrites(s, k, j)
    ensures SameFields(s, Torn(s, ks), j)
    decreases |ks|
  {
    hide Core, Unmapped, Torn, EntryOk, Overwrites, SameFields;
    UnfoldTorn(s, ks);
    if ks == [] {
      SameFieldsItself(s, j);
    } else {
      var k := ks[0];
      var s' := Unmapped(s, k);
      UnmappedKeeps(s, k);
      assert !(s.spt[k].status.Memory? && Dirty(s, k) && Aliased(s, j, k)) by { NotOverwritten(s, k, j); }
      UnmappedFields(s, k, j);
      GuardedStays(s, s', j);
      forall i | i in ks[1..] ensures !Overwrites(s', i, j) {
        UnmappableHead(s, ks);
        OverwritesStays(s, k, i, j);
      }
      TornFields(s', ks[1..], j);
      SameFieldsTwice(s, s', Torn(s, ks), j);
    }
  }

  lemma NotOverwritten(s: Vm, k: Key, j: Key)
    requires !Overwrites(s, k, j) && k in s.spt
    ensures !(s.spt[k].status.Memory? && Dirty(s, k) && Aliased(s, j, k))
  {
  }

  lemma SameFieldsItself(s: Vm, j: Key)
    requires Guarded(s, j) && Core(s)
    ensures SameFields(s, s, j)
  {
    hide TableOk, OwnersOk, NonePinned, DirectoryOk, SwapOk, SwapSized, Denied, Image;
    if s.spt[j].status.Memory? {
      ResidentFrame(s, j);
    }
  }

  // ---- the end of a process -----------------------------------------------------------------------

  ghost predicate Destroyable(s: Vm, ks: seq<Key>) {
    Core(s) && NoDuplicates(ks) && (forall k | k in ks :: k in s.spt)
  }

  /** hash_destroy: the remaining entries, in whatever order the table has them. */
  function Destroyed(s: Vm, ks: seq<Key>): Vm
    requires Destroyable(s, ks)
    decreases |ks|
  {
    if ks == [] then s
    else
      DestroyNext(s, ks);
      Destroyed(Removed(s, ks[0]), ks[1..])
  }

  lemma DestroyNext(s: Vm, ks: seq<Key>)
    requires Destroyable(s, ks) && ks != []
    ensures Destroyable(Removed(s, ks[0]), ks[1..])
  {
    hide Core, Removed;
    RemovedKeepsCore(s, ks[0]);
    RemovedFiles(s, ks[0]);
  }

  lemma {:induction false} DestroyedKeeps(s: Vm, ks: seq<Key>)
    requires Destroyable(s, ks)
    ensures Core(Destroyed(s, ks)) && Destroyed(s, ks).spt == s.spt - (set k | k in ks)
    ensures Destroyed(s, ks).files == s.files && Destroyed(s, ks).inodes == s.inodes
    decreases |ks|
  {
    hide Core, Removed;
    if ks != [] {
      DestroyNext(s, ks);
      RemovedFiles(s, ks[0]);
      DestroyedKeeps(Removed(s, ks[0]), ks[1..]);
      assert (set k | k in ks) == {ks[0]} + (set k | k in ks[1..]);
    }
  }

  lemma {:induction false} DestroyedFields(s: Vm, ks: seq<Key>, j: Key)
    requires Destroyable(s, ks) && j !in ks && Guarded(s, j)
    ensures SameFields(s, Destroyed(s, ks), j)
    decreases |ks|
  {
    hide Core, Removed, EntryOk, SameFields, Denied;
    if ks == [] {
      SameFieldsItself(s, j);
    } else {
      DestroyNext(s, ks);
      RemovedFiles(s, ks[0]);
      RemovedFields(s, ks[0], j);
      DestroyedFields(Removed(s, ks[0]), ks[1..], j);
      SameFieldsTwice(s, Removed(s, ks[0]), Destroyed(s, ks), j);
    }
  }
}
