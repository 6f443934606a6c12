/** Whole steps and the user's view: what an eviction, a load, a swap-in and a fresh page do
    to every page, and when a mapped page can be lost. */
module PagingTransparency {
  import opened Paging
  import opened PagingInvariant
  import opened PagingSteps
  import opened PagingViews

  lemma KeptTwice(a: Vm, b: Vm, c: Vm, k: Key)
    requires Inv(a) && Inv(b) && Inv(c) && Kept(a, b, k) && Kept(b, c, k)
    ensures Kept(a, c, k)
  {
    hide Inv, View, Synced;
  }

  // ---- eviction -------------------------------------------------------------------------------

  /** The next eviction can cost page j its content: the victim is a dirty mapped page, and
      it is j itself with a write-protected file, or another view of j's file bytes. */
  predicate EvictHazard(s: Vm, j: Key)
    requires Inv(s)
  {
    !HasFreePage(s) &&
    var v := VictimKey(s);
    s.spt[v].mmap && Dirty(s, v) && s.spt[v].file in s.files &&
    if j == v then Denied(s.files, s.files[s.spt[v].file].inode) else Aliased(s, j, v)
  }

  /** Only mapped pages are ever at risk. */
  lemma HazardIsMapped(s: Vm, j: Key)
    requires Inv(s) && EvictHazard(s, j)
    ensures j in s.spt && s.spt[j].mmap
  {
  }

  lemma EvictMapped(s: Vm, j: Key)
    requires Inv(s) && !HasFreePage(s) && s.spt[VictimKey(s)].mmap
    requires j in s.spt && Synced(s, j) && !EvictHazard(s, j)
    ensures Evict(s).Resumed? && Inv(Evict(s).vm) && Kept(s, Evict(s).vm, j)
  {
    hide PoolOk, TableOk, OwnersOk, NonePinned, DirectoryOk, SwapSized, SwapOk, BackedOk, ProtectedOk, Flush, Released,
      Kept, ClearAccessed, Dirty, Held, VictimKey, SecondChances;
    var v, s1 := VictimKey(s), Scanned(s);
    ScannedKept(s, j);
    ScannedDirty(s, v);
    EntryIsOk(s1, v);
    KeptIsSynced(s, s1, j);
    FlushKept(s1, v, j);
    var s2 := Flush(s1, v);
    KeptTwice(s, s1, s2, j);
    KeptIsSynced(s1, s2, j);
    FlushKeepsInv(s1, v);
    if j == v {
      FlushHolds(s1, v);
      ReleasedKept(s2, v);
    } else {
      ReleasedOthers(s2, v, j);
    }
    KeptTwice(s, s2, Released(s2, v), j);
  }

  lemma KeptIsSynced(s: Vm, s': Vm, j: Key)
    requires Inv(s) && Inv(s') && Kept(s, s', j)
    ensures j in s'.spt && Synced(s', j)
  {
  }

  lemma EvictSwapped(s: Vm, j: Key)
    requires Inv(s) && !HasFreePage(s) && !s.spt[VictimKey(s)].mmap && First(s.swapMap, false) < |s.swapMap|
    requires j in s.spt && Synced(s, j)
    ensures Evict(s).Resumed? && Inv(Evict(s).vm) && Kept(s, Evict(s).vm, j)
  {
    hide PoolOk, TableOk, OwnersOk, NonePinned, DirectoryOk, SwapSized, SwapOk, BackedOk, ProtectedOk, ToSwap, Kept,
      ClearAccessed, Dirty, VictimKey, SecondChances, First;
    var v, s1 := VictimKey(s), Scanned(s);
    ScannedKept(s, j);
    KeptIsSynced(s, s1, j);
    if j == v {
      ToSwapKept(s1, v);
    } else {
      ToSwapOthers(s1, v, j);
    }
    KeptTwice(s, s1, ToSwap(s1, v), j);
  }

  /** Making room for a page leaves every page alone that is not in danger. */
  lemma MakeRoomKept(s: Vm, j: Key)
    requires Inv(s) && j in s.spt && Synced(s, j) && !EvictHazard(s, j)
    ensures MakeRoom(s).Resumed? ==> Inv(MakeRoom(s).vm) && Kept(s, MakeRoom(s).vm, j)
  {
    hide PoolOk, TableOk, OwnersOk, NonePinned, DirectoryOk, SwapSized, SwapOk, BackedOk, ProtectedOk, Evict, Scanned,
      VictimKey, EvictHazard, First, View;
    MakeRoomKeepsInv(s);
    if !HasFreePage(s) {
      EvictKeepsInv(s);
      if s.spt[VictimKey(s)].mmap {
        EvictMapped(s, j);
      } else if First(s.swapMap, false) < |s.swapMap| {
        EvictSwapped(s, j);
      }
    }
  }

  // ---- becoming resident ----------------------------------------------------------------------

  lemma SeekKept(s: Vm, f: nat, ofs: nat, j: Key)
    requires Inv(s) && f in s.files && j in s.spt && Synced(s, j)
    ensures var s' := s.(files := Seek(s.files, f, ofs)); Inv(s') && Kept(s, s', j)
  {
    hide PoolOk, TableOk, OwnersOk, NonePinned, DirectoryOk, SwapSized, SwapOk, BackedOk, ProtectedOk, Image, Slot,
      Dirty;
    var s' := s.(files := Seek(s.files, f, ofs));
    SeekKeepsInv(s, f, ofs);
    EntryIsOk(s, j);
    SameBit(s, s', j);
    if s.spt[j].status.Memory? {
      ResidentFrame(s, j);
      PoolSizes(s);
    }
    KeptByFields(s, s', j);
  }

  /** A page that enters a free frame disturbs no other. */
  lemma EnterOthers(s: Vm, k: Key, e: Spte, content: Bytes, j: Key)
    requires Inv(s) && HasFreePage(s) && j in s.spt && j != k && Synced(s, j)
    requires Inv(Enter(s, k, e, content))
    ensures Kept(s, Enter(s, k, e, content), j)
  {
    hide PoolOk, TableOk, OwnersOk, NonePinned, DirectoryOk, SwapSized, SwapOk, BackedOk, ProtectedOk, Image, Slot;
    EntryIsOk(s, j);
    PoolSizes(s);
    if s.spt[j].status.Memory? {
      ResidentFrame(s, j);
      FreeIsUnframed(s, First(s.used, false));
    }
    KeptByFields(s, Enter(s, k, e, content), j);
  }

  lemma EnteredView(s: Vm, k: Key, e: Spte, content: Bytes)
    requires Sound(s) && HasFreePage(s) && Inv(Enter(s, k, e, content))
    ensures var s' := Enter(s, k, e, content);
            k in s'.spt && View(s', k) == content && Present(s', k) && !Dirty(s', k)
                && s'.spt[k] == e.(status := s'.spt[k].status)
  {
    hide TableOk, OwnersOk, NonePinned, DirectoryOk, SwapSized, SwapOk, BackedOk, ProtectedOk, Image, Slot;
  }

  // ---- swapping in ----------------------------------------------------------------------------

  /** Clearing the bit of the slot just read changes no other page. */
  lemma SwapInOthers(s: Vm, k: Key, j: Key)
    requires Inv(s) && HasFreePage(s) && k in s.spt && s.spt[k].status.Swap? && j in s.spt && j != k && Synced(s, j)
    ensures Inv(SwapIn(s, k)) && Kept(s, SwapIn(s, k), j)
  {
    hide PoolOk, TableOk, OwnersOk, NonePinned, DirectoryOk, SwapOk, BackedOk, ProtectedOk, Image, Slot;
    SwapInKeepsInv(s, k);
    NotSwapped(s, k);
    EntryIsOk(s, j);
    PoolSizes(s);
    if s.spt[j].status.Memory? {
      ResidentFrame(s, j);
      FreeIsUnframed(s, First(s.used, false));
    }
    if s.spt[j].status.Swap? {
      NotSwapped(s, j);
    }
    KeptByFields(s, SwapIn(s, k), j);
  }

  lemma SwapInKept(s: Vm, k: Key)
    requires Inv(s) && HasFreePage(s) && k in s.spt && s.spt[k].status.Swap?
    ensures Inv(SwapIn(s, k)) && Kept(s, SwapIn(s, k), k) && Present(SwapIn(s, k), k)
  {
    hide PoolOk, TableOk, OwnersOk, NonePinned, DirectoryOk, SwapOk, BackedOk, ProtectedOk, Image, Slot, Enter, First;
    SwapInKeepsInv(s, k);
    NotSwapped(s, k);
    EnteredView(s.(swapMap := s.swapMap[s.spt[k].status.slot := false]), k, s.spt[k],
        Slot(s.swapDev, s.spt[k].status.slot));
  }

  /** spt_swap_to_memory brings the page back as it was and leaves the others alone. */
  lemma SwapToMemoryKept(s: Vm, q: Key, j: Key)
    requires Inv(s) && q in s.spt && s.spt[q].status.Swap?
    requires j in s.spt && Synced(s, j) && !EvictHazard(s, j)
    ensures var r := SwapToMemory(s, q);
            r.Resumed? ==> Inv(r.vm) && Kept(s, r.vm, j) && (j == q ==> Present(r.vm, q))
  {
    hide Inv, View, Kept, SwapIn, MakeRoom, EvictHazard, Synced;
    MakeRoomKeepsInv(s);
    MakeRoomKeepsOthers(s, q);
    MakeRoomKept(s, j);
    if MakeRoom(s).Resumed? {
      var s1 := MakeRoom(s).vm;
      KeptIsSynced(s, s1, j);
      if j == q {
        SwapInKept(s1, q);
      } else {
        SwapInOthers(s1, q, j);
      }
      KeptTwice(s, s1, SwapIn(s1, q), j);
    }
  }

  // ---- loading from a file --------------------------------------------------------------------

  /** The clock looks at the frames and the accessed bits only. */
  lemma SameVictim(s: Vm, s': Vm)
    requires Inv(s) && Inv(s') && s' == s.(files := s'.files) && !HasFreePage(s)
    ensures !HasFreePage(s') && VictimKey(s') == VictimKey(s)
  {
    hide PoolOk, TableOk, OwnersOk, NonePinned, DirectoryOk, SwapSized, SwapOk, BackedOk, ProtectedOk, First, IndexOf,
      Around, Cold, Unpinned;
    ClockReadyWhenFull(s);
    ClockReadyWhenFull(s');
    SameLaps(s, s');
    SamePlace(s, s', VictimDistance(s));
  }

  lemma SamePlace(s: Vm, s': Vm, d: nat)
    requires ClockReady(s) && ClockReady(s') && s' == s.(files := s'.files)
    ensures Around(s', d) == Around(s, d)
  {
  }

  lemma SameLaps(s: Vm, s': Vm)
    requires ClockReady(s) && ClockReady(s') && s' == s.(files := s'.files)
    ensures Cold(s') == Cold(s) && Unpinned(s') == Unpinned(s)
  {
    hide Around;
    forall d | 0 <= d < |s.table|
      ensures Cold(s')[d] == Cold(s)[d] && Unpinned(s')[d] == Unpinned(s)[d]
    {
      SamePlace(s, s', d);
    }
  }

  lemma SoughtHazard(s: Vm, q: Key, j: Key)
    requires Inv(s) && q in s.spt && s.spt[q].status.Lazy?
    ensures Inv(Sought(s, q)) && (EvictHazard(Sought(s, q), j) <==> EvictHazard(s, j))
  {
    hide PoolOk, TableOk, OwnersOk, NonePinned, DirectoryOk, SwapSized, SwapOk, BackedOk, ProtectedOk, VictimKey,
      First, Denied;
    EntryIsOk(s, q);
    SeekKeepsInv(s, s.spt[q].file, s.spt[q].offset);
    if !HasFreePage(s) {
      var v := VictimKey(s);
      SameVictim(s, Sought(s, q));
      if s.spt[v].file in s.files {
        SameDenied(s.files, Sought(s, q).files, s.files[s.spt[v].file].inode);
      }
    }
  }

  /** Where a write-back leaves the position of a file. */
  lemma FlushPosition(s: Vm, k: Key, f: nat)
    requires Inv(s) && k in s.spt && s.spt[k].mmap && s.spt[k].status.Memory? && f in s.files
    ensures f in Flush(s, k).files && s.spt[k].file in s.files
    ensures Flush(s, k).files[f].pos ==
            if !Dirty(s, k) || f != s.spt[k].file then s.files[f].pos
            else if Denied(s.files, s.files[f].inode) then s.spt[k].offset
            else s.spt[k].offset + s.spt[k].readBytes
  {
    hide PoolOk, TableOk, OwnersOk, NonePinned, DirectoryOk, SwapSized, SwapOk, ProtectedOk, Overlay, Transfer, Denied;
    EntryIsOk(s, k);
    var e := s.spt[k];
    SameDenied(s.files, Seek(s.files, e.file, e.offset), s.files[e.file].inode);
    PoolSizes(s);
    ResidentFrame(s, k);
    PageSize(s, e.status.kpage);
  }

  /** Where evicting leaves the position of a file. */
  lemma EvictPosition(s: Vm, f: nat)
    requires Inv(s) && !HasFreePage(s) && Evict(s).Resumed? && f in s.files
    ensures f in Evict(s).vm.files
    ensures var v := VictimKey(s);
            Evict(s).vm.files[f].pos ==
            if !s.spt[v].mmap || !Dirty(s, v) || f != s.spt[v].file then s.files[f].pos
            else if Denied(s.files, s.files[f].inode) then s.spt[v].offset
            else s.spt[v].offset + s.spt[v].readBytes
  {
    hide PoolOk, TableOk, OwnersOk, NonePinned, DirectoryOk, SwapSized, SwapOk, BackedOk, ProtectedOk, Flush,
      ClearAccessed, Dirty, Denied, SecondChances, First, VictimKey;
    ScannedKeepsInv(s);
    var v, s1 := VictimKey(s), Scanned(s);
    ScannedDirty(s, v);
    if s.spt[v].mmap {
      EntryIsOk(s1, v);
      FlushPosition(s1, v, f);
      FlushKeepsInv(s1, v);
      FlushEffect(s1, v);
      DropFiles(Flush(s1, v), v);
    } else {
      SwapOutSound(s1, v);
      DropFiles(SwapOut(s1, v), v);
    }
  }

  /** load_page seeks, then allocates, then reads.  The allocation moves the position of the
      very file to be read exactly when it writes back a dirty page of that file and the
      write-back does not happen to end where the load starts. */
  predicate LoadHazard(s: Vm, q: Key)
    requires Inv(s) && q in s.spt && s.spt[q].status.Lazy?
  {
    !HasFreePage(s) &&
    var v := VictimKey(s);
    s.spt[v].mmap && Dirty(s, v) && s.spt[v].file == s.spt[q].file && s.spt[v].file in s.files &&
    s.spt[q].offset !=
    if Denied(s.files, s.files[s.spt[v].file].inode) then s.spt[v].offset else s.spt[v].offset + s.spt[v].readBytes
  }

  /** The read starts at the page's own offset if and only if the load was not in danger. */
  lemma LoadPosition(s: Vm, q: Key)
    requires Inv(s) && q in s.spt && s.spt[q].status.Lazy?
    ensures Inv(Sought(s, q))
    ensures MakeRoom(Sought(s, q)).Resumed? ==>
              var s1 := MakeRoom(Sought(s, q)).vm;
              s.spt[q].file in s1.files && (s1.files[s.spt[q].file].pos == s.spt[q].offset <==> !LoadHazard(s, q))
  {
    hide PoolOk, TableOk, OwnersOk, NonePinned, DirectoryOk, SwapSized, SwapOk, BackedOk, ProtectedOk, Evict, Denied,
      First, VictimKey;
    EntryIsOk(s, q);
    SeekKeepsInv(s, s.spt[q].file, s.spt[q].offset);
    var s0 := Sought(s, q);
    if !HasFreePage(s) {
      SameVictim(s, s0);
      SameDenied(s.files, s0.files, s.files[s.spt[q].file].inode);
      if Evict(s0).Resumed? {
        EvictPosition(s0, s.spt[q].file);
      }
    }
  }

  /** Pages of an executable are never in danger. */
  lemma ExecutableLoadsSafely(s: Vm, q: Key)
    requires Inv(s) && q in s.spt && FromExecutable(s.spt[q])
    ensures !LoadHazard(s, q)
  {
    hide PoolOk, TableOk, OwnersOk, NonePinned, DirectoryOk, SwapSized, SwapOk, BackedOk, VictimKey, First, Denied;
  }

  lemma ReadInOthers(s: Vm, k: Key, j: Key)
    requires Inv(s) && HasFreePage(s) && k in s.spt && s.spt[k].status.Lazy? && j in s.spt && Synced(s, j)
    requires j != k || ReadIn(s, k).Killed?
    ensures !ReadIn(s, k).Panic? && Inv(ReadIn(s, k).vm) && Kept(s, ReadIn(s, k).vm, j)
  {
    hide PoolOk, TableOk, OwnersOk, NonePinned, DirectoryOk, SwapSized, SwapOk, BackedOk, ProtectedOk, Image, Slot,
      Enter, Kept, First, Transfer, Seek;
    ReadInKeepsInv(s, k);
    EntryIsOk(s, k);
    var e := s.spt[k];
    var file := s.files[e.file];
    var n := Transfer(|s.inodes[file.inode]|, file.pos, e.readBytes);
    var s' := s.(files := Seek(s.files, e.file, file.pos + n));
    SeekKept(s, e.file, file.pos + n, j);
    KeptIsSynced(s, s', j);
    if ReadIn(s, k).Killed? {
      ScrapKept(s', j);
      KeptTwice(s, s', ReadIn(s, k).vm, j);
    } else {
      EnterOthers(s', k, e, Image(s.inodes[file.inode], file.pos, e.readBytes), j);
      KeptTwice(s, s', ReadIn(s, k).vm, j);
    }
  }

  /** Filling a free page with garbage is not noticed. */
  lemma ScrapKept(s: Vm, j: Key)
    requires Inv(s) && HasFreePage(s) && j in s.spt && Synced(s, j)
    ensures First(s.used, false) < |s.mem|
    ensures var s' := s.(mem := s.mem[First(s.used, false) := Filled(POISON)]); Inv(s') && Kept(s, s', j)
  {
    hide PoolOk, TableOk, OwnersOk, NonePinned, DirectoryOk, SwapSized, SwapOk, BackedOk, ProtectedOk, Image, Slot,
      Dirty, Filled;
    PoolSizes(s);
    ScrapKeepsInv(s, First(s.used, false));
    var s' := s.(mem := s.mem[First(s.used, false) := Filled(POISON)]);
    SameBit(s, s', j);
    EntryIsOk(s, j);
    if s.spt[j].status.Memory? {
      ResidentFrame(s, j);
      FreeIsUnframed(s, First(s.used, false));
    }
    KeptByFields(s, s', j);
  }

  /** A load whose position is right succeeds exactly when the file is long enough, and
      then makes the file's bytes resident. */
  lemma ReadInKept(s: Vm, k: Key)
    requires Inv(s) && HasFreePage(s) && k in s.spt && s.spt[k].status.Lazy?
    requires s.spt[k].file in s.files && s.files[s.spt[k].file].pos == s.spt[k].offset
    ensures var e := s.spt[k];
            ReadIn(s, k).Resumed? <==>
            e.readBytes == 0 || e.offset + e.readBytes <= |s.inodes[s.files[e.file].inode]|
    ensures ReadIn(s, k).Resumed? ==>
              Inv(ReadIn(s, k).vm) && Kept(s, ReadIn(s, k).vm, k) && Present(ReadIn(s, k).vm, k)
  {
    hide PoolOk, TableOk, OwnersOk, NonePinned, DirectoryOk, SwapSized, SwapOk, BackedOk, ProtectedOk, Image, Slot,
      Enter, First, Transfer;
    ReadInKeepsInv(s, k);
    EntryIsOk(s, k);
    var e := s.spt[k];
    var file := s.files[e.file];
    var data := s.inodes[file.inode];
    var n := Transfer(|data|, file.pos, e.readBytes);
    var s' := s.(files := Seek(s.files, e.file, file.pos + n));
    SeekKeepsInv(s, e.file, file.pos + n);
    PoolSizes(s);
    if n == e.readBytes {
      EnteredView(s', k, e, Image(data, file.pos, e.readBytes));
      EntryIsOk(ReadIn(s, k).vm, k);
      EnterFiles(s', k, e, Image(data, file.pos, e.readBytes));
    }
  }

  lemma EnterFiles(s: Vm, k: Key, e: Spte, content: Bytes)
    requires HasFreePage(s) && |s.mem| == |s.used|
    ensures Enter(s, k, e, content).files == s.files && Enter(s, k, e, content).inodes == s.inodes
  {
  }

  /** spt_lazy_to_memory: no page is disturbed that is not in danger, and if the load itself
      is not in danger the page arrives as its file has it. */
  lemma LazyToMemoryKept(s: Vm, q: Key, j: Key)
    requires Inv(s) && q in s.spt && s.spt[q].status.Lazy?
    requires j in s.spt && Synced(s, j) && !EvictHazard(s, j)
    ensures var r := LazyToMemory(s, q);
            (r.Killed? || (r.Resumed? && (j != q || !LoadHazard(s, q)))) ==>
              Inv(r.vm) && Kept(s, r.vm, j) && (r.Resumed? && j == q ==> Present(r.vm, q))
  {
    hide PoolOk, TableOk, OwnersOk, NonePinned, DirectoryOk, SwapSized, SwapOk, BackedOk, ProtectedOk, View, Kept,
      ReadIn, MakeRoom, EvictHazard, LoadHazard, Synced;
    EntryIsOk(s, q);
    SeekKept(s, s.spt[q].file, s.spt[q].offset, j);
    var s0 := Sought(s, q);
    KeptIsSynced(s, s0, j);
    SoughtHazard(s, q, j);
    MakeRoomKeepsInv(s0);
    MakeRoomKeepsOthers(s0, q);
    MakeRoomKept(s0, j);
    LoadPosition(s, q);
    if MakeRoom(s0).Resumed? {
      var s1 := MakeRoom(s0).vm;
      KeptTwice(s, s0, s1, j);
      KeptIsSynced(s0, s1, j);
      if j != q || ReadIn(s1, q).Killed? {
        ReadInOthers(s1, q, j);
        KeptTwice(s, s1, ReadIn(s1, q).vm, j);
      } else if !LoadHazard(s, q) {
        ReadInKept(s1, q);
        if ReadIn(s1, q).Resumed? {
          KeptTwice(s, s1, ReadIn(s1, q).vm, j);
        }
      }
    }
  }
}
