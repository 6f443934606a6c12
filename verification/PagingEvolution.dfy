/** What faults never change: a page's backing, and everything about open files but their
    positions. */
module PagingEvolution {
  import opened Paging
  import opened PagingInvariant
  import opened PagingSteps
  import opened PagingViews
  import opened PagingAccess

  /** Pages keep their entry but for the status, only mapped pages go back to LAZY, new
      pages are anonymous, and only pages get page table entries. */
  ghost predicate Evolves(s: Vm, s': Vm) {
    && SameFiles(s.files, s'.files) && SameLengths(s.inodes, s'.inodes)
    && (forall k | k in s.spt :: k in s'.spt && SameEntry(s.spt[k], s'.spt[k])
                                 && (FromExecutable(s'.spt[k]) ==> FromExecutable(s.spt[k])))
    && (forall k | k in s'.spt && k !in s.spt :: !s'.spt[k].mmap && !s'.spt[k].status.Lazy?)
    && (forall k | k in s'.pd :: k in s.pd || k in s'.spt)
  }

  lemma EvolvesTwice(a: Vm, b: Vm, c: Vm)
    requires Evolves(a, b) && Evolves(b, c)
    ensures Evolves(a, c)
  {
  }

  lemma ScannedEntries(s: Vm)
    requires Inv(s) && !HasFreePage(s)
    ensures Scanned(s).pd.Keys == s.pd.Keys
  {
    hide Inv, SecondChances, First, Victim;
  }

  lemma DropEntries(s: Vm, k: Key)
    requires Sound(s) && k in s.spt && s.spt[k].status.Memory?
    ensures Drop(s, k).pd.Keys == s.pd.Keys
  {
    hide TableOk, OwnersOk, SwapSized;
    ResidentFrame(s, k);
  }

  lemma EvictEvolves(s: Vm)
    requires Inv(s) && !HasFreePage(s) && Evict(s).Resumed?
    ensures Evolves(s, Evict(s).vm)
  {
    hide PoolOk, TableOk, OwnersOk, NonePinned, DirectoryOk, SwapSized, SwapOk, BackedOk, ProtectedOk, Flush, Drop,
      ClearAccessed, SecondChances, First, Victim;
    ScannedKeepsInv(s);
    ScannedEntries(s);
    var v, s1 := VictimKey(s), Scanned(s);
    if s.spt[v].mmap {
      EntryIsOk(s1, v);
      FlushEffect(s1, v);
      FlushKeepsInv(s1, v);
      DropFiles(Flush(s1, v), v);
      DropEntries(Flush(s1, v), v);
    } else {
      SwapOutSound(s1, v);
      DropFiles(SwapOut(s1, v), v);
      DropEntries(SwapOut(s1, v), v);
    }
  }

  lemma MakeRoomEvolves(s: Vm)
    requires Inv(s) && MakeRoom(s).Resumed?
    ensures Evolves(s, MakeRoom(s).vm)
  {
    hide Inv, Evict, HasFreePage;
    if !HasFreePage(s) {
      EvictEvolves(s);
    }
  }

  lemma LazyToMemoryEvolves(s: Vm, q: Key)
    requires Inv(s) && q in s.spt && s.spt[q].status.Lazy? && !LazyToMemory(s, q).Panic?
    ensures Evolves(s, LazyToMemory(s, q).vm)
  {
    hide PoolOk, TableOk, OwnersOk, NonePinned, DirectoryOk, SwapSized, SwapOk, BackedOk, ProtectedOk, ReadIn,
      MakeRoom, Evolves;
    EntryIsOk(s, q);
    SeekKeepsInv(s, s.spt[q].file, s.spt[q].offset);
    var s0 := Sought(s, q);
    SeekEvolves(s, s.spt[q].file, s.spt[q].offset);
    MakeRoomKeepsInv(s0);
    MakeRoomKeepsOthers(s0, q);
    MakeRoomEvolves(s0);
    ReadInEvolves(MakeRoom(s0).vm, q);
    EvolvesTwice(s, s0, MakeRoom(s0).vm);
    EvolvesTwice(s, MakeRoom(s0).vm, LazyToMemory(s, q).vm);
  }

  lemma SeekEvolves(s: Vm, f: nat, ofs: nat)
    requires f in s.files
    ensures Evolves(s, s.(files := Seek(s.files, f, ofs)))
  {
  }

  lemma ReadInEvolves(s: Vm, k: Key)
    requires Inv(s) && HasFreePage(s) && k in s.spt && s.spt[k].status.Lazy? && !ReadIn(s, k).Panic?
    ensures Evolves(s, ReadIn(s, k).vm)
  {
    hide PoolOk, TableOk, OwnersOk, NonePinned, DirectoryOk, SwapSized, SwapOk, ProtectedOk, First, Image, Transfer;
  }

  lemma SwapToMemoryEvolves(s: Vm, q: Key)
    requires Inv(s) && q in s.spt && s.spt[q].status.Swap? && !SwapToMemory(s, q).Panic?
    ensures Evolves(s, SwapToMemory(s, q).vm)
  {
    hide PoolOk, TableOk, OwnersOk, NonePinned, DirectoryOk, SwapSized, SwapOk, BackedOk, ProtectedOk, MakeRoom, First,
      Slot;
    SwapToMemoryEnds(s, q);
    MakeRoomKeepsInv(s);
    MakeRoomKeepsOthers(s, q);
    MakeRoomEvolves(s);
    var s1 := MakeRoom(s).vm;
    assert Evolves(s1, SwapIn(s1, q));
    EvolvesTwice(s, s1, SwapIn(s1, q));
  }

  lemma FreshEvolves(s: Vm, q: Key)
    requires Inv(s) && q !in s.spt && !FreshPage(s, q).Panic?
    ensures Evolves(s, FreshPage(s, q).vm)
  {
    hide PoolOk, TableOk, OwnersOk, NonePinned, DirectoryOk, SwapSized, SwapOk, BackedOk, ProtectedOk, MakeRoom, First,
      Filled;
    FreshEnds(s, q);
    MakeRoomKeepsInv(s);
    MakeRoomKeepsOthers(s, q);
    MakeRoomEvolves(s);
    var s1 := MakeRoom(s).vm;
    assert Evolves(s1, FreshPage(s, q).vm);
    EvolvesTwice(s, s1, FreshPage(s, q).vm);
  }

  lemma PageFaultEvolves(s: Vm, t: nat, addr: nat, esp: nat, notPresent: bool)
    requires Inv(s) && !PageFault(s, t, addr, esp, notPresent).Panic?
    ensures Evolves(s, PageFault(s, t, addr, esp, notPresent).vm)
  {
    hide PoolOk, TableOk, OwnersOk, NonePinned, DirectoryOk, SwapSized, SwapOk, BackedOk, ProtectedOk, FreshPage,
      LazyToMemory, SwapToMemory, StackAccess;
    var q := Key(t, addr / PGSIZE);
    if notPresent && q in s.spt && s.spt[q].status.Lazy? {
      LazyToMemoryEvolves(s, q);
    } else if notPresent && q in s.spt && s.spt[q].status.Swap? {
      SwapToMemoryEvolves(s, q);
    } else if notPresent && q !in s.spt && StackAccess(addr, esp) {
      FreshEvolves(s, q);
    }
  }

  lemma ReadyEvolves(s: Vm, t: nat, addr: nat, esp: nat, write: bool)
    requires Inv(s) && !Ready(s, t, addr, esp, write).Panic?
    ensures Evolves(s, Ready(s, t, addr, esp, write).vm)
  {
    hide Inv, PageFault, Permitted, Present, Evolves;
    var k := Key(t, addr / PGSIZE);
    if Present(s, k) {
      PermittedEnds(s, t, addr, esp, write);
      EvolvesItself(s);
    } else {
      PageFaultEvolves(s, t, addr, esp, true);
      PageFaultBringsIn(s, t, addr, esp);
      if PageFault(s, t, addr, esp, true).Resumed? {
        PermittedEnds(PageFault(s, t, addr, esp, true).vm, t, addr, esp, write);
      }
    }
  }

  lemma EvolvesItself(s: Vm)
    ensures Evolves(s, s)
  {
  }
}
