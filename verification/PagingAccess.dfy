/** User reads and writes: the fault that brings the page in, then the access itself. */
module PagingAccess {
  import opened Paging
  import opened PagingInvariant
  import opened PagingSteps
  import opened PagingViews
  import opened PagingTransparency

  // ---- faults ---------------------------------------------------------------------------------

  /** Does a fault on page k at addr ask for a frame? */
  predicate Allocates(s: Vm, k: Key, addr: nat, esp: nat) {
    if k in s.spt then !s.spt[k].status.Memory? else StackAccess(addr, esp)
  }

  /** Page j can lose its content in a fault of thread t at addr. */
  predicate Danger(s: Vm, t: nat, addr: nat, esp: nat, j: Key)
    requires Inv(s)
  {
    var q := Key(t, addr / PGSIZE);
    && Allocates(s, q, addr, esp)
    && (EvictHazard(s, j) || (j == q && q in s.spt && s.spt[q].status.Lazy? && LoadHazard(s, q)))
  }

  /** Pages that no mapping is involved in are never in danger. */
  lemma AnonymousIsSafe(s: Vm, t: nat, addr: nat, esp: nat, j: Key)
    requires Inv(s) && j in s.spt && !s.spt[j].mmap
    ensures !Danger(s, t, addr, esp, j)
  {
    hide PoolOk, TableOk, OwnersOk, NonePinned, DirectoryOk, SwapSized, SwapOk, BackedOk, ProtectedOk, EvictHazard,
      LoadHazard;
    if EvictHazard(s, j) {
      HazardIsMapped(s, j);
    }
    if s.spt[j].status.Lazy? {
      ExecutableLoadsSafely(s, j);
    }
  }

  /** A page mapped once, from a file that may be written, is in danger only of a load whose
      file position is moved. */
  lemma SinglyMappedIsSafe(s: Vm, t: nat, addr: nat, esp: nat, j: Key)
    requires Inv(s) && j in s.spt && s.spt[j].mmap && s.spt[j].file in s.files
    requires !Denied(s.files, s.files[s.spt[j].file].inode)
    requires forall i | i in s.spt && i != j :: !Aliased(s, j, i)
    ensures Danger(s, t, addr, esp, j) ==>
              j == Key(t, addr / PGSIZE) && s.spt[j].status.Lazy? && LoadHazard(s, j)
  {
    hide PoolOk, TableOk, OwnersOk, NonePinned, DirectoryOk, SwapSized, SwapOk, BackedOk, ProtectedOk, LoadHazard;
  }

  lemma FreshOthers(s: Vm, q: Key, j: Key)
    requires Inv(s) && q !in s.spt && j in s.spt && Synced(s, j) && !EvictHazard(s, j)
    ensures !FreshPage(s, q).Killed?
    ensures FreshPage(s, q).Resumed? ==> Inv(FreshPage(s, q).vm) && Kept(s, FreshPage(s, q).vm, j)
  {
    hide Inv, View, Kept, Enter, MakeRoom, EvictHazard, Synced, Filled;
    MakeRoomKeepsInv(s);
    MakeRoomKeepsOthers(s, q);
    MakeRoomKept(s, j);
    if MakeRoom(s).Resumed? {
      var s1 := MakeRoom(s).vm;
      KeptIsSynced(s, s1, j);
      FreshKeepsInv(s1, q);
      EnterOthers(s1, q, ANONYMOUS, Filled(0), j);
      KeptTwice(s, s1, FreshPage(s, q).vm, j);
    }
  }

  /** A fault disturbs no page that was not in danger. */
  lemma PageFaultKept(s: Vm, t: nat, addr: nat, esp: nat, notPresent: bool, j: Key)
    requires Inv(s) && j in s.spt && Synced(s, j) && !Danger(s, t, addr, esp, j)
    ensures var r := PageFault(s, t, addr, esp, notPresent);
            !r.Panic? ==> Inv(r.vm) && Kept(s, r.vm, j)
  {
    hide PoolOk, TableOk, OwnersOk, NonePinned, DirectoryOk, SwapSized, SwapOk, BackedOk, ProtectedOk, View, Synced,
      FreshPage, LazyToMemory, SwapToMemory, EvictHazard, LoadHazard, StackAccess;
    PageFaultKeepsInv(s, t, addr, esp, notPresent);
    var q := Key(t, addr / PGSIZE);
    if notPresent && q in s.spt && s.spt[q].status.Lazy? {
      LazyToMemoryKept(s, q, j);
    } else if notPresent && q in s.spt && s.spt[q].status.Swap? {
      SwapToMemoryKept(s, q, j);
      SwapToMemoryEnds(s, q);
    } else if notPresent && q !in s.spt && StackAccess(addr, esp) {
      FreshOthers(s, q, j);
    }
  }

  lemma SwapToMemoryEnds(s: Vm, q: Key)
    requires Inv(s) && q in s.spt && s.spt[q].status.Swap?
    ensures !SwapToMemory(s, q).Killed?
  {
    hide Inv, SwapIn, MakeRoom;
    MakeRoomKeepsInv(s);
    MakeRoomKeepsOthers(s, q);
  }

  lemma FreshIsZero(s: Vm, q: Key)
    requires Inv(s) && q !in s.spt
    ensures var r := FreshPage(s, q);
            r.Resumed? ==>
              && Inv(r.vm) && r.vm.spt.Keys == s.spt.Keys + {q} && Present(r.vm, q)
              && View(r.vm, q) == Filled(0) && !r.vm.spt[q].mmap && r.vm.spt[q].writable
  {
    hide Inv, View, MakeRoom, Filled, EvictHazard;
    MakeRoomKeepsInv(s);
    MakeRoomKeepsOthers(s, q);
    if MakeRoom(s).Resumed? {
      FreshKeepsInv(MakeRoom(s).vm, q);
      InvSound(MakeRoom(s).vm);
      EnteredView(MakeRoom(s).vm, q, ANONYMOUS, Filled(0));
    }
  }

  lemma InvSound(s: Vm)
    requires Inv(s)
    ensures Sound(s)
  {
  }

  /** The pages known after a fault, and what became of the one that faulted. */
  lemma PageFaultBringsIn(s: Vm, t: nat, addr: nat, esp: nat)
    requires Inv(s)
    ensures var r := PageFault(s, t, addr, esp, true); var q := Key(t, addr / PGSIZE);
            r.Resumed? ==>
              Inv(r.vm) && r.vm.spt.Keys == s.spt.Keys + {q} && Present(r.vm, q)
                           && (q !in s.spt ==> View(r.vm, q) == Filled(0) && !r.vm.spt[q].mmap && r.vm.spt[q].writable)
                           && (q in s.spt ==> SameEntry(s.spt[q], r.vm.spt[q]))
    ensures var r := PageFault(s, t, addr, esp, true);
            r.Killed? ==> Inv(r.vm) && r.vm.spt.Keys == s.spt.Keys
  {
    hide PoolOk, TableOk, OwnersOk, NonePinned, DirectoryOk, SwapSized, SwapOk, BackedOk, ProtectedOk, View, Synced,
      FreshPage, LazyToMemory, SwapToMemory, StackAccess, Filled;
    PageFaultKeepsInv(s, t, addr, esp, true);
    var q := Key(t, addr / PGSIZE);
    if q in s.spt && s.spt[q].status.Lazy? {
      LazyToMemoryKeys(s, q);
    } else if q in s.spt && s.spt[q].status.Swap? {
      SwapToMemoryKeys(s, q);
      SwapToMemoryEnds(s, q);
    } else if q !in s.spt && StackAccess(addr, esp) {
      FreshIsZero(s, q);
      FreshEnds(s, q);
    }
  }

  lemma FreshEnds(s: Vm, q: Key)
    requires Inv(s) && q !in s.spt
    ensures !FreshPage(s, q).Killed?
  {
    hide Inv, Enter, MakeRoom;
    MakeRoomKeepsInv(s);
  }

  lemma LazyToMemoryKeys(s: Vm, q: Key)
    requires Inv(s) && q in s.spt && s.spt[q].status.Lazy?
    ensures var r := LazyToMemory(s, q);
            !r.Panic? ==> r.vm.spt.Keys == s.spt.Keys
                          && (r.Resumed? ==> Present(r.vm, q) && SameEntry(s.spt[q], r.vm.spt[q]))
  {
    hide PoolOk, TableOk, OwnersOk, NonePinned, DirectoryOk, SwapSized, SwapOk, BackedOk, ProtectedOk, MakeRoom, First,
      Image, Transfer;
    EntryIsOk(s, q);
    SeekKeepsInv(s, s.spt[q].file, s.spt[q].offset);
    var s0 := Sought(s, q);
    MakeRoomKeepsInv(s0);
    MakeRoomKeepsOthers(s0, q);
  }

  lemma SwapToMemoryKeys(s: Vm, q: Key)
    requires Inv(s) && q in s.spt && s.spt[q].status.Swap?
    ensures var r := SwapToMemory(s, q);
            !r.Panic? ==> r.vm.spt.Keys == s.spt.Keys
                          && (r.Resumed? ==> Present(r.vm, q) && SameEntry(s.spt[q], r.vm.spt[q]))
  {
    hide PoolOk, TableOk, OwnersOk, NonePinned, DirectoryOk, SwapSized, SwapOk, BackedOk, ProtectedOk, MakeRoom, First,
      Slot;
    SwapToMemoryEnds(s, q);
    MakeRoomKeepsInv(s);
    MakeRoomKeepsOthers(s, q);
  }

  // ---- accesses -------------------------------------------------------------------------------

  /** The processor's checks on an access, with the faults they raise: after a resumed fault
      the access is tried again, and may still be refused for writing a read-only page. */
  function Ready(s: Vm, t: nat, addr: nat, esp: nat, write: bool): Outcome
    requires Inv(s)
  {
    var k := Key(t, addr / PGSIZE);
    if Present(s, k) then Permitted(s, t, addr, esp, write)
    else match PageFault(s, t, addr, esp, true)
      case Resumed(s1) => PageFaultBringsIn(s, t, addr, esp); Permitted(s1, t, addr, esp, write)
      case other => other
  }

  function Permitted(s: Vm, t: nat, addr: nat, esp: nat, write: bool): Outcome
    requires Inv(s) && Present(s, Key(t, addr / PGSIZE))
  {
    if write && !s.pd[Key(t, addr / PGSIZE)].writable then PageFault(s, t, addr, esp, false) else Resumed(s)
  }

  /** The processor marks the page accessed, and dirty when it is written. */
  function Mark(s: Vm, k: Key, write: bool): Vm
    requires k in s.pd
  {
    s.(pd := s.pd[k := s.pd[k].(accessed := true, dirty := s.pd[k].dirty || write)])
  }

  /** Storing one byte in a present page. */
  function Store(s: Vm, k: Key, i: nat, b: Byte): Vm
    requires Inv(s) && Present(s, k) && i < PGSIZE
  {
    PresentFrame(s, k);
    var p := s.pd[k].kpage;
    Mark(s, k, true).(mem := s.mem[p := s.mem[p][i := b]])
  }

  lemma PresentFrame(s: Vm, k: Key)
    requires Inv(s) && Present(s, k)
    ensures k in s.spt && s.spt[k].status == Memory(s.pd[k].kpage)
    ensures s.pd[k].kpage < |s.mem| && |s.mem[s.pd[k].kpage]| == PGSIZE
    ensures s.pd[k].writable == s.spt[k].writable
  {
    hide SwapSized, SwapOk, BackedOk, ProtectedOk;
  }

  lemma MarkKeepsInv(s: Vm, k: Key, write: bool)
    requires Inv(s) && Present(s, k)
    ensures Inv(Mark(s, k, write))
  {
    hide PoolOk, TableOk, OwnersOk, NonePinned, SwapSized, SwapOk, BackedOk, ProtectedOk;
  }

  lemma StoreKeepsInv(s: Vm, k: Key, i: nat, b: Byte)
    requires Inv(s) && Present(s, k) && i < PGSIZE
    ensures Inv(Store(s, k, i, b))
  {
    hide TableOk, OwnersOk, NonePinned, DirectoryOk, SwapSized, SwapOk, BackedOk, ProtectedOk;
    PresentFrame(s, k);
    MarkKeepsInv(s, k, true);
  }

  /** Marking a page accessed changes nothing a user can see. */
  lemma MarkKept(s: Vm, k: Key, j: Key)
    requires Inv(s) && Present(s, k) && j in s.spt && Synced(s, j)
    ensures Inv(Mark(s, k, false)) && Kept(s, Mark(s, k, false), j)
  {
    hide PoolOk, TableOk, OwnersOk, NonePinned, DirectoryOk, SwapSized, SwapOk, BackedOk, ProtectedOk, Image, Slot;
    MarkKeepsInv(s, k, false);
    EntryIsOk(s, j);
    if s.spt[j].status.Memory? {
      ResidentFrame(s, j);
      PoolSizes(s);
    }
    KeptByFields(s, Mark(s, k, false), j);
  }

  lemma StoreOthers(s: Vm, k: Key, i: nat, b: Byte, j: Key)
    requires Inv(s) && Present(s, k) && i < PGSIZE && j in s.spt && j != k && Synced(s, j)
    ensures Inv(Store(s, k, i, b)) && Kept(s, Store(s, k, i, b), j)
  {
    hide PoolOk, TableOk, OwnersOk, NonePinned, DirectoryOk, SwapSized, SwapOk, BackedOk, ProtectedOk, Image, Slot;
    StoreKeepsInv(s, k, i, b);
    PresentFrame(s, k);
    EntryIsOk(s, j);
    ResidentFrame(s, k);
    if s.spt[j].status.Memory? {
      ResidentFrame(s, j);
      PoolSizes(s);
    }
    KeptByFields(s, Store(s, k, i, b), j);
  }

  lemma StoredView(s: Vm, k: Key, i: nat, b: Byte)
    requires Inv(s) && Present(s, k) && i < PGSIZE
    ensures Inv(Store(s, k, i, b)) && k in s.spt && Store(s, k, i, b).spt == s.spt
    ensures View(Store(s, k, i, b), k) == View(s, k)[i := b] && Synced(Store(s, k, i, b), k)
  {
    hide TableOk, OwnersOk, NonePinned, DirectoryOk, SwapSized, SwapOk, BackedOk, ProtectedOk, Image, Slot;
    StoreKeepsInv(s, k, i, b);
    PresentFrame(s, k);
  }

  /** A rights violation ends the process and changes nothing else. */
  lemma PermittedEnds(s: Vm, t: nat, addr: nat, esp: nat, write: bool)
    requires Inv(s) && Present(s, Key(t, addr / PGSIZE))
    ensures var r := Permitted(s, t, addr, esp, write);
            !r.Panic? && r.vm == s && (r.Killed? <==> write && !s.spt[Key(t, addr / PGSIZE)].writable)
  {
    hide PoolOk, TableOk, OwnersOk, NonePinned, DirectoryOk, SwapSized, SwapOk, BackedOk, ProtectedOk, FreshPage,
      LazyToMemory, SwapToMemory, StackAccess;
    PresentFrame(s, Key(t, addr / PGSIZE));
  }

  /** The keys in danger in an access of thread t at addr. */
  predicate AtRisk(s: Vm, t: nat, addr: nat, esp: nat, j: Key)
    requires Inv(s)
  {
    !Present(s, Key(t, addr / PGSIZE)) && Danger(s, t, addr, esp, j)
  }

  lemma ReadyKept(s: Vm, t: nat, addr: nat, esp: nat, write: bool, j: Key)
    requires Inv(s) && j in s.spt && Synced(s, j) && !AtRisk(s, t, addr, esp, j)
    ensures var r := Ready(s, t, addr, esp, write); !r.Panic? ==> Inv(r.vm) && Kept(s, r.vm, j)
  {
    hide Inv, View, Synced, PageFault, Danger, Permitted, Present;
    var k := Key(t, addr / PGSIZE);
    if Present(s, k) {
      PermittedEnds(s, t, addr, esp, write);
      KeptItself(s, j);
    } else {
      PageFaultKept(s, t, addr, esp, true, j);
      PageFaultBringsIn(s, t, addr, esp);
      if PageFault(s, t, addr, esp, true).Resumed? {
        PermittedEnds(PageFault(s, t, addr, esp, true).vm, t, addr, esp, write);
      }
    }
  }

  lemma KeptItself(s: Vm, j: Key)
    requires Inv(s) && j in s.spt && Synced(s, j)
    ensures Kept(s, s, j)
  {
  }

  /** After the checks the page is there, permitted, and new pages are zero. */
  lemma ReadyBringsIn(s: Vm, t: nat, addr: nat, esp: nat, write: bool)
    requires Inv(s)
    ensures var r := Ready(s, t, addr, esp, write); var k := Key(t, addr / PGSIZE);
            r.Resumed? ==> Inv(r.vm) && r.vm.spt.Keys == s.spt.Keys + {k} && Present(r.vm, k)
                           && (write ==> r.vm.spt[k].writable)
                           && (k !in s.spt ==> View(r.vm, k) == Filled(0) && !r.vm.spt[k].mmap)
                           && (k in s.spt ==> SameEntry(s.spt[k], r.vm.spt[k]))
    ensures var r := Ready(s, t, addr, esp, write);
            r.Killed? ==> Inv(r.vm) && r.vm.spt.Keys == s.spt.Keys
  {
    hide Inv, View, Synced, PageFault, Permitted, Present;
    var k := Key(t, addr / PGSIZE);
    if Present(s, k) {
      PermittedEnds(s, t, addr, esp, write);
      PresentFrame(s, k);
    } else {
      PageFaultBringsIn(s, t, addr, esp);
      if PageFault(s, t, addr, esp, true).Resumed? {
        PermittedEnds(PageFault(s, t, addr, esp, true).vm, t, addr, esp, write);
      }
    }
  }
}
