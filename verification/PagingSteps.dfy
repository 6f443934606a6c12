/** The page-state transitions of src/vm/spt.c and the eviction of src/vm/frame.c, each
    shown to lead from a good state to a good state. */
module PagingSteps {
  import opened Paging
  import opened PagingInvariant

  /** Freeing a resident page's frame: everything but the new SPT's own conditions. */
  lemma LeaveKeepsCore(s: Vm, k: Key, spt': map<Key, Spte>)
    requires Sound(s) && NonePinned(s.frames) && DirectoryOk(s.pd, s.spt)
    requires k in s.spt && s.spt[k].status.Memory? && SameBut(s.spt, spt', k)
    requires k in spt' ==> !spt'[k].status.Memory?
    requires SwapOk(s.swapMap, spt')
    ensures Core(Drop(s, k).(spt := spt'))
    ensures First(Drop(s, k).used, false) < |s.used|
  {
    hide TableOk, DirectoryOk, SwapOk, OwnersOk, SameBut, Without, NextNode, ClearPage, Filled;
    var p := s.spt[k].status.kpage;
    assert p in s.table && p < |s.used| by { ResidentFrame(s, k); }
    FreeKeepsTable(s.table, s.frames, s.used, s.hand, p);
    LeaveKeepsOwners(s.frames, s.spt, spt', k);
    LeaveKeepsDirectory(s.pd, s.spt, spt', k);
    assert !Drop(s, k).used[p];
  }

  lemma LeaveKeepsInv(s: Vm, k: Key, spt': map<Key, Spte>)
    requires Sound(s) && NonePinned(s.frames) && DirectoryOk(s.pd, s.spt)
    requires k in s.spt && s.spt[k].status.Memory? && SameBut(s.spt, spt', k)
    requires k in spt' ==> !spt'[k].status.Memory?
    requires SwapOk(s.swapMap, spt') && BackedOk(spt', s.files, s.inodes) && ProtectedOk(spt', s.files)
    ensures Inv(Drop(s, k).(spt := spt'))
    ensures First(Drop(s, k).used, false) < |s.used|
  {
    hide PoolOk, TableOk, OwnersOk, NonePinned, DirectoryOk, SwapSized, SwapOk, BackedOk, ProtectedOk, SameBut;
    LeaveKeepsCore(s, k, spt');
  }

  lemma ResidentFrame(s: Vm, k: Key)
    requires Sound(s) && k in s.spt && s.spt[k].status.Memory?
    ensures s.spt[k].status.kpage in s.table && s.spt[k].status.kpage < |s.used|
    ensures s.spt[k].status.kpage in s.frames && s.frames[s.spt[k].status.kpage].key == k
  {
  }

  lemma EntryIsOk(s: Vm, k: Key)
    requires BackedOk(s.spt, s.files, s.inodes) && k in s.spt
    ensures EntryOk(s.spt[k], s.files, s.inodes)
  {
  }

  lemma ChangeOne(spt: map<Key, Spte>, k: Key, e: Spte)
    ensures SameBut(spt, spt[k := e], k)
  {
  }

  lemma FlushKeepsInv(s: Vm, k: Key)
    requires Inv(s) && k in s.spt && s.spt[k].mmap && s.spt[k].status.Memory?
    ensures Inv(Flush(s, k)) && Flush(s, k).spt == s.spt
  {
    FlushKeeps(s, k);
    hide PoolOk, TableOk, OwnersOk, NonePinned, DirectoryOk, SwapSized, SwapOk, BackedOk, ProtectedOk, SameFiles,
      SameLengths, Flush;
    FilesMove(s.spt, s.files, s.inodes, Flush(s, k).files, Flush(s, k).inodes);
  }

  lemma DropFiles(s: Vm, k: Key)
    requires Sound(s) && k in s.spt && s.spt[k].status.Memory?
    ensures Drop(s, k).files == s.files && Drop(s, k).inodes == s.inodes
  {
  }

  /** A mapped page whose content its file holds goes back to LAZY. */
  function Released(s: Vm, k: Key): Vm
    requires Inv(s) && k in s.spt && s.spt[k].mmap && s.spt[k].status.Memory?
  {
    Drop(s, k).(spt := s.spt[k := s.spt[k].(status := Lazy)])
  }

  lemma ReleasedKeepsInv(s: Vm, k: Key)
    requires Inv(s) && k in s.spt && s.spt[k].mmap && s.spt[k].status.Memory?
    ensures Inv(Released(s, k)) && HasFreePage(Released(s, k))
  {
    hide PoolOk, TableOk, OwnersOk, NonePinned, DirectoryOk, SwapSized, SwapOk, BackedOk, ProtectedOk, Drop, SameBut;
    var spt' := s.spt[k := s.spt[k].(status := Lazy)];
    ChangeOne(s.spt, k, spt'[k]);
    EntryIsOk(s, k);
    SwapUnaffected(s.swapMap, s.spt, spt', k);
    EntryMoves(s.spt, spt', s.files, s.inodes, k);
    LeaveKeepsInv(s, k, spt');
    DropSize(s, k);
  }

  lemma DropSize(s: Vm, k: Key)
    requires Sound(s) && k in s.spt && s.spt[k].status.Memory?
    ensures |Drop(s, k).used| == |s.used|
  {
  }

  /** spt_memory_to_lazy: write the page back if it is dirty, then give up the frame. */
  function ToLazy(s: Vm, k: Key): Vm
    requires Inv(s) && k in s.spt && s.spt[k].mmap && s.spt[k].status.Memory?
  {
    EntryIsOk(s, k);
    FlushKeepsInv(s, k);
    Released(Flush(s, k), k)
  }

  /** swap_out of a resident page's frame, into the first free slot. */
  function SwapOut(s: Vm, k: Key): Vm
    requires Inv(s) && k in s.spt && s.spt[k].status.Memory? && First(s.swapMap, false) < |s.swapMap|
  {
    var slot := First(s.swapMap, false);
    s.(swapMap := s.swapMap[slot := true], swapDev := Stored(s.swapDev, slot, s.mem[s.spt[k].status.kpage]))
  }

  lemma SwapOutSound(s: Vm, k: Key)
    requires Inv(s) && k in s.spt && s.spt[k].status.Memory? && First(s.swapMap, false) < |s.swapMap|
    ensures Sound(SwapOut(s, k))
  {
    hide TableOk, OwnersOk, NonePinned, DirectoryOk, SwapOk, BackedOk, ProtectedOk;
    ResidentFrame(s, k);
  }

  /** spt_memory_to_swap, when a swap slot is free. */
  function ToSwap(s: Vm, k: Key): Vm
    requires Inv(s) && k in s.spt && s.spt[k].status.Memory? && First(s.swapMap, false) < |s.swapMap|
  {
    SwapOutSound(s, k);
    Drop(SwapOut(s, k), k).(spt := s.spt[k := s.spt[k].(status := Swap(First(s.swapMap, false)))])
  }

  lemma ToSwapKeepsInv(s: Vm, k: Key)
    requires Inv(s) && k in s.spt && !s.spt[k].mmap && s.spt[k].status.Memory?
    requires First(s.swapMap, false) < |s.swapMap|
    ensures Inv(ToSwap(s, k)) && HasFreePage(ToSwap(s, k))
  {
    hide PoolOk, TableOk, OwnersOk, NonePinned, DirectoryOk, SwapSized, SwapOk, BackedOk, ProtectedOk, Drop, Stored,
      First, SameBut;
    SwapOutSound(s, k);
    var slot := First(s.swapMap, false);
    var s1 := SwapOut(s, k);
    var spt' := s.spt[k := s.spt[k].(status := Swap(slot))];
    ChangeOne(s.spt, k, spt'[k]);
    EntryIsOk(s, k);
    SwapGains(s.swapMap, s.spt, k, spt'[k], slot);
    EntryMoves(s.spt, spt', s.files, s.inodes, k);
    LeaveKeepsInv(s1, k, spt');
    DropSize(s1, k);
  }

  // ---- eviction -------------------------------------------------------------------------------

  /** How a kernel operation can end: normally, by killing the process, or in a panic. */
  datatype Outcome = Resumed(vm: Vm) | Killed(vm: Vm) | Panic

  lemma ClockReadyWhenFull(s: Vm)
    requires Inv(s) && !HasFreePage(s)
    ensures ClockReady(s)
  {
    assert s.used[0];
    assert 0 in s.table;
  }

  /** The clock's victim. */
  function Victim(s: Vm): (p: nat)
    requires Inv(s) && !HasFreePage(s)
    ensures p in s.frames && s.frames[p].key in s.spt && s.spt[s.frames[p].key].status == Memory(p)
  {
    ClockReadyWhenFull(s);
    Around(s, VictimDistance(s))
  }

  function VictimKey(s: Vm): (k: Key)
    requires Inv(s) && !HasFreePage(s)
    ensures k in s.spt && s.spt[k].status == Memory(Victim(s))
  {
    s.frames[Victim(s)].key
  }

  /** After the clock's scan: passed-over pages have lost their accessed bit, and the hand
      is on the victim. */
  function Scanned(s: Vm): Vm
    requires Inv(s) && !HasFreePage(s)
  {
    ClockReadyWhenFull(s);
    s.(pd := ClearAccessed(s.pd, SecondChances(s)), hand := On(Victim(s)))
  }

  lemma ScannedKeepsInv(s: Vm)
    requires Inv(s) && !HasFreePage(s)
    ensures Inv(Scanned(s))
  {
    hide PoolOk, OwnersOk, NonePinned, SwapSized, SwapOk, BackedOk, ProtectedOk, SecondChances, First;
    assert Victim(s) in s.frames;
  }

  /** evict_frame */
  function Evict(s: Vm): Outcome
    requires Inv(s) && !HasFreePage(s)
  {
    ScannedKeepsInv(s);
    var k := VictimKey(s);
    if s.spt[k].mmap then Resumed(ToLazy(Scanned(s), k))
    else if First(s.swapMap, false) < |s.swapMap| then Resumed(ToSwap(Scanned(s), k))
    else Panic
  }

  /** Eviction leads to a good state with a page to spare, so frame_alloc's second try succeeds. */
  lemma EvictKeepsInv(s: Vm)
    requires Inv(s) && !HasFreePage(s)
    ensures Evict(s).Resumed? ==> Inv(Evict(s).vm) && HasFreePage(Evict(s).vm)
    ensures !Evict(s).Killed?
    ensures Evict(s).Panic? <==> !s.spt[VictimKey(s)].mmap && First(s.swapMap, false) == |s.swapMap|
  {
    hide PoolOk, TableOk, OwnersOk, NonePinned, DirectoryOk, SwapSized, SwapOk, BackedOk, ProtectedOk, Drop, Flush,
      ClearAccessed, SecondChances, First;
    ScannedKeepsInv(s);
    var k, s1 := VictimKey(s), Scanned(s);
    if s.spt[k].mmap {
      EntryIsOk(s1, k);
      FlushKeepsInv(s1, k);
      ReleasedKeepsInv(Flush(s1, k), k);
    } else if First(s.swapMap, false) < |s.swapMap| {
      ToSwapKeepsInv(s1, k);
    }
  }

  /** frame_alloc up to the point where a page is free. */
  function MakeRoom(s: Vm): Outcome
    requires Inv(s)
  {
    if HasFreePage(s) then Resumed(s) else Evict(s)
  }

  lemma MakeRoomKeepsInv(s: Vm)
    requires Inv(s)
    ensures !MakeRoom(s).Killed?
    ensures MakeRoom(s).Resumed? ==> Inv(MakeRoom(s).vm) && HasFreePage(MakeRoom(s).vm)
  {
    if !HasFreePage(s) {
      EvictKeepsInv(s);
    }
  }

  // ---- becoming resident --------------------------------------------------------------------

  /** A page enters the first free frame with the given content: frame_alloc, the load,
      pagedir_install_page and the new status, with the frame unpinned again. */
  function Enter(s: Vm, k: Key, e: Spte, content: Bytes): Vm
    requires HasFreePage(s) && |s.mem| == |s.used|
  {
    var p := First(s.used, false);
    s.(used := s.used[p := true],
       mem := s.mem[p := content],
       frames := s.frames[p := Frame(k, false)],
       table := s.table + [p],
       pd := s.pd[k := Pte(p, true, e.writable, false, false)],
       spt := s.spt[k := e.(status := Memory(p))])
  }

  lemma EnterKeepsInv(s: Vm, k: Key, e: Spte, content: Bytes)
    requires HasFreePage(s) && Sound(s) && NonePinned(s.frames) && DirectoryOk(s.pd, s.spt)
    requires BackedOk(s.spt, s.files, s.inodes) && ProtectedOk(s.spt, s.files)
    requires |content| == PGSIZE && (k in s.spt ==> !s.spt[k].status.Memory?)
    requires EntryOk(e, s.files, s.inodes) && (e.mmap ==> k in s.spt && s.spt[k].mmap && e.file == s.spt[k].file)
    requires SwapOk(s.swapMap, s.spt[k := e.(status := Memory(First(s.used, false)))])
    ensures Inv(Enter(s, k, e, content))
  {
    hide TableOk, OwnersOk, DirectoryOk, SwapSized, SwapOk, BackedOk, ProtectedOk, SameBut, First;
    var p := First(s.used, false);
    var e' := e.(status := Memory(p));
    assert p !in s.frames by { FreeIsUnframed(s, p); }
    TakeKeepsTable(s.table, s.frames, s.used, s.hand, p, Frame(k, false));
    EnterKeepsOwners(s.frames, s.spt, k, e', p, false);
    EnterKeepsDirectory(s.pd, s.spt, k, e', p);
    ChangeOne(s.spt, k, e');
    EntryMoves(s.spt, s.spt[k := e'], s.files, s.inodes, k);
  }

  lemma FreeIsUnframed(s: Vm, p: nat)
    requires Sound(s) && p < |s.used| && !s.used[p]
    ensures p !in s.frames
  {
  }

  // ---- page faults ----------------------------------------------------------------------------

  lemma SeekKeepsInv(s: Vm, f: nat, ofs: nat)
    requires Inv(s) && f in s.files
    ensures Inv(s.(files := Seek(s.files, f, ofs)))
  {
    hide PoolOk, TableOk, OwnersOk, NonePinned, DirectoryOk, SwapSized, SwapOk, BackedOk, ProtectedOk;
    FilesMove(s.spt, s.files, s.inodes, Seek(s.files, f, ofs), s.inodes);
  }

  /** load_page's file_seek, done before frame_alloc. */
  function Sought(s: Vm, k: Key): Vm
    requires Inv(s) && k in s.spt && s.spt[k].status.Lazy?
  {
    EntryIsOk(s, k);
    s.(files := Seek(s.files, s.spt[k].file, s.spt[k].offset))
  }

  /** load_page's file_read, done after frame_alloc, from wherever the position is by then.
      A short read gives the frame back and fails. */
  function ReadIn(s: Vm, k: Key): Outcome
    requires Inv(s) && HasFreePage(s) && k in s.spt && s.spt[k].status.Lazy?
  {
    EntryIsOk(s, k);
    var e := s.spt[k];
    var file := s.files[e.file];
    var data := s.inodes[file.inode];
    var n := Transfer(|data|, file.pos, e.readBytes);
    var s' := s.(files := Seek(s.files, e.file, file.pos + n));
    if n != e.readBytes then Killed(s'.(mem := s'.mem[First(s.used, false) := Filled(POISON)]))
    else Resumed(Enter(s', k, e, Image(data, file.pos, e.readBytes)))
  }

  /** The clock may evict, but the page being faulted in is not resident and keeps its entry. */
  lemma MakeRoomKeepsOthers(s: Vm, k: Key)
    requires Inv(s)
    ensures MakeRoom(s).Resumed? ==> MakeRoom(s).vm.spt.Keys == s.spt.Keys
    ensures MakeRoom(s).Resumed? && k in s.spt && !s.spt[k].status.Memory? ==> MakeRoom(s).vm.spt[k] == s.spt[k]
  {
    hide PoolOk, TableOk, OwnersOk, NonePinned, DirectoryOk, SwapSized, SwapOk, BackedOk, ProtectedOk, Drop, Flush,
      ClearAccessed, SecondChances, First;
    if !HasFreePage(s) {
      ScannedKeepsInv(s);
      if s.spt[VictimKey(s)].mmap {
        FlushKeepsInv(Scanned(s), VictimKey(s));
      }
    }
  }

  /** spt_lazy_to_memory */
  function LazyToMemory(s: Vm, k: Key): Outcome
    requires Inv(s) && k in s.spt && s.spt[k].status.Lazy?
  {
    EntryIsOk(s, k);
    SeekKeepsInv(s, s.spt[k].file, s.spt[k].offset);
    var s0 := Sought(s, k);
    MakeRoomKeepsInv(s0);
    MakeRoomKeepsOthers(s0, k);
    match MakeRoom(s0)
    case Resumed(s1) => ReadIn(s1, k)
    case other => other
  }

  /** spt_swap_to_memory: the slot is read and its bit cleared. */
  function SwapIn(s: Vm, k: Key): Vm
    requires Inv(s) && HasFreePage(s) && k in s.spt && s.spt[k].status.Swap?
  {
    var slot := s.spt[k].status.slot;
    Enter(s.(swapMap := s.swapMap[slot := false]), k, s.spt[k], Slot(s.swapDev, slot))
  }

  function SwapToMemory(s: Vm, k: Key): Outcome
    requires Inv(s) && k in s.spt && s.spt[k].status.Swap?
  {
    MakeRoomKeepsInv(s);
    MakeRoomKeepsOthers(s, k);
    match MakeRoom(s)
    case Resumed(s1) => Resumed(SwapIn(s1, k))
    case other => other
  }

  /** The entry of a page made by spt_initialize_as_memory, but for its frame; no file backs it. */
  const ANONYMOUS: Spte := Spte(Memory(0), 0, 0, 0, true, false)

  /** spt_initialize_as_memory: a fresh zeroed page. */
  function FreshPage(s: Vm, k: Key): Outcome
    requires Inv(s) && k !in s.spt
  {
    MakeRoomKeepsInv(s);
    match MakeRoom(s)
    case Resumed(s1) => Resumed(Enter(s1, k, ANONYMOUS, Filled(0)))
    case other => other
  }

  /** The stack-growth rule: within 8 MB of PHYS_BASE and at most 32 bytes below the stack
      pointer, with the subtraction wrapping as pointer arithmetic does. */
  predicate StackAccess(addr: nat, esp: nat) {
    PHYS_BASE - MAX_STACK_SIZE <= addr < PHYS_BASE && (esp - 32) % WORD <= addr
  }

  /** page_fault_handler */
  function PageFault(s: Vm, t: nat, addr: nat, esp: nat, notPresent: bool): Outcome
    requires Inv(s)
  {
    var k := Key(t, addr / PGSIZE);
    if !notPresent then Killed(s)
    else if k !in s.spt then
      if StackAccess(addr, esp) then FreshPage(s, k) else Killed(s)
    else match s.spt[k].status
      case Memory(_) => Killed(s)
      case Lazy => LazyToMemory(s, k)
      case Swap(_) => SwapToMemory(s, k)
  }

  lemma ScrapKeepsInv(s: Vm, p: nat)
    requires Inv(s) && p < |s.mem|
    ensures Inv(s.(mem := s.mem[p := Filled(POISON)]))
  {
    hide TableOk, OwnersOk, NonePinned, DirectoryOk, SwapSized, SwapOk, BackedOk, ProtectedOk;
  }

  lemma ReadInKeepsInv(s: Vm, k: Key)
    requires Inv(s) && HasFreePage(s) && k in s.spt && s.spt[k].status.Lazy?
    ensures !ReadIn(s, k).Panic? && Inv(ReadIn(s, k).vm)
  {
    hide PoolOk, TableOk, OwnersOk, NonePinned, DirectoryOk, SwapSized, SwapOk, BackedOk, ProtectedOk, SameBut, First,
      Image, Enter, Transfer;
    EntryIsOk(s, k);
    var e := s.spt[k];
    var file := s.files[e.file];
    var n := Transfer(|s.inodes[file.inode]|, file.pos, e.readBytes);
    SeekKeepsInv(s, e.file, file.pos + n);
    var s' := s.(files := Seek(s.files, e.file, file.pos + n));
    if n != e.readBytes {
      PoolSizes(s');
      ScrapKeepsInv(s', First(s.used, false));
    } else {
      var spt' := s.spt[k := e.(status := Memory(First(s.used, false)))];
      ChangeOne(s.spt, k, spt'[k]);
      SwapUnaffected(s.swapMap, s.spt, spt', k);
      EntryIsOk(s', k);
      EnterKeepsInv(s', k, e, Image(s.inodes[file.inode], file.pos, e.readBytes));
    }
  }

  lemma PoolSizes(s: Vm)
    requires Sound(s)
    ensures |s.mem| == |s.used|
  {
  }

  lemma SwapInKeepsInv(s: Vm, k: Key)
    requires Inv(s) && HasFreePage(s) && k in s.spt && s.spt[k].status.Swap?
    ensures Inv(SwapIn(s, k))
  {
    hide PoolOk, TableOk, OwnersOk, NonePinned, DirectoryOk, SwapOk, BackedOk, ProtectedOk, SameBut, First, Enter, Slot;
    var e := s.spt[k];
    var spt' := s.spt[k := e.(status := Memory(First(s.used, false)))];
    ChangeOne(s.spt, k, spt'[k]);
    SwapLoses(s.swapMap, s.spt, spt', k, e.status.slot);
    EntryIsOk(s, k);
    NotSwapped(s, k);
    EnterKeepsInv(s.(swapMap := s.swapMap[e.status.slot := false]), k, e, Slot(s.swapDev, e.status.slot));
  }

  lemma NotSwapped(s: Vm, k: Key)
    requires Inv(s) && k in s.spt && s.spt[k].status.Swap?
    ensures !s.spt[k].mmap
    ensures s.spt[k].status.slot < |s.swapMap| && s.swapMap[s.spt[k].status.slot]
  {
  }

  lemma FreshKeepsInv(s: Vm, k: Key)
    requires Inv(s) && HasFreePage(s) && k !in s.spt
    ensures Inv(Enter(s, k, ANONYMOUS, Filled(0)))
  {
    hide PoolOk, TableOk, OwnersOk, NonePinned, DirectoryOk, SwapSized, SwapOk, BackedOk, ProtectedOk, SameBut, First,
      Enter;
    var spt' := s.spt[k := ANONYMOUS.(status := Memory(First(s.used, false)))];
    ChangeOne(s.spt, k, spt'[k]);
    SwapUnaffected(s.swapMap, s.spt, spt', k);
    EnterKeepsInv(s, k, ANONYMOUS, Filled(0));
  }

  /** A page fault leads from a good state to a good state, whatever it ends in. */
  lemma PageFaultKeepsInv(s: Vm, t: nat, addr: nat, esp: nat, notPresent: bool)
    requires Inv(s)
    ensures !PageFault(s, t, addr, esp, notPresent).Panic? ==> Inv(PageFault(s, t, addr, esp, notPresent).vm)
  {
    hide PoolOk, TableOk, OwnersOk, NonePinned, DirectoryOk, SwapSized, SwapOk, BackedOk, ProtectedOk, Enter, ReadIn,
      SwapIn, MakeRoom, Filled;
    var k := Key(t, addr / PGSIZE);
    if notPresent && k in s.spt {
      match s.spt[k].status {
        case Memory(_) =>
        case Lazy =>
          EntryIsOk(s, k);
          SeekKeepsInv(s, s.spt[k].file, s.spt[k].offset);
          var s0 := Sought(s, k);
          MakeRoomKeepsInv(s0);
          MakeRoomKeepsOthers(s0, k);
          if MakeRoom(s0).Resumed? {
            ReadInKeepsInv(MakeRoom(s0).vm, k);
          }
        case Swap(_) =>
          MakeRoomKeepsInv(s);
          MakeRoomKeepsOthers(s, k);
          if MakeRoom(s).Resumed? {
            SwapInKeepsInv(MakeRoom(s).vm, k);
          }
      }
    } else if notPresent && StackAccess(addr, esp) {
      MakeRoomKeepsInv(s);
      MakeRoomKeepsOthers(s, k);
      if MakeRoom(s).Resumed? {
        FreshKeepsInv(MakeRoom(s).vm, k);
      }
    }
  }
}
