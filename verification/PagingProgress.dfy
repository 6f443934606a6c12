/** When an access completes, when it kills the process, and when the kernel panics. */
module PagingProgress {
  import opened Paging
  import opened PagingInvariant
  import opened PagingSteps
  import opened PagingViews
  import opened PagingTransparency
  import opened PagingAccess
  import opened PagingEvolution

  /** A frame can be had: a page is free, or the clock's victim can go back to its file, or there
      is a free swap slot for it. */
  predicate RoomCanBeMade(s: Vm)
    requires Inv(s)
  {
    false in s.used || s.spt[VictimKey(s)].mmap || false in s.swapMap
  }

  /** The file has all the bytes that the page is to be filled with. */
  predicate Loadable(s: Vm, k: Key)
    requires Inv(s) && k in s.spt && s.spt[k].status.Lazy?
  {
    EntryIsOk(s, k);
    var e := s.spt[k];
    e.readBytes == 0 || e.offset + e.readBytes <= |s.inodes[s.files[e.file].inode]|
  }

  lemma FirstFinds(b: seq<bool>)
    ensures First(b, false) < |b| <==> false in b
  {
  }

  lemma MakesRoom(s: Vm)
    requires Inv(s)
    ensures MakeRoom(s).Panic? <==> !RoomCanBeMade(s)
    ensures !MakeRoom(s).Killed?
  {
    hide Inv, Evict, VictimKey, First;
    FirstFinds(s.used);
    FirstFinds(s.swapMap);
    if !HasFreePage(s) { EvictKeepsInv(s); }
  }

  /** The position of a file does not matter to the clock. */
  lemma SameRoom(s: Vm, s': Vm)
    requires Inv(s) && Inv(s') && s' == s.(files := s'.files)
    ensures RoomCanBeMade(s') <==> RoomCanBeMade(s)
  {
    hide Inv, VictimKey;
    FirstFinds(s.used);
    if !HasFreePage(s) { SameVictim(s, s'); }
  }

  /** spt_swap_to_memory needs a frame and nothing else. */
  lemma SwapsIn(s: Vm, k: Key)
    requires Inv(s) && k in s.spt && s.spt[k].status.Swap?
    ensures SwapToMemory(s, k).Panic? <==> !RoomCanBeMade(s)
    ensures !SwapToMemory(s, k).Killed?
  {
    hide Inv, MakeRoom, RoomCanBeMade, SwapIn;
    MakesRoom(s);
    MakeRoomKeepsInv(s);
    MakeRoomKeepsOthers(s, k);
  }

  lemma GetsFresh(s: Vm, k: Key)
    requires Inv(s) && k !in s.spt
    ensures FreshPage(s, k).Panic? <==> !RoomCanBeMade(s)
    ensures !FreshPage(s, k).Killed?
  {
    hide Inv, MakeRoom, RoomCanBeMade, Enter;
    MakesRoom(s);
    MakeRoomKeepsInv(s);
  }

  /** load_page outside the hazard fails if and only if the file is too short. */
  lemma Loads(s: Vm, k: Key)
    requires Inv(s) && k in s.spt && s.spt[k].status.Lazy?
    ensures LazyToMemory(s, k).Panic? <==> !RoomCanBeMade(s)
    ensures RoomCanBeMade(s) && !LoadHazard(s, k) ==> (LazyToMemory(s, k).Resumed? <==> Loadable(s, k))
  {
    hide PoolOk, TableOk, OwnersOk, NonePinned, DirectoryOk, SwapSized, SwapOk, BackedOk, ProtectedOk, MakeRoom,
      RoomCanBeMade, ReadIn, LoadHazard, Image;
    EntryIsOk(s, k);
    SeekKeepsInv(s, s.spt[k].file, s.spt[k].offset);
    var s0 := Sought(s, k);
    SameRoom(s, s0);
    MakesRoom(s0);
    MakeRoomKeepsInv(s0);
    MakeRoomKeepsOthers(s0, k);
    if MakeRoom(s0).Resumed? {
      var s1 := MakeRoom(s0).vm;
      MakeRoomEvolves(s0);
      LoadPosition(s, k);
      SameLength(s0, s1, k);
      ReadInKeepsInv(s1, k);
      if !LoadHazard(s, k) { ReadInKept(s1, k); }
    }
  }

  lemma SameLength(s: Vm, s': Vm, k: Key)
    requires Inv(s) && Inv(s') && Evolves(s, s') && k in s.spt && k in s'.spt && s'.spt[k] == s.spt[k]
             && s.spt[k].status.Lazy?
    ensures Loadable(s', k) <==> Loadable(s, k)
  {
    hide PoolOk, TableOk, OwnersOk, NonePinned, DirectoryOk, SwapSized, SwapOk, BackedOk, ProtectedOk;
    EntryIsOk(s, k);
    EntryIsOk(s', k);
  }

  // ---- accesses ------------------------------------------------------------------------------------------

  /** The handler finds no page and may not make one: outside the last 8 MB below 0xC0000000, or
      more than 32 bytes below the stack pointer. */
  lemma GrowthIs(addr: nat, esp: nat)
    requires esp < 0x1_0000_0000
    ensures StackAccess(addr, esp) <==> 0xBF80_0000 <= addr < 0xC000_0000 && 32 <= esp <= addr + 32
  {
  }

  /** A page that is in memory: the access completes unless it is a write that is not allowed. */
  lemma AccessResident(s: Vm, t: nat, addr: nat, esp: nat, write: bool)
    requires var k := Key(t, addr / PGSIZE); Inv(s) && k in s.spt && s.spt[k].status.Memory?
    ensures var k, r := Key(t, addr / PGSIZE), Ready(s, t, addr, esp, write);
            !r.Panic? && (r.Killed? <==> write && !s.spt[k].writable)
  {
    hide SwapSized, SwapOk, BackedOk, ProtectedOk, PoolOk, TableOk, OwnersOk, NonePinned, PageFault;
    PermittedEnds(s, t, addr, esp, write);
  }

  lemma NotResident(s: Vm, k: Key)
    requires Inv(s) && (k in s.spt ==> !s.spt[k].status.Memory?)
    ensures !Present(s, k)
  {
  }

  /** What follows once the page has been brought in. */
  lemma ThenPermitted(s: Vm, t: nat, addr: nat, esp: nat, write: bool)
    requires var k := Key(t, addr / PGSIZE); Inv(s) && (k in s.spt ==> !s.spt[k].status.Memory?)
    ensures var k, r, p := Key(t, addr / PGSIZE), Ready(s, t, addr, esp, write), PageFault(s, t, addr, esp, true);
            && (r.Panic? <==> p.Panic?)
            && (r.Killed? <==> p.Killed? || (p.Resumed? && k in s.spt && write && !s.spt[k].writable))
  {
    hide Inv, PageFault, Permitted, Present, View;
    NotResident(s, Key(t, addr / PGSIZE));
    PageFaultBringsIn(s, t, addr, esp);
    var p := PageFault(s, t, addr, esp, true);
    if p.Resumed? { PermittedEnds(p.vm, t, addr, esp, write); }
  }

  /** A page in the swap area is brought in whenever there is room, and never kills its process
      unless it is written and may not be. */
  lemma AccessSwapped(s: Vm, t: nat, addr: nat, esp: nat, write: bool)
    requires var k := Key(t, addr / PGSIZE); Inv(s) && k in s.spt && s.spt[k].status.Swap?
    ensures var k, r := Key(t, addr / PGSIZE), Ready(s, t, addr, esp, write);
            && (r.Panic? <==> !RoomCanBeMade(s))
            && (r.Killed? <==> RoomCanBeMade(s) && write && !s.spt[k].writable)
  {
    hide Inv, RoomCanBeMade, SwapToMemory, Ready;
    SwapsIn(s, Key(t, addr / PGSIZE));
    ThenPermitted(s, t, addr, esp, write);
  }

  /** A lazy page outside the hazard is loaded if there is room and the file has its bytes. */
  lemma AccessLazy(s: Vm, t: nat, addr: nat, esp: nat, write: bool)
    requires var k := Key(t, addr / PGSIZE); Inv(s) && k in s.spt && s.spt[k].status.Lazy? && !LoadHazard(s, k)
    ensures var k, r := Key(t, addr / PGSIZE), Ready(s, t, addr, esp, write);
            && (r.Panic? <==> !RoomCanBeMade(s))
            && (r.Killed? <==> RoomCanBeMade(s) && (!Loadable(s, k) || (write && !s.spt[k].writable)))
  {
    hide Inv, RoomCanBeMade, LazyToMemory, Ready, LoadHazard, Loadable;
    Loads(s, Key(t, addr / PGSIZE));
    ThenPermitted(s, t, addr, esp, write);
  }

  /** An address without a page gets one if it is in the last 8 MB of user memory and at most 32
      bytes below the stack pointer; otherwise the process is killed and nothing changes. */
  lemma AccessAbsent(s: Vm, t: nat, addr: nat, esp: nat, write: bool)
    requires Inv(s) && Key(t, addr / PGSIZE) !in s.spt && esp < 0x1_0000_0000
    ensures var r := Ready(s, t, addr, esp, write);
            if 0xBF80_0000 <= addr < 0xC000_0000 && 32 <= esp <= addr + 32
            then !r.Killed? && (r.Panic? <==> !RoomCanBeMade(s))
            else r == Killed(s)
  {
    hide Inv, RoomCanBeMade, FreshPage, Permitted, StackAccess;
    GrowthIs(addr, esp);
    GetsFresh(s, Key(t, addr / PGSIZE));
    ThenPermitted(s, t, addr, esp, write);
    NotResident(s, Key(t, addr / PGSIZE));
  }

  /** A mapped page lies inside its file. */
  lemma MappedIsLoadable(s: Vm, k: Key)
    requires Inv(s) && k in s.spt && s.spt[k].status.Lazy? && s.spt[k].mmap
    ensures Loadable(s, k)
  {
    hide PoolOk, TableOk, OwnersOk, NonePinned, DirectoryOk, SwapSized, SwapOk, BackedOk, ProtectedOk;
    EntryIsOk(s, k);
  }

  /** Pages that have been loaded once, and mapped pages: a read completes whenever a frame can be
      had, outside the hazard. */
  lemma ReadCompletes(s: Vm, t: nat, addr: nat, esp: nat)
    requires var k := Key(t, addr / PGSIZE);
             && Inv(s) && k in s.spt && !FromExecutable(s.spt[k]) && (s.spt[k].status.Lazy? ==> !LoadHazard(s, k))
    ensures var k, r := Key(t, addr / PGSIZE), Ready(s, t, addr, esp, false);
            !r.Killed? && (r.Panic? <==> !s.spt[k].status.Memory? && !RoomCanBeMade(s))
  {
    hide Inv, RoomCanBeMade, Ready, LoadHazard, Loadable;
    var k := Key(t, addr / PGSIZE);
    match s.spt[k].status {
      case Memory(_) => AccessResident(s, t, addr, esp, false);
      case Swap(_) => AccessSwapped(s, t, addr, esp, false);
      case Lazy => MappedIsLoadable(s, k); AccessLazy(s, t, addr, esp, false);
    }
  }
}
