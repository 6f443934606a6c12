/** A run from boot in which a load reads the wrong page of a mapped file, in a user pool of
    three frames. */
module PagingHazardRun {
  import opened Paging
  import opened PagingInvariant
  import opened PagingSteps
  import opened PagingClock
  import opened PagingViews
  import opened PagingTransparency
  import opened PagingAccess
  import opened PagingEvolution
  import opened PagingFlat
  import opened PagingMachine
  import opened PagingRuns
  import opened PagingMapped
  import opened PagingMappings
  import opened PagingHazards
  import opened Loading
  import E = Elf

  // ---- what the clock sees ------------------------------------------------------------------------------

  /** The tables without the contents of pages and files. */
  datatype Tables = Tables(table: seq<nat>, hand: Hand, used: seq<bool>, frames: map<nat, Frame>, pd: map<Key, Pte>,
                           spt: map<Key, Spte>, swapMap: seq<bool>)

  function Of(s: Vm): Tables {
    Tables(s.table, s.hand, s.used, s.frames, s.pd, s.spt, s.swapMap)
  }

  /** Page k enters frame p. */
  function Enters(c: Tables, k: Key, e: Spte, p: nat): Tables
    requires p < |c.used|
  {
    c.(used := c.used[p := true], table := c.table + [p], frames := c.frames[p := Frame(k, false)],
       pd := c.pd[k := Pte(p, true, e.writable, false, false)], spt := c.spt[k := e.(status := Memory(p))])
  }

  /** Page k is accessed. */
  function Marks(c: Tables, k: Key, write: bool): Tables
    requires k in c.pd
  {
    c.(pd := c.pd[k := c.pd[k].(accessed := true, dirty := c.pd[k].dirty || write)])
  }

  /** Page v leaves frame p for a swap slot, and the pages passed by lose their accessed bits. */
  function Swaps(c: Tables, v: Key, p: nat, passed: set<Key>, slot: nat): Tables
    requires p < |c.used| && p in c.table && v in c.spt && slot < |c.swapMap|
  {
    c.(used := c.used[p := false], table := Without(c.table, p), hand := NextNode(c.table, p), frames := c.frames - {p},
       pd := ClearPage(ClearAccessed(c.pd, passed), v), spt := c.spt[v := c.spt[v].(status := Swap(slot))],
       swapMap := c.swapMap[slot := true])
  }

  lemma EntersFrame(s: Vm, k: Key, e: Spte, content: Bytes, p: nat)
    requires HasFreePage(s) && |s.mem| == |s.used| && First(s.used, false) == p
    ensures p < |s.used| && Of(Enter(s, k, e, content)) == Enters(Of(s), k, e, p)
    ensures Enter(s, k, e, content).files == s.files && Enter(s, k, e, content).inodes == s.inodes
  {
    hide First;
  }

  lemma FreshWithRoom(s: Vm, k: Key, p: nat)
    requires Inv(s) && HasFreePage(s) && k !in s.spt && First(s.used, false) == p
    ensures var r := FreshPage(s, k);
            && r.Resumed? && p < |s.used| && Of(r.vm) == Enters(Of(s), k, ANONYMOUS, p)
            && r.vm.files == s.files && r.vm.inodes == s.inodes
  {
    hide Inv, First, Enter, Filled;
    InvPool(s);
    EntersFrame(s, k, ANONYMOUS, Filled(0), p);
  }

  lemma InvPool(s: Vm)
    requires Inv(s)
    ensures |s.mem| == |s.used|
  {
  }

  /** The load of a page whose bytes are there, with room or after an eviction. */
  lemma ReadsIn(s: Vm, k: Key, p: nat)
    requires Inv(s) && HasFreePage(s) && k in s.spt && s.spt[k].status.Lazy? && First(s.used, false) == p
    requires var e := s.spt[k];
             && e.file in s.files && s.files[e.file].inode in s.inodes && s.files[e.file].pos == e.offset
             && e.offset + e.readBytes <= |s.inodes[s.files[e.file].inode]|
    ensures var r := ReadIn(s, k);
            && r.Resumed? && p < |s.used| && Of(r.vm) == Enters(Of(s), k, s.spt[k], p)
            && SameFiles(s.files, r.vm.files) && r.vm.inodes == s.inodes
  {
    hide PoolOk, TableOk, OwnersOk, NonePinned, DirectoryOk, SwapSized, SwapOk, BackedOk, ProtectedOk, First, Enter,
      Image, Transfer;
    EntryIsOk(s, k);
    PoolSizes(s);
    var e := s.spt[k];
    var file := s.files[e.file];
    var s' := s.(files := Seek(s.files, e.file, file.pos + e.readBytes));
    EntersFrame(s', k, e, Image(s.inodes[file.inode], file.pos, e.readBytes), p);
  }

  lemma LoadsWithRoom(s: Vm, k: Key, p: nat)
    requires Inv(s) && HasFreePage(s) && k in s.spt && s.spt[k].status.Lazy? && First(s.used, false) == p
    requires var e := s.spt[k];
             && e.file in s.files && s.files[e.file].inode in s.inodes
             && e.offset + e.readBytes <= |s.inodes[s.files[e.file].inode]|
    ensures var r := LazyToMemory(s, k);
            && r.Resumed? && p < |s.used| && Of(r.vm) == Enters(Of(s), k, s.spt[k], p)
            && SameFiles(s.files, r.vm.files) && r.vm.inodes == s.inodes
  {
    hide PoolOk, TableOk, OwnersOk, NonePinned, DirectoryOk, SwapSized, SwapOk, BackedOk, ProtectedOk, First, ReadIn;
    EntryIsOk(s, k);
    SeekKeepsInv(s, s.spt[k].file, s.spt[k].offset);
    ReadsIn(Sought(s, k), k, p);
  }

  /** Evicting a page into the swap area. */
  lemma EvictsToSwap(s: Vm, p: nat, slot: nat)
    requires Inv(s) && !HasFreePage(s) && !s.spt[VictimKey(s)].mmap
    requires First(s.swapMap, false) == slot < |s.swapMap| && s.spt[VictimKey(s)].status == Memory(p)
    ensures p < |s.used| && p in s.table && ClockReady(s)
    ensures Evict(s).Resumed? && Of(Evict(s).vm) == Swaps(Of(s), VictimKey(s), p, SecondChances(s), slot)
    ensures Evict(s).vm.files == s.files && Evict(s).vm.inodes == s.inodes
  {
    hide PoolOk, TableOk, OwnersOk, NonePinned, DirectoryOk, SwapSized, SwapOk, BackedOk, ProtectedOk, ClearAccessed,
      SecondChances, First, VictimKey, Victim, Stored, Without, NextNode, ClearPage, Filled;
    ClockReadyWhenFull(s);
    ScannedKeepsInv(s);
    ResidentFrame(s, VictimKey(s));
    SwapOutSound(Scanned(s), VictimKey(s));
    VictimFrame(s, p);
  }

  lemma VictimFrame(s: Vm, p: nat)
    requires Inv(s) && !HasFreePage(s) && s.spt[VictimKey(s)].status == Memory(p)
    ensures Victim(s) == p
  {
    hide Inv, Victim;
  }

  lemma LoadsOverSwap(s: Vm, k: Key, p: nat, slot: nat)
    requires Inv(s) && !HasFreePage(s) && k in s.spt && s.spt[k].status.Lazy? && s.spt[k].mmap
    requires !s.spt[VictimKey(s)].mmap && s.spt[VictimKey(s)].status == Memory(p)
    requires First(s.swapMap, false) == slot < |s.swapMap|
    ensures p < |s.used| && p in s.table && ClockReady(s)
    ensures var c, r := Swaps(Of(s), VictimKey(s), p, SecondChances(s), slot), LazyToMemory(s, k);
            First(c.used, false) == p ==>
              r.Resumed? && Of(r.vm) == Enters(c, k, s.spt[k], p) && SameFiles(s.files, r.vm.files)
              && r.vm.inodes == s.inodes
  {
    hide PoolOk, TableOk, OwnersOk, NonePinned, DirectoryOk, SwapSized, SwapOk, BackedOk, ProtectedOk, Evict, First,
      VictimKey, SecondChances, Swaps, ReadIn, Enters;
    EntryIsOk(s, k);
    SeekKeepsInv(s, s.spt[k].file, s.spt[k].offset);
    var s0 := Sought(s, k);
    SameVictim(s, s0);
    SameChances(s, s0);
    EvictsToSwap(s0, p, slot);
    EvictsToSwapHere(s, p);
    EvictKeepsInv(s0);
    LoadPosition(s, k);
    MakeRoomKeepsOthers(s0, k);
    var s1 := Evict(s0).vm;
    if First(s1.used, false) == p {
      ReadsIn(s1, k, p);
    }
    SwapsUses(Of(s), VictimKey(s), p, SecondChances(s), slot);
  }

  lemma EvictsToSwapHere(s: Vm, p: nat)
    requires Inv(s) && !HasFreePage(s) && s.spt[VictimKey(s)].status == Memory(p)
    ensures p < |s.used| && p in s.table && ClockReady(s)
  {
    hide PoolOk, TableOk, OwnersOk, NonePinned, DirectoryOk, SwapSized, SwapOk, BackedOk, ProtectedOk, VictimKey;
    ClockReadyWhenFull(s);
    ResidentFrame(s, VictimKey(s));
  }

  lemma SwapsUses(c: Tables, v: Key, p: nat, passed: set<Key>, slot: nat)
    requires p < |c.used| && p in c.table && v in c.spt && slot < |c.swapMap|
    ensures Swaps(c, v, p, passed, slot).used == c.used[p := false]
  {
  }

  lemma SameChances(s: Vm, s': Vm)
    requires Inv(s) && Inv(s') && !HasFreePage(s) && !HasFreePage(s') && Of(s') == Of(s)
    ensures ClockReady(s) && ClockReady(s') && SecondChances(s') == SecondChances(s)
  {
    hide Inv, First;
    ClockReadyWhenFull(s);
    ClockReadyWhenFull(s');
    assert forall d: nat :: Around(s', d) == Around(s, d);
    assert Cold(s') == Cold(s) && Unpinned(s') == Unpinned(s);
  }

  /** All pages accessed, and the hand not on a frame: the victim is the first frame of the table,
      and all lose their accessed bits. */
  lemma AllAccessed(s: Vm)
    requires Inv(s) && !HasFreePage(s) && !s.hand.On? && (forall p | p in s.frames :: Accessed(s, s.frames[p].key))
    ensures ClockReady(s) && s.table[0] in s.frames && VictimKey(s) == s.frames[s.table[0]].key
    ensures SecondChances(s) == set p | p in s.frames :: s.frames[p].key
  {
    hide Inv, Accessed, First, VictimKey, SecondChances, PageAt, Before;
    ClockReadyWhenFull(s);
    forall i: nat | i < |s.table|
      ensures PageAt(s, 0, i) == s.frames[s.table[i]].key && Accessed(s, PageAt(s, 0, i))
    {
      PageInFront(s, i);
    }
    VictimIs(s, 0, |s.table|);
    AllBefore(s);
  }

  lemma PageInFront(s: Vm, i: nat)
    requires Inv(s) && ClockReady(s) && HandAt(s, 0) && i < |s.table|
    ensures PageAt(s, 0, i) == s.frames[s.table[i]].key
  {
    hide Inv;
  }

  lemma AllBefore(s: Vm)
    requires Inv(s) && ClockReady(s) && HandAt(s, 0)
    ensures Before(s, 0, |s.table|) == set p | p in s.frames :: s.frames[p].key
  {
    hide PoolOk, OwnersOk, NonePinned, DirectoryOk, SwapSized, SwapOk, BackedOk, ProtectedOk, PageAt;
    forall i: nat | i < |s.table| ensures PageAt(s, 0, i) == s.frames[s.table[i]].key {
      PageInFront(s, i);
    }
    forall p | p in s.frames ensures s.frames[p].key in Before(s, 0, |s.table|) {
      var i: nat :| i < |s.table| && s.table[i] == p;
      assert PageAt(s, 0, i) == s.frames[p].key;
    }
  }

  /** The hand on an accessed page, the next one not accessed: that is the victim. */
  lemma NextIsVictim(s: Vm)
    requires Inv(s) && !HasFreePage(s) && |s.table| > 1 && s.hand == On(s.table[0])
    requires s.table[0] in s.frames && s.table[1] in s.frames
    requires Accessed(s, s.frames[s.table[0]].key) && !Accessed(s, s.frames[s.table[1]].key)
    ensures VictimKey(s) == s.frames[s.table[1]].key
  {
    hide Inv, Accessed, VictimKey;
    VictimIs(s, 0, 1);
  }

  // ---- accesses --------------------------------------------------------------------------------------

  lemma ReadyPresent(s: Vm, t: nat, addr: nat, esp: nat, write: bool)
    requires Inv(s) && Present(s, Key(t, addr / PGSIZE)) && (write ==> s.pd[Key(t, addr / PGSIZE)].writable)
    ensures Ready(s, t, addr, esp, write) == Resumed(s)
  {
    hide Inv;
  }

  lemma ReadyLoads(s: Vm, t: nat, addr: nat, esp: nat, write: bool)
    requires var k := Key(t, addr / PGSIZE);
             && Inv(s) && k in s.spt && s.spt[k].status.Lazy? && (write ==> s.spt[k].writable)
             && LazyToMemory(s, k).Resumed?
    ensures var k := Key(t, addr / PGSIZE);
            Ready(s, t, addr, esp, write) == LazyToMemory(s, k) && Inv(LazyToMemory(s, k).vm)
            && Present(LazyToMemory(s, k).vm, k)
  {
    hide Inv, LazyToMemory, FreshPage, SwapToMemory, StackAccess, Present, Evolves;
    var k := Key(t, addr / PGSIZE);
    LazyIsAbsent(s, k);
    PageFaultBringsIn(s, t, addr, esp);
    LazyToMemoryEvolves(s, k);
    var s' := LazyToMemory(s, k).vm;
    PresentFrame(s', k);
    StaysWritable(s, s', k);
    ReadyPresent(s', t, addr, esp, write);
  }

  lemma StaysWritable(s: Vm, s': Vm, k: Key)
    requires Evolves(s, s') && k in s.spt
    ensures k in s'.spt && s'.spt[k].writable == s.spt[k].writable
  {
  }

  // ---- the machine -----------------------------------------------------------------------------------

  const STACK: Key := Key(1, STACK_PAGE)
  const CODE: Key := Key(1, 0x8048)
  const FIRST: Key := Key(1, 100)
  const SECOND: Key := Key(1, 101)
  const FOURTH: Key := Key(1, 103)

  /** An ELF header with one program header behind it: a page of code at 0x08048000. */
  const HEADERS: Bytes := [
    0x7f, 0x45, 0x4c, 0x46, 1, 1, 1, 0, 0, 0, 0, 0, 0, 0, 0, 0,
    2, 0, 3, 0, 1, 0, 0, 0, 0x54, 0x80, 0x04, 0x08, 52, 0, 0, 0, 0, 0, 0, 0, 0, 0, 0, 0,
    52, 0, 32, 0, 1, 0, 0, 0, 0, 0, 0, 0,
    1, 0, 0, 0, 0, 0, 0, 0, 0x00, 0x80, 0x04, 0x08, 0x00, 0x80, 0x04, 0x08,
    0x00, 0x10, 0, 0, 0x00, 0x10, 0, 0, 5, 0, 0, 0, 0x00, 0x10, 0, 0]

  function Program(): (d: Bytes)
    ensures |d| == PGSIZE
  {
    seq(PGSIZE, i requires 0 <= i => if i < |HEADERS| then HEADERS[i] else 0x90)
  }

  const LOAD: Load := Load(E.Header(0, 0x0804_8000, PGSIZE, PGSIZE), false)

  /** A file of four pages: zeros, ones, twos and threes. */
  function FourPages(): (d: Bytes)
    ensures |d| == 4 * PGSIZE
  {
    seq(4 * PGSIZE, i => if i < PGSIZE then 0 else if i < 2 * PGSIZE then 1 else if i < 3 * PGSIZE then 2 else 3)
  }

  /** Three frames, one swap slot, the program and the file. */
  function Boot(): Machine {
    Machine(Vm(map[], map[], map[], [], NoHand, [false, false, false], [Filled(0), Filled(0), Filled(0)], [false],
               seq(8, _ => seq(SECTOR, _ => 0)), map[], map[0 := Program(), 5 := FourPages()]), map[])
  }

  const START: Event := Exec(1, 10, 0, 84, map[0x8048 := Segment(0, PGSIZE, false)])
  const PUSH: Event := Write(1, STACK_PAGE * PGSIZE + 4092, STACK_PAGE * PGSIZE + 4092, 0)
  const FETCH: Event := Read(1, 0x8048 * PGSIZE, 0)
  const MAP: Event := Mmap(1, 11, 5, 100)
  const WRITE: Event := Write(1, 101 * PGSIZE, 0, 7)
  const READ: Event := Read(1, 100 * PGSIZE, 0)

  /** The files are as at boot; the process has its program open, and the mapping its file. */
  ghost predicate Disk(s: Vm) {
    && s.inodes == map[0 := Program(), 5 := FourPages()] && !Denied(s.files, 5)
    && 10 in s.files && s.files[10].inode == 0 && (11 in s.files ==> s.files[11].inode == 5)
  }

  ghost predicate At(m: Machine, c: Tables) {
    MachineOk(m) && 1 in m.exe && Of(m.vm) == c && Disk(m.vm)
  }

  lemma DiskStays(s: Vm, s': Vm)
    requires Disk(s) && SameFiles(s.files, s'.files) && s'.inodes == s.inodes
    ensures Disk(s')
  {
    hide Program, FourPages, Denied;
    SameDenied(s.files, s'.files, 5);
  }

  /** An access to a page that is there. */
  lemma ReadsThere(m: Machine, c: Tables, addr: nat, esp: nat)
    requires At(m, c) && Key(1, addr / PGSIZE) in c.pd && c.pd[Key(1, addr / PGSIZE)].present
    ensures var r := Step(m, Read(1, addr, esp)); r.Went? && At(r.machine, Marks(c, Key(1, addr / PGSIZE), false))
  {
    hide Inv, ExeOk, MapsOk, Ready, Program, FourPages, Denied;
    ReadyPresent(m.vm, 1, addr, esp, false);
    StepKeepsMachine(m, Read(1, addr, esp));
  }

  lemma WritesThere(m: Machine, c: Tables, addr: nat, esp: nat, b: Byte)
    requires var k := Key(1, addr / PGSIZE); At(m, c) && k in c.pd && c.pd[k].present && c.pd[k].writable
    ensures var r := Step(m, Write(1, addr, esp, b)); r.Went? && At(r.machine, Marks(c, Key(1, addr / PGSIZE), true))
  {
    hide Inv, ExeOk, MapsOk, Ready, Program, FourPages, Denied;
    ReadyPresent(m.vm, 1, addr, esp, true);
    StepKeepsMachine(m, Write(1, addr, esp, b));
  }

  /** The load of page k leads to the tables c. */
  ghost predicate Loads(s: Vm, k: Key, c: Tables)
    requires Inv(s) && k in s.spt && s.spt[k].status.Lazy?
  {
    var r := LazyToMemory(s, k);
    r.Resumed? && Of(r.vm) == c && SameFiles(s.files, r.vm.files) && r.vm.inodes == s.inodes
  }

  lemma ReadsLazy(m: Machine, c: Tables, addr: nat, esp: nat, c': Tables)
    requires var k := Key(1, addr / PGSIZE);
             At(m, c) && k in c.spt && c.spt[k].status.Lazy? && Loads(m.vm, k, c')
    ensures var k := Key(1, addr / PGSIZE); var r := Step(m, Read(1, addr, esp));
            k in c'.pd && r.Went? && At(r.machine, Marks(c', k, false))
  {
    hide Inv, ExeOk, MapsOk, Ready, LazyToMemory, Disk;
    ReadyLoads(m.vm, 1, addr, esp, false);
    StepKeepsMachine(m, Read(1, addr, esp));
    DiskStays(m.vm, Step(m, Read(1, addr, esp)).machine.vm);
  }

  lemma WritesLazy(m: Machine, c: Tables, addr: nat, esp: nat, b: Byte, c': Tables)
    requires var k := Key(1, addr / PGSIZE);
             At(m, c) && k in c.spt && c.spt[k].status.Lazy? && c.spt[k].writable && Loads(m.vm, k, c')
    ensures var k := Key(1, addr / PGSIZE); var r := Step(m, Write(1, addr, esp, b));
            k in c'.pd && r.Went? && At(r.machine, Marks(c', k, true))
  {
    hide Inv, ExeOk, MapsOk, Ready, LazyToMemory, Disk;
    ReadyLoads(m.vm, 1, addr, esp, true);
    StepKeepsMachine(m, Write(1, addr, esp, b));
    DiskStays(m.vm, Step(m, Write(1, addr, esp, b)).machine.vm);
  }

  // ---- the run -----------------------------------------------------------------------------------------

  const CODE_ENTRY: Spte := Spte(Lazy, 10, 0, PGSIZE, false, false)

  /** Page i of the mapping. */
  function Entry(i: nat): Spte { Spte(Lazy, 11, i * PGSIZE, PGSIZE, true, true) }

  /** The program has started; its stack page is in frame 0. */
  function Started1(): Tables {
    Tables([0], NoHand, [true, false, false], map[0 := Frame(STACK, false)],
           map[STACK := Pte(0, true, true, false, false)],
           map[STACK := ANONYMOUS, CODE := CODE_ENTRY], [false])
  }

  /** It has pushed a word. */
  function Pushed2(): Tables { Marks(Started1(), STACK, true) }

  /** Its code is in frame 1. */
  function Fetched3(): Tables {
    Tables([0, 1], NoHand, [true, true, false], map[0 := Frame(STACK, false), 1 := Frame(CODE, false)],
           map[STACK := Pte(0, true, true, true, true), CODE := Pte(1, true, false, true, false)],
           map[STACK := ANONYMOUS, CODE := CODE_ENTRY.(status := Memory(1))], [false])
  }

  /** The file is mapped. */
  function Mapped4(): Tables {
    Fetched3().(spt := map[STACK := ANONYMOUS, CODE := CODE_ENTRY.(status := Memory(1)), FIRST := Entry(0),
                           SECOND := Entry(1), Key(1, 102) := Entry(2), FOURTH := Entry(3)])
  }

  /** The second page of the mapping is dirty in frame 2. */
  function Written5(): Tables {
    Tables([0, 1, 2], NoHand, [true, true, true],
           map[0 := Frame(STACK, false), 1 := Frame(CODE, false), 2 := Frame(SECOND, false)],
           map[STACK := Pte(0, true, true, true, true), CODE := Pte(1, true, false, true, false),
               SECOND := Pte(2, true, true, true, true)],
           Mapped4().spt[SECOND := Entry(1).(status := Memory(2))], [false])
  }

  /** The first page has taken the stack page's frame; the others have lost their accessed bits. */
  function Read6(): Tables {
    Tables([1, 2, 0], On(1), [true, true, true],
           map[0 := Frame(FIRST, false), 1 := Frame(CODE, false), 2 := Frame(SECOND, false)],
           map[STACK := Pte(0, false, true, false, true), CODE := Pte(1, true, false, false, false),
               SECOND := Pte(2, true, true, false, true), FIRST := Pte(0, true, true, true, false)],
           Written5().spt[STACK := ANONYMOUS.(status := Swap(0))][FIRST := Entry(0).(status := Memory(0))], [true])
  }

  /** The code has been accessed again. */
  function Fetched7(): Tables { Marks(Read6(), CODE, false) }

  lemma BootIsBooted()
    ensures Booted(Boot()) && MachineOk(Boot()) && Enabled(Boot(), START)
    ensures HasFreePage(Boot().vm) && First(Boot().vm.used, false) == 0
  {
    hide Program, FourPages, Filled, MachineOk;
    FirstIs([false, false, false], false, 0);
    BootedOk(Boot());
  }

  lemma StartImage()
    ensures ImagePages(1, 10, START.image) == map[CODE := CODE_ENTRY]
  {
  }

  lemma StartTables()
    requires MachineOk(Boot()) && Enabled(Boot(), START)
    ensures var r := Step(Boot(), START);
            && r.Went? && Of(r.machine.vm) == Started1() && r.machine.exe == map[1 := 10]
            && r.machine.vm.files == map[10 := OpenFile(0, 84, true)] && r.machine.vm.inodes == Boot().vm.inodes
  {
    hide MachineOk, FreshPage, Program, FourPages, ImagePages, First, HasFreePage, Booted, Filled, Started1, Enters;
    BootIsBooted();
    MachineIsGood(Boot());
    FreshWithRoom(Boot().vm, STACK, 0);
    StartImage();
    Started1Is();
  }

  lemma Started1Is()
    ensures var c := Enters(Of(Boot().vm), STACK, ANONYMOUS, 0);
            c.(spt := c.spt + map[CODE := CODE_ENTRY]) == Started1()
  {
    hide Program, FourPages, Filled;
    var c := Enters(Of(Boot().vm), STACK, ANONYMOUS, 0);
    assert c.used == [true, false, false] && c.table == [0];
    assert c.spt + map[CODE := CODE_ENTRY] == Started1().spt;
  }

  lemma DiskStarted(s: Vm)
    requires s.files == map[10 := OpenFile(0, 84, true)] && s.inodes == Boot().vm.inodes
    ensures Disk(s)
  {
    hide Program, FourPages, Filled;
  }

  lemma Start1()
    ensures MachineOk(Boot()) && Enabled(Boot(), START)
    ensures Step(Boot(), START).Went? && At(Step(Boot(), START).machine, Started1())
    ensures 11 !in Step(Boot(), START).machine.vm.files
  {
    hide MachineOk, Enabled, Step, Disk, Booted, Boot, Started1;
    BootIsBooted();
    StartTables();
    StepKeepsMachine(Boot(), START);
    DiskStarted(Step(Boot(), START).machine.vm);
  }

  lemma Push2(m: Machine)
    requires At(m, Started1())
    ensures Step(m, PUSH).Went? && At(Step(m, PUSH).machine, Pushed2())
  {
    hide At, Step;
    WritesThere(m, Started1(), STACK_PAGE * PGSIZE + 4092, STACK_PAGE * PGSIZE + 4092, 0);
  }

  lemma AtIs(m: Machine, c: Tables)
    requires At(m, c)
    ensures Inv(m.vm) && Of(m.vm) == c && Disk(m.vm)
  {
  }

  lemma ProgramLength(s: Vm)
    requires Disk(s)
    ensures 10 in s.files && s.files[10].inode in s.inodes && |s.inodes[s.files[10].inode]| == PGSIZE
    ensures 11 in s.files ==> s.files[11].inode in s.inodes && |s.inodes[s.files[11].inode]| == 4 * PGSIZE
  {
    hide Program, FourPages, Denied;
  }

  lemma Fetch3(m: Machine)
    requires At(m, Pushed2())
    ensures Step(m, FETCH).Went? && At(Step(m, FETCH).machine, Fetched3())
  {
    hide At, Step, Inv, Disk, LazyToMemory, First, Enters, Marks, Fetched3;
    AtIs(m, Pushed2());
    Pushed2Is();
    ProgramLength(m.vm);
    FirstIs(m.vm.used, false, 1);
    LoadsWithRoom(m.vm, CODE, 1);
    ReadsLazy(m, Pushed2(), 0x8048 * PGSIZE, 0, Enters(Pushed2(), CODE, CODE_ENTRY, 1));
    Fetched3Is();
  }

  lemma Pushed2Is()
    ensures var c := Pushed2();
            && c.used == [true, false, false] && CODE in c.spt && c.spt[CODE] == CODE_ENTRY
            && CODE in Enters(c, CODE, CODE_ENTRY, 1).pd
  {
  }

  lemma Fetched3Is()
    ensures CODE in Enters(Pushed2(), CODE, CODE_ENTRY, 1).pd
    ensures Marks(Enters(Pushed2(), CODE, CODE_ENTRY, 1), CODE, false) == Fetched3()
  {
    var c := Enters(Pushed2(), CODE, CODE_ENTRY, 1);
    assert c.table == [0, 1] && c.used == [true, true, false];
    assert c.spt == Fetched3().spt;
    assert c.frames == Fetched3().frames;
  }

  lemma MapEnabled(m: Machine)
    requires At(m, Fetched3())
    ensures 11 !in m.vm.files ==>
              && Enabled(m, MAP) && CanMap(m.vm, 1, 5, 100) && !Denied(m.vm.files, 5)
              && PageCount(|m.vm.inodes[5]|) == 4 && |m.vm.inodes[5]| == 4 * PGSIZE
  {
    hide MachineOk, FourPages, Program, Denied;
  }

  lemma MappingIs()
    ensures MappingPages(1, 11, 100, 4 * PGSIZE)
            == map[FIRST := Entry(0), SECOND := Entry(1), Key(1, 102) := Entry(2), FOURTH := Entry(3)]
  {
    assert PageCount(4 * PGSIZE) == 4;
    assert forall i: nat | i < 4 :: MappingPage(11, i, 4 * PGSIZE) == Entry(i);
  }

  lemma MappedTables(m: Machine)
    requires MachineOk(m) && Enabled(m, MAP) && CanMap(m.vm, 1, 5, 100) && |m.vm.inodes[5]| == 4 * PGSIZE
    ensures var s := Step(m, MAP).machine.vm;
            && Of(s) == Of(m.vm).(spt := m.vm.spt + MappingPages(1, 11, 100, 4 * PGSIZE))
            && s.files == m.vm.files[11 := OpenFile(5, 0, false)] && s.inodes == m.vm.inodes
    ensures Step(m, MAP).Went? && Step(m, MAP).machine.exe == m.exe
  {
    hide MachineOk, CanMap, MappingPages;
  }

  lemma Map4Is()
    ensures Fetched3().(spt := Fetched3().spt + MappingPages(1, 11, 100, 4 * PGSIZE)) == Mapped4()
  {
    hide MappingPages, Entry;
    MappingIs();
    assert Fetched3().spt + MappingPages(1, 11, 100, 4 * PGSIZE) == Mapped4().spt;
  }

  lemma DiskMapped(s: Vm, s': Vm)
    requires Disk(s) && 11 !in s.files && s'.files == s.files[11 := OpenFile(5, 0, false)] && s'.inodes == s.inodes
    ensures Disk(s')
  {
    hide Program, FourPages, Denied;
    NotDeniedNow(s.files, 11, 5);
  }

  lemma Map4(m: Machine)
    requires At(m, Fetched3()) && 11 !in m.vm.files
    ensures Enabled(m, MAP) && Step(m, MAP).Went? && At(Step(m, MAP).machine, Mapped4())
    ensures 11 in Step(m, MAP).machine.vm.files
  {
    hide MachineOk, Enabled, Step, Disk, CanMap, PageCount, MappingPages, Fetched3, Mapped4, Denied;
    MapEnabled(m);
    MappedTables(m);
    Map4Is();
    StepKeepsMachine(m, MAP);
    DiskMapped(m.vm, Step(m, MAP).machine.vm);
  }

  lemma Write5(m: Machine)
    requires At(m, Mapped4()) && 11 in m.vm.files
    ensures Step(m, WRITE).Went? && At(Step(m, WRITE).machine, Written5())
  {
    hide At, Step, Inv, Disk, LazyToMemory, First;
    AtIs(m, Mapped4());
    ProgramLength(m.vm);
    FirstIs(m.vm.used, false, 2);
    LoadsWithRoom(m.vm, SECOND, 2);
    WritesLazy(m, Mapped4(), 101 * PGSIZE, 0, 7, Enters(Mapped4(), SECOND, Entry(1), 2));
    assert Marks(Enters(Mapped4(), SECOND, Entry(1), 2), SECOND, true) == Written5();
  }

  lemma Passed5(m: Machine)
    requires At(m, Written5())
    ensures !HasFreePage(m.vm) && VictimKey(m.vm) == STACK && ClockReady(m.vm)
    ensures SecondChances(m.vm) == {STACK, CODE, SECOND}
  {
    hide At, Inv, Disk, First, VictimKey, SecondChances, ClockReady, Mapped4;
    AtIs(m, Written5());
    NoneFree(m.vm.used);
    AllAccessed(m.vm);
    ThreeKeys(STACK, CODE, SECOND);
  }

  lemma ThreeKeys(a: Key, b: Key, c: Key)
    ensures var frames := map[0 := Frame(a, false), 1 := Frame(b, false), 2 := Frame(c, false)];
            (set p | p in frames :: frames[p].key) == {a, b, c}
  {
    var frames := map[0 := Frame(a, false), 1 := Frame(b, false), 2 := Frame(c, false)];
    assert frames[0].key == a && frames[1].key == b && frames[2].key == c;
  }

  lemma NoneFree(b: seq<bool>)
    requires forall i | 0 <= i < |b| :: b[i]
    ensures First(b, false) == |b|
  {
  }

  /** The stack page is swapped out of frame 0. */
  function Swapped(): Tables { Swaps(Written5(), STACK, 0, {STACK, CODE, SECOND}, 0) }

  lemma SwappedIs()
    ensures var c := Swapped();
            && c.table == [1, 2] && c.hand == On(1) && c.used == [false, true, true] && c.swapMap == [true]
            && c.frames == map[1 := Frame(CODE, false), 2 := Frame(SECOND, false)]
            && c.pd == map[STACK := Pte(0, false, true, false, true), CODE := Pte(1, true, false, false, false),
                           SECOND := Pte(2, true, true, false, true)]
            && c.spt == Written5().spt[STACK := ANONYMOUS.(status := Swap(0))]
  {
    assert IndexOf([0, 1, 2], 0) == 0;
    SwappedEntries(STACK, CODE, SECOND);
  }

  lemma SwappedEntries(s: Key, c: Key, m: Key)
    requires s != c && s != m && c != m
    ensures ClearPage(ClearAccessed(map[s := Pte(0, true, true, true, true), c := Pte(1, true, false, true, false),
                                        m := Pte(2, true, true, true, true)], {s, c, m}), s)
            == map[s := Pte(0, false, true, false, true), c := Pte(1, true, false, false, false),
                   m := Pte(2, true, true, false, true)]
  {
  }

  lemma EntryIsWritable(i: nat)
    ensures Entry(i).writable
  {
  }

  lemma Read6Is()
    ensures Marks(Enters(Swapped(), FIRST, Entry(0), 0), FIRST, false) == Read6()
  {
    hide Swapped, Written5, Entry;
    SwappedIs();
    assert Entry(0).writable by { EntryIsWritable(0); }
    var c := Enters(Swapped(), FIRST, Entry(0), 0);
    assert c.used == [true, true, true] && c.table == [1, 2, 0] && c.hand == On(1) && c.swapMap == [true];
    assert c.frames == Read6().frames;
    assert c.spt == Read6().spt;
    assert c.pd[FIRST := Pte(0, true, true, true, false)] == Read6().pd;
  }

  lemma Read1(m: Machine)
    requires At(m, Written5()) && 11 in m.vm.files
    ensures Step(m, READ).Went? && At(Step(m, READ).machine, Read6())
  {
    hide At, Step, Inv, Disk, LazyToMemory, First, VictimKey, SecondChances, Swaps, Enters, Marks, Written5, Read6,
      ClockReady;
    AtIs(m, Written5());
    Written5Is();
    Passed5(m);
    FirstIs(m.vm.swapMap, false, 0);
    LoadsOverSwap(m.vm, FIRST, 0, 0);
    SwappedIs();
    FirstIs(Swapped().used, false, 0);
    ReadsLazy(m, Written5(), 100 * PGSIZE, 0, Enters(Swapped(), FIRST, Entry(0), 0));
    Read6Is();
  }

  lemma Written5Is()
    ensures var c := Written5();
            && c.swapMap == [false] && STACK in c.spt && c.spt[STACK] == ANONYMOUS
            && FIRST in c.spt && c.spt[FIRST] == Entry(0)
  {
    hide Entry;
  }

  lemma Fetch7(m: Machine)
    requires At(m, Read6())
    ensures Step(m, FETCH).Went? && At(Step(m, FETCH).machine, Fetched7())
  {
    hide At, Step;
    ReadsThere(m, Read6(), 0x8048 * PGSIZE, 0);
  }

  // ---- the wrong read --------------------------------------------------------------------------------

  lemma Victim7(m: Machine)
    requires At(m, Fetched7())
    ensures !HasFreePage(m.vm) && VictimKey(m.vm) == SECOND && Dirty(m.vm, SECOND)
  {
    hide At, Inv, Disk, First, VictimKey, Written5;
    AtIs(m, Fetched7());
    NoneFree(m.vm.used);
    NextIsVictim(m.vm);
  }

  lemma Entries7()
    ensures var spt := Fetched7().spt;
            && SECOND in spt && spt[SECOND] == Entry(1).(status := Memory(2))
            && FOURTH in spt && spt[FOURTH] == Entry(3)
  {
    hide Entry;
  }

  lemma WrongBytes(s: Vm)
    requires Inv(s) && SECOND in s.spt && s.spt[SECOND] == Entry(1).(status := Memory(2)) && !Denied(s.files, 5)
    requires 5 in s.inodes && s.inodes[5] == FourPages()
    ensures Image(WrittenBack(s, SECOND, 5), 2 * PGSIZE, PGSIZE)[0] == 2 && |WrittenBack(s, SECOND, 5)| == 4 * PGSIZE
  {
    hide NonePinned, DirectoryOk, SwapSized, SwapOk, BackedOk, ProtectedOk, Denied;
    ResidentFrame(s, SECOND);
    EntryIsOk(s, SECOND);
    PoolSizes(s);
    PageSize(s, 2);
    var data := FourPages();
    assert data[2 * PGSIZE] == 2;
    assert Overlay(data, PGSIZE, s.mem[2][..PGSIZE])[2 * PGSIZE] == data[2 * PGSIZE];
  }

  lemma LazyShows(s: Vm)
    requires Inv(s) && FOURTH in s.spt && s.spt[FOURTH] == Entry(3)
    requires 11 in s.files && s.files[11].inode == 5 && 5 in s.inodes && s.inodes[5] == FourPages()
    ensures View(s, FOURTH)[0] == 3
  {
    hide PoolOk, TableOk, OwnersOk, NonePinned, DirectoryOk, SwapSized, SwapOk, BackedOk, ProtectedOk;
  }

  lemma DiskIs(s: Vm)
    requires Disk(s)
    ensures 5 in s.inodes && s.inodes[5] == FourPages() && !Denied(s.files, 5)
    ensures 11 in s.files ==> s.files[11].inode == 5
  {
    hide Program, FourPages, Denied;
  }

  lemma LoadsWrong(s: Vm)
    requires Inv(s) && Disk(s) && 11 in s.files && !HasFreePage(s) && VictimKey(s) == SECOND && Dirty(s, SECOND)
    requires SECOND in s.spt && s.spt[SECOND] == Entry(1).(status := Memory(2))
    requires FOURTH in s.spt && s.spt[FOURTH] == Entry(3)
    ensures var r := LazyToMemory(s, FOURTH);
            r.Resumed? && Inv(r.vm) && FOURTH in r.vm.spt && View(r.vm, FOURTH)[0] == 2
    ensures LoadHazard(s, FOURTH)
  {
    hide Inv, Disk, First, VictimKey, Denied, Dirty, View, Image, WrittenBack, LazyToMemory, FourPages;
    DiskIs(s);
    assert LoadHazard(s, FOURTH);
    HazardLoads(s, FOURTH);
    WrongBytes(s);
  }

  lemma ReadIsWrong(m: Machine)
    requires At(m, Fetched7()) && 11 in m.vm.files
    ensures FOURTH in m.vm.spt && m.vm.spt[FOURTH] == Entry(3) && View(m.vm, FOURTH)[0] == 3
    ensures LoadHazard(m.vm, FOURTH)
    ensures DidRead(m, 1, 103 * PGSIZE, 0).Went? && DidRead(m, 1, 103 * PGSIZE, 0).read == [2]
  {
    hide Inv, ExeOk, MapsOk, Disk, Fetched7, VictimKey, Dirty, Present, First, LazyToMemory, View, LoadHazard, Ready,
      ByteAt;
    AtIs(m, Fetched7());
    Victim7(m);
    Entries7();
    DiskIs(m.vm);
    LazyShows(m.vm);
    LoadsWrong(m.vm);
    ReadyLoads(m.vm, 1, 103 * PGSIZE, 0, false);
    ByteIsShown(LazyToMemory(m.vm, FOURTH).vm, FOURTH, 0);
  }

  // ---- all together ----------------------------------------------------------------------------------

  lemma RunsOneMore(m: Machine, ev: Event, evs: seq<Event>)
    requires MachineOk(m) && Enabled(m, ev) && Step(m, ev).Went? && MachineOk(Step(m, ev).machine)
    requires Possible(Step(m, ev).machine, evs)
    ensures Possible(m, [ev] + evs) && After(m, [ev] + evs) == After(Step(m, ev).machine, evs)
  {
    hide MachineOk, Enabled, Step;
    assert ([ev] + evs)[0] == ev && ([ev] + evs)[1..] == evs;
  }

  lemma NoEvents(m: Machine)
    requires MachineOk(m)
    ensures Possible(m, []) && After(m, []) == m
  {
  }

  lemma AtMachine(m: Machine, c: Tables)
    requires At(m, c)
    ensures MachineOk(m)
  {
  }

  /** A file that a step does not open or close. */
  lemma FileStays(m: Machine, ev: Event, f: nat)
    requires MachineOk(m) && Enabled(m, ev) && Step(m, ev).Went? && (ev.Read? || ev.Write?)
    ensures f in Step(m, ev).machine.vm.files <==> f in m.vm.files
  {
    hide Inv, ExeOk, MapsOk, Evolves, DidRead, DidWrite;
    if ev.Read? { ReadEvolves(m, ev.t, ev.addr, ev.esp); } else { WriteEvolves(m, ev.t, ev.addr, ev.esp, ev.b); }
    SameOpen(m.vm, Step(m, ev).machine.vm, f);
  }

  lemma SameOpen(s: Vm, s': Vm, f: nat)
    requires Evolves(s, s')
    ensures f in s'.files <==> f in s.files
  {
  }

  const RUN: seq<Event> := [START, PUSH, FETCH, MAP, WRITE, READ, FETCH]

  lemma StartsRun() returns (m: Machine)
    ensures MachineOk(Boot()) && Enabled(Boot(), START) && Step(Boot(), START).Went?
    ensures MachineOk(Step(Boot(), START).machine)
    ensures Possible(Step(Boot(), START).machine, [PUSH, FETCH])
    ensures m == After(Step(Boot(), START).machine, [PUSH, FETCH]) && At(m, Fetched3()) && 11 !in m.vm.files
  {
    hide MachineOk, Enabled, Step, At, Possible, After, Fetched3;
    Start1();
    var m1 := Step(Boot(), START).machine;
    AtMachine(m1, Started1());
    AnyAccess(m1, PUSH);
    Push2(m1);
    FileStays(m1, PUSH, 11);
    var m2 := Step(m1, PUSH).machine;
    AtMachine(m2, Pushed2());
    AnyAccess(m2, FETCH);
    Fetch3(m2);
    FileStays(m2, FETCH, 11);
    m := Step(m2, FETCH).machine;
    AtMachine(m, Fetched3());
    NoEvents(m);
    RunsOneMore(m2, FETCH, []);
    RunsOneMore(m1, PUSH, [FETCH] + []);
    assert [PUSH] + ([FETCH] + []) == [PUSH, FETCH];
  }

  lemma AnyAccess(m: Machine, ev: Event)
    requires ev.Read? || ev.Write?
    ensures Enabled(m, ev)
  {
  }

  lemma EndsRun(m3: Machine) returns (m: Machine)
    requires At(m3, Fetched3()) && 11 !in m3.vm.files && MachineOk(m3)
    ensures Possible(m3, [MAP, WRITE, READ, FETCH]) && m == After(m3, [MAP, WRITE, READ, FETCH])
    ensures At(m, Fetched7()) && 11 in m.vm.files
  {
    hide MachineOk, Enabled, Step, At, Possible, After, Fetched3, Mapped4, Written5, Read6, Fetched7;
    Map4(m3);
    var m4 := Step(m3, MAP).machine;
    AtMachine(m4, Mapped4());
    AnyAccess(m4, WRITE);
    Write5(m4);
    FileStays(m4, WRITE, 11);
    var m5 := Step(m4, WRITE).machine;
    AtMachine(m5, Written5());
    AnyAccess(m5, READ);
    Read1(m5);
    FileStays(m5, READ, 11);
    var m6 := Step(m5, READ).machine;
    AtMachine(m6, Read6());
    AnyAccess(m6, FETCH);
    Fetch7(m6);
    FileStays(m6, FETCH, 11);
    m := Step(m6, FETCH).machine;
    AtMachine(m, Fetched7());
    NoEvents(m);
    RunsOneMore(m6, FETCH, []);
    RunsOneMore(m5, READ, [FETCH] + []);
    RunsOneMore(m4, WRITE, [READ] + ([FETCH] + []));
    RunsOneMore(m3, MAP, [WRITE] + ([READ] + ([FETCH] + [])));
    assert [MAP] + ([WRITE] + ([READ] + ([FETCH] + []))) == [MAP, WRITE, READ, FETCH];
  }

  lemma {:induction false} RunsOn(m: Machine, evs: seq<Event>, more: seq<Event>)
    requires MachineOk(m) && Possible(m, evs) && MachineOk(After(m, evs)) && Possible(After(m, evs), more)
    ensures Possible(m, evs + more) && After(m, evs + more) == After(After(m, evs), more)
    decreases |evs|
  {
    hide MachineOk, Enabled, Step;
    if evs == [] {
      assert evs + more == more;
    } else {
      StepKeepsMachine(m, evs[0]);
      assert (evs + more)[0] == evs[0] && (evs + more)[1..] == evs[1..] + more;
      RunsOn(Step(m, evs[0]).machine, evs[1..], more);
    }
  }

  /** The image that the run starts is what load makes of the program's header. */
  lemma ImageIsLoaded()
    ensures E.Words(LOAD.header) && E.Validate(LOAD.header, |Boot().vm.inodes[0]|)
    ensures IsImage(START.image, [LOAD])
  {
    hide Program, FourPages, Filled;
    assert FirstPage(LOAD) == 0x8048 && PageTotal(LOAD) == 1;
    assert SegmentAt(LOAD, 0x8048) == Segment(0, PGSIZE, false);
    assert [LOAD][0] == LOAD && Covers([LOAD][0], 0x8048);
  }

  /** A run from boot after which reading a byte of a mapped file returns another byte.  A program
      with a page of code starts, uses its stack, maps a file of four pages, writes the second
      one and reads the first one.  The file's last page has 3 in all its bytes; a read of its
      first byte then returns the 2 of the third page. */
  lemma LoadReadsWrongPage()
    ensures RunFromBoot(Boot(), RUN) && IsImage(START.image, [LOAD])
    ensures var m := Reached(Boot(), RUN);
            && 5 in m.vm.inodes && m.vm.inodes[5] == FourPages() && FourPages()[3 * PGSIZE] == 3
            && FOURTH in m.vm.spt && m.vm.spt[FOURTH] == Entry(3) && View(m.vm, FOURTH)[0] == 3
            && DidRead(m, 1, 103 * PGSIZE, 0).Went? && DidRead(m, 1, 103 * PGSIZE, 0).read == [2]
  {
    hide MachineOk, Enabled, Step, DidRead, View, Possible, After, At, Fetched3, Fetched7, IsImage, Disk, Entry, Booted,
      LoadHazard;
    var m3 := StartsRun();
    var m1 := Step(Boot(), START).machine;
    AtMachine(m3, Fetched3());
    var m := EndsRun(m3);
    RunsOn(m1, [PUSH, FETCH], [MAP, WRITE, READ, FETCH]);
    RunsOneMore(Boot(), START, [PUSH, FETCH] + [MAP, WRITE, READ, FETCH]);
    assert [START] + ([PUSH, FETCH] + [MAP, WRITE, READ, FETCH]) == RUN;
    BootIsBooted();
    ImageIsLoaded();
    AtIs(m, Fetched7());
    DiskIs(m.vm);
    ReadIsWrong(m);
  }
}
