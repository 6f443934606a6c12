/** What a run keeps of mappings and page directories: a mapping always has all of its pages and
    no others, and only running processes have page table entries. */
module PagingMappings {
  import opened Basics
  import opened Paging
  import opened PagingInvariant
  import opened PagingSteps
  import opened PagingViews
  import opened PagingAccess
  import opened PagingEvolution
  import opened PagingTeardown
  import opened PagingMachine
  import opened PagingRuns
  import opened PagingMemory
  import opened PagingMapped
  import K = PagingKernel

  // ---- the invariants ---------------------------------------------------------------------------------

  /** Struct file f is mapped by thread t from page base on: each page of the file has its entry
      there, and no other page is mapped from f. */
  ghost predicate IsMapping(s: Vm, f: nat, t: nat, base: nat) {
    && f in s.files && s.files[f].inode in s.inodes
    && var length := |s.inodes[s.files[f].inode]|;
       && length > 0
       && (forall p: nat | base <= p < base + PageCount(length) ::
             Still(MappingPage(f, p - base, length), s, Key(t, p)))
       && (forall k | k in s.spt && s.spt[k].mmap && s.spt[k].file == f ::
             k.owner == t && base <= k.page < base + PageCount(length))
  }

  /** The first page of the mapping that page k is part of. */
  function BaseOf(k: Key, e: Spte): nat {
    if e.offset / PGSIZE <= k.page then k.page - e.offset / PGSIZE else 0
  }

  /** Every mapped page is part of a whole mapping. */
  ghost predicate Whole(s: Vm) {
    forall k | k in s.spt && s.spt[k].mmap :: IsMapping(s, s.spt[k].file, k.owner, BaseOf(k, s.spt[k]))
  }

  /** Page table entries are for pages or belong to running processes, and so do mappings. */
  ghost predicate Entered(m: Machine) {
    && (forall k | k in m.vm.pd :: k.owner in m.exe || k in m.vm.spt)
    && (forall k | k in m.vm.spt && m.vm.spt[k].mmap :: k.owner in m.exe)
  }

  // ---- what single events do -----------------------------------------------------------------------------

  lemma ReadEvolves(m: Machine, t: nat, addr: nat, esp: nat)
    requires MachineOk(m) && DidRead(m, t, addr, esp).Went?
    ensures Evolves(m.vm, DidRead(m, t, addr, esp).machine.vm) && DidRead(m, t, addr, esp).machine.exe == m.exe
  {
    hide Inv, ExeOk, MapsOk, Ready, Evolves, Present, Mark;
    ReadReady(m, t, addr, esp);
    ReadyEvolves(m.vm, t, addr, esp, false);
    ReadyBringsIn(m.vm, t, addr, esp, false);
    var r, k := Ready(m.vm, t, addr, esp, false), Key(t, addr / PGSIZE);
    if r.Resumed? {
      MarkedPresent(r.vm, k);
      MarkEvolves(r.vm, k, false);
      EvolvesTwice(m.vm, r.vm, Mark(r.vm, k, false));
    }
  }

  lemma WriteEvolves(m: Machine, t: nat, addr: nat, esp: nat, b: Byte)
    requires MachineOk(m) && DidWrite(m, t, addr, esp, b).Went?
    ensures Evolves(m.vm, DidWrite(m, t, addr, esp, b).machine.vm) && DidWrite(m, t, addr, esp, b).machine.exe == m.exe
  {
    hide Inv, ExeOk, MapsOk, Ready, Evolves, Present, Store;
    WriteSame(m, t, addr, esp, b);
    ReadyEvolves(m.vm, t, addr, esp, true);
    ReadyBringsIn(m.vm, t, addr, esp, true);
    var r, k := Ready(m.vm, t, addr, esp, true), Key(t, addr / PGSIZE);
    if r.Resumed? {
      StoreEvolves(r.vm, k, addr % PGSIZE, b);
      EvolvesTwice(m.vm, r.vm, Store(r.vm, k, addr % PGSIZE, b));
    }
  }

  /** Page table entries come with pages, and go with their process. */
  ghost predicate EntriesStay(s: Vm, s': Vm) {
    forall k | k in s'.pd :: k in s.pd || k in s'.spt
  }

  lemma EvolvedEntries(s: Vm, s': Vm)
    requires Evolves(s, s')
    ensures EntriesStay(s, s') && SameLengths(s.inodes, s'.inodes)
  {
  }

  lemma StartEntries(m: Machine, t: nat, f: nat, inode: nat, pos: nat, image: map<nat, Segment>)
    requires MachineOk(m) && Enabled(m, Exec(t, f, inode, pos, image)) && Started(m, t, f, inode, pos, image).Went?
    ensures EntriesStay(m.vm, Started(m, t, f, inode, pos, image).machine.vm)
    ensures SameLengths(m.vm.inodes, Started(m, t, f, inode, pos, image).machine.vm.inodes)
  {
    hide Inv, ExeOk, MapsOk, FreshPage, Evolves, SameLengths;
    StartReady(m, t, f, inode, pos, image);
    FreshEvolves(m.vm, Key(t, STACK_PAGE));
    EvolvedEntries(m.vm, FreshPage(m.vm, Key(t, STACK_PAGE)).vm);
  }

  lemma RemovedEntries(s: Vm, k: Key)
    requires Core(s) && k in s.spt
    ensures Removed(s, k).pd.Keys == s.pd.Keys
  {
    hide PoolOk, TableOk, OwnersOk, NonePinned, DirectoryOk, SwapOk, SwapSized, Drop;
    if s.spt[k].status.Memory? {
      DropEntries(s, k);
    }
  }

  lemma UnmappedEntries(s: Vm, k: Key)
    requires Core(s) && k in s.spt && s.spt[k].mmap && EntryOk(s.spt[k], s.files, s.inodes)
    ensures Unmapped(s, k).pd.Keys == s.pd.Keys
  {
    hide PoolOk, TableOk, OwnersOk, NonePinned, DirectoryOk, SwapOk, SwapSized, Removed, Flush, EntryOk;
    if s.spt[k].status.Memory? {
      FlushKeepsCore(s, k);
      FlushEffect(s, k);
      RemovedEntries(Flush(s, k), k);
    } else {
      RemovedEntries(s, k);
    }
  }

  lemma {:induction false} TornEntries(s: Vm, ks: seq<Key>)
    requires Unmappable(s, ks)
    ensures Torn(s, ks).pd.Keys == s.pd.Keys
    decreases |ks|
  {
    hide Core, Unmapped, Unmappable, Torn;
    UnfoldTorn(s, ks);
    if ks != [] {
      UnmappableHead(s, ks);
      UnmappedEntries(s, ks[0]);
      TornEntries(Unmapped(s, ks[0]), ks[1..]);
    }
  }

  lemma {:induction false} DestroyedEntries(s: Vm, ks: seq<Key>)
    requires Destroyable(s, ks)
    ensures Destroyed(s, ks).pd.Keys == s.pd.Keys
    decreases |ks|
  {
    hide Core, Removed;
    if ks != [] {
      DestroyNext(s, ks);
      RemovedEntries(s, ks[0]);
      DestroyedEntries(Removed(s, ks[0]), ks[1..]);
    }
  }

  lemma UnmapEntries(m: Machine, f: nat, pages: seq<Key>)
    requires MachineOk(m) && PagesOf(m.vm, f, pages) && pages != []
    ensures Unmap(m.vm, f, pages).pd.Keys == m.vm.pd.Keys && SameLengths(m.vm.inodes, Unmap(m.vm, f, pages).inodes)
  {
    hide Inv, ExeOk, MapsOk, Torn, Core, PagesOf, SameLengths;
    PagesUnmappable(m.vm, f, pages);
    TornKeeps(m.vm, pages);
    TornEntries(m.vm, pages);
  }

  lemma ExitEntries(m: Machine, t: nat, mapped: seq<Key>, rest: seq<Key>)
    requires MachineOk(m) && t in m.exe && PagesOfThread(m.vm, t, mapped, rest)
    ensures forall k | k in Exited(m, t, mapped, rest).vm.pd :: k in m.vm.pd && k.owner != t
    ensures SameLengths(m.vm.inodes, Exited(m, t, mapped, rest).vm.inodes)
  {
    hide Inv, ExeOk, MapsOk, Torn, Destroyed, Core, PagesOfThread, SameLengths, Unmappable, Destroyable;
    ExitProceeds(m, t, mapped, rest);
    TornEntries(Closed(m, t), mapped);
    DestroyedEntries(Flushed(m, t, mapped), rest);
    ExitLeaves(m, t, mapped, rest);
  }

  /** Files keep their lengths. */
  lemma StepLengths(m: Machine, ev: Event)
    requires MachineOk(m) && Enabled(m, ev) && Step(m, ev).Went?
    ensures SameLengths(m.vm.inodes, Step(m, ev).machine.vm.inodes)
  {
    hide Inv, ExeOk, MapsOk, DidRead, DidWrite, Started, Unmap, Exited, Evolves, PagesOf, PagesOfThread;
    match ev {
      case Read(t, addr, esp) =>
        ReadEvolves(m, t, addr, esp);
        EvolvedEntries(m.vm, Step(m, ev).machine.vm);
      case Write(t, addr, esp, b) =>
        WriteEvolves(m, t, addr, esp, b);
        EvolvedEntries(m.vm, Step(m, ev).machine.vm);
      case Exec(t, f, inode, pos, image) => StartEntries(m, t, f, inode, pos, image);
      case Mmap(t, f, inode, base) =>
      case Munmap(f, pages) => UnmapEntries(m, f, pages);
      case FileWrite(inode, ofs, buf) =>
      case Exit(t, mapped, rest) => ExitEntries(m, t, mapped, rest);
    }
  }

  // ---- mappings stay whole -----------------------------------------------------------------------------

  /** An inode that the event does not open or write. */
  function Other(ev: Event): nat {
    if ev.Exec? || ev.Mmap? || ev.FileWrite? then ev.inode + 1 else 0
  }

  /** Entries for a file that was open before are the ones there were. */
  lemma StepAddsNone(m: Machine, ev: Event)
    requires MachineOk(m) && Enabled(m, ev) && Step(m, ev).Went?
    ensures NothingAdded(m.vm, Step(m, ev).machine.vm, Other(ev))
  {
    hide MachineOk, Enabled, Step, NothingAdded;
    StepAdds(m, ev, Other(ev), Spte(Lazy, 0, 0, 0, true, true));
  }

  /** The event ends the mapping of f by t. */
  predicate Ends(ev: Event, f: nat, t: nat) {
    (ev.Munmap? && ev.f == f) || (ev.Exit? && ev.t == t)
  }

  lemma EndsOnly(m: Machine, ev: Event, f: nat, t: nat, k: Key)
    requires Enabled(m, ev) && !Ends(ev, f, t) && k in m.vm.spt && m.vm.spt[k].file == f && k.owner == t
    ensures !Removes(ev, k)
  {
    hide NoDuplicates;
  }

  lemma StepMapping(m: Machine, ev: Event, f: nat, t: nat, base: nat)
    requires MachineOk(m) && Enabled(m, ev) && Step(m, ev).Went? && IsMapping(m.vm, f, t, base) && !Ends(ev, f, t)
    ensures IsMapping(Step(m, ev).machine.vm, f, t, base)
  {
    hide MachineOk, Enabled, Step, Ends, Removes, PageCount, MappingPage;
    var s, s' := m.vm, Step(m, ev).machine.vm;
    var length := |s.inodes[s.files[f].inode]|;
    StepAddsNone(m, ev);
    StepLengths(m, ev);
    StepKeepsMachine(m, ev);
    forall p: nat | base <= p < base + PageCount(length)
      ensures Still(MappingPage(f, p - base, length), s', Key(t, p))
    {
      EndsOnly(m, ev, f, t, Key(t, p));
      StepStill(m, ev, Key(t, p));
    }
    assert Still(MappingPage(f, 0, length), s', Key(t, base)) by { HasPages(length); }
    MappedHasFile(Step(m, ev).machine, Key(t, base));
  }

  lemma HasPages(length: nat)
    requires length > 0
    ensures PageCount(length) > 0
  {
  }

  /** sys_mmap makes a whole mapping. */
  lemma NewMapping(m: Machine, t: nat, f: nat, inode: nat, base: nat)
    requires MachineOk(m) && Enabled(m, Mmap(t, f, inode, base)) && CanMap(m.vm, t, inode, base)
    ensures IsMapping(Mapped(m, t, f, inode, base).vm, f, t, base)
  {
    hide Inv, ExeOk, PageCount, MappingPage;
  }

  lemma PartOf(m: Machine, k: Key, f: nat, t: nat, base: nat)
    requires IsMapping(m.vm, f, t, base) && k in m.vm.spt && m.vm.spt[k].mmap && m.vm.spt[k].file == f
    ensures k.owner == t && BaseOf(k, m.vm.spt[k]) == base
  {
    var length := |m.vm.inodes[m.vm.files[f].inode]|;
    assert Still(MappingPage(f, k.page - base, length), m.vm, Key(t, k.page));
    Whole4096(k.page - base);
  }

  lemma Whole4096(i: nat)
    ensures i * PGSIZE / PGSIZE == i
  {
  }

  lemma StepKeepsWhole(m: Machine, ev: Event)
    requires MachineOk(m) && Enabled(m, ev) && Step(m, ev).Went? && Whole(m.vm)
    ensures Whole(Step(m, ev).machine.vm)
  {
    hide MachineOk, Enabled, Step, IsMapping, BaseOf, Ends;
    var m' := Step(m, ev).machine;
    StepAddsNone(m, ev);
    forall k | k in m'.vm.spt && m'.vm.spt[k].mmap
      ensures IsMapping(m'.vm, m'.vm.spt[k].file, k.owner, BaseOf(k, m'.vm.spt[k]))
    {
      var f := m'.vm.spt[k].file;
      if f in m.vm.files {
        var base := BaseOf(k, m.vm.spt[k]);
        SurvivorContinues(m, ev, k);
        StepMapping(m, ev, f, k.owner, base);
        PartOf(m', k, f, k.owner, base);
      } else {
        NewWhole(m, ev, k);
      }
    }
  }

  lemma NewWhole(m: Machine, ev: Event, k: Key)
    requires MachineOk(m) && Enabled(m, ev) && Step(m, ev).Went?
    requires k in Step(m, ev).machine.vm.spt && Step(m, ev).machine.vm.spt[k].mmap
    requires Step(m, ev).machine.vm.spt[k].file !in m.vm.files
    ensures var s := Step(m, ev).machine.vm; IsMapping(s, s.spt[k].file, k.owner, BaseOf(k, s.spt[k]))
  {
    hide MachineOk, Mapped, IsMapping, BaseOf, CanMap;
    NewIsMapped(m, ev, k);
    NewMapping(m, ev.t, ev.f, ev.inode, ev.base);
    PartOf(Step(m, ev).machine, k, ev.f, ev.t, ev.base);
  }

  /** A mapped page that is still there was not given up. */
  lemma SurvivorContinues(m: Machine, ev: Event, k: Key)
    requires MachineOk(m) && Enabled(m, ev) && Step(m, ev).Went? && k in m.vm.spt && m.vm.spt[k].mmap
    requires k in Step(m, ev).machine.vm.spt
    ensures !Ends(ev, m.vm.spt[k].file, k.owner)
  {
    hide Inv, ExeOk, MapsOk, DidRead, DidWrite, Started, Mapped, Unmap, Exited, NoDuplicates;
    match ev {
      case Munmap(f, pages) => UnmapKeepsInv(m, f, pages);
      case Exit(t, mapped, rest) => ExitKeepsInv(m, t, mapped, rest);
      case _ =>
    }
  }

  /** A mapped page of a file that was not open is one of a new mapping. */
  lemma NewIsMapped(m: Machine, ev: Event, k: Key)
    requires MachineOk(m) && Enabled(m, ev) && Step(m, ev).Went?
    requires k in Step(m, ev).machine.vm.spt && Step(m, ev).machine.vm.spt[k].mmap
    requires Step(m, ev).machine.vm.spt[k].file !in m.vm.files
    ensures ev.Mmap? && ev.f == Step(m, ev).machine.vm.spt[k].file && CanMap(m.vm, ev.t, ev.inode, ev.base)
  {
    hide Inv, ExeOk, DidRead, DidWrite, Started, Unmap, Exited, Evolves, NoDuplicates, MappingPage;
    match ev {
      case Read(t, addr, esp) =>
        ReadEvolves(m, t, addr, esp);
        EvolvedMaps(m.vm, Step(m, ev).machine.vm, k);
      case Write(t, addr, esp, b) =>
        WriteEvolves(m, t, addr, esp, b);
        EvolvedMaps(m.vm, Step(m, ev).machine.vm, k);
      case Exec(t, f, inode, pos, image) => StartMaps(m, t, f, inode, pos, image, k);
      case Mmap(t, f, inode, base) =>
      case Munmap(f, pages) => UnmapKeepsInv(m, f, pages);
      case FileWrite(inode, ofs, buf) =>
      case Exit(t, mapped, rest) => ExitLeaves(m, t, mapped, rest);
    }
  }

  lemma EvolvedMaps(s: Vm, s': Vm, k: Key)
    requires Evolves(s, s') && k in s'.spt && s'.spt[k].mmap
    ensures k in s.spt && s.spt[k].mmap && s.spt[k].file == s'.spt[k].file
  {
  }

  lemma StartMaps(m: Machine, t: nat, f: nat, inode: nat, pos: nat, image: map<nat, Segment>, k: Key)
    requires MachineOk(m) && Enabled(m, Exec(t, f, inode, pos, image)) && Started(m, t, f, inode, pos, image).Went?
    requires var s' := Started(m, t, f, inode, pos, image).machine.vm; k in s'.spt && s'.spt[k].mmap
    ensures k in m.vm.spt && m.vm.spt[k].mmap
    ensures m.vm.spt[k].file == Started(m, t, f, inode, pos, image).machine.vm.spt[k].file
  {
    hide Inv, ExeOk, MapsOk, FreshPage, Evolves;
    StartReady(m, t, f, inode, pos, image);
    FreshEvolves(m.vm, Key(t, STACK_PAGE));
    EvolvedMaps(m.vm, FreshPage(m.vm, Key(t, STACK_PAGE)).vm, k);
  }

  // ---- page table entries belong to someone -----------------------------------------------------------

  lemma StepKeepsEntered(m: Machine, ev: Event)
    requires MachineOk(m) && Enabled(m, ev) && Step(m, ev).Went? && Entered(m)
    ensures Entered(Step(m, ev).machine)
  {
    hide Inv, ExeOk, MapsOk, DidRead, DidWrite, Started, Mapped, Unmap, Exited, Evolves, PagesOf, PagesOfThread;
    var m' := Step(m, ev).machine;
    match ev {
      case Read(t, addr, esp) =>
        ReadEvolves(m, t, addr, esp);
        EvolvedEntered(m, m'.vm);
      case Write(t, addr, esp, b) =>
        WriteEvolves(m, t, addr, esp, b);
        EvolvedEntered(m, m'.vm);
      case Exec(t, f, inode, pos, image) => StartEntered(m, t, f, inode, pos, image);
      case Mmap(t, f, inode, base) => MapEntered(m, t, f, inode, base);
      case Munmap(f, pages) => UnmapEntered(m, f, pages);
      case FileWrite(inode, ofs, buf) =>
      case Exit(t, mapped, rest) => ExitEntered(m, t, mapped, rest);
    }
  }

  lemma EvolvedEntered(m: Machine, s': Vm)
    requires Entered(m) && Evolves(m.vm, s')
    ensures Entered(m.(vm := s'))
  {
  }

  lemma StartEntered(m: Machine, t: nat, f: nat, inode: nat, pos: nat, image: map<nat, Segment>)
    requires MachineOk(m) && Enabled(m, Exec(t, f, inode, pos, image)) && Started(m, t, f, inode, pos, image).Went?
    requires Entered(m)
    ensures Entered(Started(m, t, f, inode, pos, image).machine)
  {
    hide Inv, ExeOk, MapsOk, FreshPage, Evolves, Entered, NewPages, Added, ImagePages;
    StartReady(m, t, f, inode, pos, image);
    FreshIsZero(m.vm, Key(t, STACK_PAGE));
    FreshEvolves(m.vm, Key(t, STACK_PAGE));
    var s1 := FreshPage(m.vm, Key(t, STACK_PAGE)).vm;
    EvolvedEntered(m, s1);
    ImageIsNew(m, s1, t, f, inode, pos, image);
    AddedEntered(m.(vm := s1), ImagePages(t, f, image), f, OpenFile(inode, pos, true), t);
  }

  lemma AddedEntered(m: Machine, added: map<Key, Spte>, f: nat, file: OpenFile, t: nat)
    requires Entered(m) && NewPages(m.vm, added, f, file) && file.denyWrite
    ensures Entered(Machine(Added(m.vm, added, f, file), m.exe[t := f]))
  {
  }

  lemma MapEntered(m: Machine, t: nat, f: nat, inode: nat, base: nat)
    requires MachineOk(m) && Enabled(m, Mmap(t, f, inode, base)) && Entered(m)
    ensures Entered(Mapped(m, t, f, inode, base))
  {
    hide Inv, ExeOk, MapsOk, CanMap, MappingPage;
  }

  lemma UnmapEntered(m: Machine, f: nat, pages: seq<Key>)
    requires MachineOk(m) && PagesOf(m.vm, f, pages) && pages != [] && Entered(m)
    ensures Entered(m.(vm := Unmap(m.vm, f, pages)))
  {
    hide Inv, ExeOk, MapsOk, Unmap, NoDuplicates;
    UnmapKeepsInv(m, f, pages);
    UnmapEntries(m, f, pages);
  }

  lemma ExitEntered(m: Machine, t: nat, mapped: seq<Key>, rest: seq<Key>)
    requires MachineOk(m) && t in m.exe && PagesOfThread(m.vm, t, mapped, rest) && Entered(m)
    ensures Entered(Exited(m, t, mapped, rest))
  {
    hide Inv, ExeOk, MapsOk, Vacated, Core, FilesLeft, PagesOfThread;
    ExitLeaves(m, t, mapped, rest);
    ExitEntries(m, t, mapped, rest);
  }

  // ---- runs ---------------------------------------------------------------------------------------------

  lemma {:induction false} RunKeeps(m: Machine, evs: seq<Event>)
    requires MachineOk(m) && Possible(m, evs) && Whole(m.vm) && Entered(m)
    ensures Whole(After(m, evs).vm) && Entered(After(m, evs))
    decreases |evs|
  {
    hide MachineOk, Enabled, Step, Whole, Entered;
    if evs != [] {
      StepKeepsMachine(m, evs[0]);
      StepKeepsWhole(m, evs[0]);
      StepKeepsEntered(m, evs[0]);
      RunKeeps(Step(m, evs[0]).machine, evs[1..]);
    }
  }

  /** After every run from boot mappings are whole, and page table entries belong to processes. */
  lemma ReachedKeeps(m: Machine, evs: seq<Event>)
    requires RunFromBoot(m, evs)
    ensures Whole(Reached(m, evs).vm) && Entered(Reached(m, evs))
  {
    hide MachineOk, Possible, After, IsMapping;
    BootedOk(m);
    RunKeeps(m, evs);
  }

  lemma MappingKeysAre(s: Vm, f: nat, t: nat, base: nat)
    requires IsMapping(s, f, t, base)
    ensures var ks := K.MappingKeys(t, base, PageCount(|s.inodes[s.files[f].inode]|)); PagesOf(s, f, ks) && ks != []
  {
    hide PageCount, MappingPage;
    var length := |s.inodes[s.files[f].inode]|;
    var n := PageCount(length);
    var ks := K.MappingKeys(t, base, n);
    HasPages(length);
    forall k ensures k in ks <==> k in s.spt && s.spt[k].mmap && s.spt[k].file == f {
      if k in ks {
        assert Still(MappingPage(f, k.page - base, length), s, Key(t, k.page));
      }
      if k in s.spt && s.spt[k].mmap && s.spt[k].file == f {
        assert ks[k.page - base] == k;
      }
    }
  }

  /** After every run from boot, the pages that munmap goes through for a mapped page's mapping
      are exactly the pages of its file, so the loop is a Munmap event. */
  lemma MunmapIsPossible(m: Machine, evs: seq<Event>, k: Key)
    requires RunFromBoot(m, evs)
    ensures var m1 := Reached(m, evs); var s := m1.vm;
            k in s.spt && s.spt[k].mmap ==>
              var f := s.spt[k].file;
              && f in s.files && s.files[f].inode in s.inodes
              && var ks := K.MappingKeys(k.owner, BaseOf(k, s.spt[k]), PageCount(|s.inodes[s.files[f].inode]|));
                 PagesOf(s, f, ks) && k in ks && Enabled(m1, Munmap(f, ks))
  {
    hide Reached, RunFromBoot, MachineOk, BaseOf, PagesOf, PageCount, IsMapping;
    ReachedKeeps(m, evs);
    var s := Reached(m, evs).vm;
    if k in s.spt && s.spt[k].mmap {
      var f, base := s.spt[k].file, BaseOf(k, s.spt[k]);
      MappingKeysAre(s, f, k.owner, base);
      MappingHasFile(s, f, k.owner, base);
      InPages(s, f, K.MappingKeys(k.owner, base, PageCount(|s.inodes[s.files[f].inode]|)), k);
    }
  }

  /** sys_munmap of a mapping that a run has left, by its first page and its file: the kernel's
      loop takes the machine's Munmap step. */
  method SysMunmap(kernel: K.Kernel, t: nat, base: nat, f: nat, ghost m: Machine, ghost evs: seq<Event>)
    requires RunFromBoot(m, evs) && kernel.S() == Reached(m, evs).vm
    requires Key(t, base) in kernel.spt && kernel.spt[Key(t, base)].mmap
    requires kernel.spt[Key(t, base)].file == f && kernel.spt[Key(t, base)].offset == 0
    modifies kernel
    ensures var m1 := Reached(m, evs);
            && f in m1.vm.files && m1.vm.files[f].inode in m1.vm.inodes
            && var ev := Munmap(f, K.MappingKeys(t, base, PageCount(|m1.vm.inodes[m1.vm.files[f].inode]|)));
               && Enabled(m1, ev) && Step(m1, ev).Went? && kernel.S() == Step(m1, ev).machine.vm
               && MachineOk(Step(m1, ev).machine)
  {
    hide Reached, RunFromBoot, MachineOk, PagesOf, PageCount, Unmap, IsMapping;
    MunmapIsPossible(m, evs, Key(t, base));
    MachineIsGood(Reached(m, evs));
    ghost var m1 := Reached(m, evs);
    ghost var ev := Munmap(f, K.MappingKeys(t, base, PageCount(|m1.vm.inodes[m1.vm.files[f].inode]|)));
    StepKeepsMachine(m1, ev);
    kernel.UnmapAndFlush(t, base, f);
  }

  lemma MappingHasFile(s: Vm, f: nat, t: nat, base: nat)
    requires IsMapping(s, f, t, base)
    ensures f in s.files && s.files[f].inode in s.inodes
  {
  }

  lemma InPages(s: Vm, f: nat, ks: seq<Key>, k: Key)
    requires PagesOf(s, f, ks) && k in s.spt && s.spt[k].mmap && s.spt[k].file == f
    ensures k in ks
  {
  }
}
