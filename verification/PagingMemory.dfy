/** What a program reads, over whole runs: the byte it wrote last, or else what its page showed
    at first. */
module PagingMemory {
  import opened Paging
  import opened PagingInvariant
  import opened PagingSteps
  import opened PagingViews
  import opened PagingTransparency
  import opened PagingAccess
  import opened PagingEvolution
  import opened PagingProgress
  import opened PagingTeardown
  import opened PagingFlat
  import opened PagingMachine
  import opened PagingRuns

  /** The page is there, with the backing it had. */
  predicate Still(e: Spte, s: Vm, k: Key) {
    k in s.spt && SameEntry(e, s.spt[k])
  }

  lemma EvolvedStill(s: Vm, s': Vm, k: Key)
    requires Evolves(s, s') && k in s.spt
    ensures Still(s.spt[k], s', k)
  {
  }

  lemma StillTwice(a: Spte, s: Vm, s': Vm, k: Key)
    requires Still(a, s, k) && Still(s.spt[k], s', k)
    ensures Still(a, s', k)
  {
  }

  lemma AddedStill(s: Vm, added: map<Key, Spte>, f: nat, file: OpenFile, k: Key)
    requires k in s.spt && k !in added
    ensures Still(s.spt[k], Added(s, added, f, file), k)
  {
  }

  lemma AccessStill(s: Vm, t: nat, addr: nat, esp: nat, write: bool, k: Key)
    requires Inv(s) && k in s.spt && !Ready(s, t, addr, esp, write).Panic?
    ensures Still(s.spt[k], Ready(s, t, addr, esp, write).vm, k)
  {
    hide Inv, Ready, Evolves;
    ReadyEvolves(s, t, addr, esp, write);
    EvolvedStill(s, Ready(s, t, addr, esp, write).vm, k);
  }

  lemma ReadStill(m: Machine, t: nat, addr: nat, esp: nat, k: Key)
    requires MachineOk(m) && k in m.vm.spt && DidRead(m, t, addr, esp).Went?
    ensures Still(m.vm.spt[k], DidRead(m, t, addr, esp).machine.vm, k)
  {
    hide Inv, ExeOk, MapsOk, Ready, Still;
    ReadReady(m, t, addr, esp);
    AccessStill(m.vm, t, addr, esp, false, k);
    ReadSame(m, t, addr, esp);
    SameTable(m.vm.spt[k], Ready(m.vm, t, addr, esp, false).vm, DidRead(m, t, addr, esp).machine.vm, k);
  }

  lemma SameTable(e: Spte, s: Vm, s': Vm, k: Key)
    requires Still(e, s, k) && s'.spt == s.spt
    ensures Still(e, s', k)
  {
  }

  lemma ReadSame(m: Machine, t: nat, addr: nat, esp: nat)
    requires MachineOk(m) && DidRead(m, t, addr, esp).Went?
    ensures !Ready(m.vm, t, addr, esp, false).Panic?
    ensures DidRead(m, t, addr, esp).machine.vm.spt == Ready(m.vm, t, addr, esp, false).vm.spt
  {
    hide Inv, ExeOk, MapsOk, Ready;
  }

  lemma WriteSame(m: Machine, t: nat, addr: nat, esp: nat, b: Byte)
    requires MachineOk(m) && DidWrite(m, t, addr, esp, b).Went?
    ensures !Ready(m.vm, t, addr, esp, true).Panic?
    ensures DidWrite(m, t, addr, esp, b).machine.vm.spt == Ready(m.vm, t, addr, esp, true).vm.spt
  {
    hide Inv, ExeOk, MapsOk, Ready;
    ReadyBringsIn(m.vm, t, addr, esp, true);
  }

  lemma WriteStill(m: Machine, t: nat, addr: nat, esp: nat, b: Byte, k: Key)
    requires MachineOk(m) && k in m.vm.spt && DidWrite(m, t, addr, esp, b).Went?
    ensures Still(m.vm.spt[k], DidWrite(m, t, addr, esp, b).machine.vm, k)
  {
    hide Inv, ExeOk, MapsOk, Ready, Still, DidWrite;
    WriteSame(m, t, addr, esp, b);
    AccessStill(m.vm, t, addr, esp, true, k);
    SameTable(m.vm.spt[k], Ready(m.vm, t, addr, esp, true).vm, DidWrite(m, t, addr, esp, b).machine.vm, k);
  }

  lemma StartStill(m: Machine, t: nat, f: nat, inode: nat, pos: nat, image: map<nat, Segment>, k: Key)
    requires MachineOk(m) && Enabled(m, Exec(t, f, inode, pos, image)) && k in m.vm.spt
    requires Started(m, t, f, inode, pos, image).Went?
    ensures Still(m.vm.spt[k], Started(m, t, f, inode, pos, image).machine.vm, k)
  {
    hide Inv, ExeOk, MapsOk, FreshPage, Evolves, Still;
    StartReady(m, t, f, inode, pos, image);
    var s1 := FreshPage(m.vm, Key(t, STACK_PAGE)).vm;
    FreshEvolves(m.vm, Key(t, STACK_PAGE));
    EvolvedStill(m.vm, s1, k);
    StillThere(m.vm.spt[k], s1, k);
    AddedStill(s1, ImagePages(t, f, image), f, OpenFile(inode, pos, true), k);
    StillTwice(m.vm.spt[k], s1, Added(s1, ImagePages(t, f, image), f, OpenFile(inode, pos, true)), k);
  }

  lemma StillThere(e: Spte, s: Vm, k: Key)
    requires Still(e, s, k)
    ensures k in s.spt && s.spt[k].mmap == e.mmap
  {
  }

  lemma MapStill(m: Machine, t: nat, f: nat, inode: nat, base: nat, k: Key)
    requires MachineOk(m) && Enabled(m, Mmap(t, f, inode, base)) && k in m.vm.spt
    ensures Still(m.vm.spt[k], Mapped(m, t, f, inode, base).vm, k)
  {
    hide Inv, ExeOk, MapsOk;
    if CanMap(m.vm, t, inode, base) {
      AddedStill(m.vm, MappingPages(t, f, base, |m.vm.inodes[inode]|), f, OpenFile(inode, 0, false), k);
    }
  }

  /** Only its removal takes a page away. */
  lemma StepStill(m: Machine, ev: Event, k: Key)
    requires MachineOk(m) && Enabled(m, ev) && Step(m, ev).Went? && k in m.vm.spt && !Removes(ev, k)
    ensures Still(m.vm.spt[k], Step(m, ev).machine.vm, k)
  {
    hide Inv, ExeOk, MapsOk, DidRead, DidWrite, Started, Mapped, Unmap, Exited;
    match ev {
      case Read(t, addr, esp) => ReadStill(m, t, addr, esp, k);
      case Write(t, addr, esp, b) => WriteStill(m, t, addr, esp, b, k);
      case Exec(t, f, inode, pos, image) => StartStill(m, t, f, inode, pos, image, k);
      case Mmap(t, f, inode, base) => MapStill(m, t, f, inode, base, k);
      case Munmap(f, pages) => UnmapKeepsInv(m, f, pages);
      case FileWrite(inode, ofs, buf) =>
      case Exit(t, mapped, rest) => ExitLeaves(m, t, mapped, rest);
    }
  }

  /** A page that does not wait to be loaded from an executable never does so again. */
  lemma StepLoaded(m: Machine, ev: Event, k: Key)
    requires MachineOk(m) && Enabled(m, ev) && Step(m, ev).Went? && k in m.vm.spt && !Removes(ev, k)
    requires !FromExecutable(m.vm.spt[k])
    ensures k in Step(m, ev).machine.vm.spt && !FromExecutable(Step(m, ev).machine.vm.spt[k])
  {
    hide Inv, ExeOk, MapsOk, DidRead, DidWrite, Started, Mapped, Unmap, Exited;
    match ev {
      case Read(t, addr, esp) =>
        ReadSame(m, t, addr, esp);
        AccessLoaded(m.vm, t, addr, esp, false, k);
      case Write(t, addr, esp, b) =>
        WriteSame(m, t, addr, esp, b);
        AccessLoaded(m.vm, t, addr, esp, true, k);
      case Exec(t, f, inode, pos, image) => StartLoaded(m, t, f, inode, pos, image, k);
      case Mmap(t, f, inode, base) => MapLoaded(m, t, f, inode, base, k);
      case Munmap(f, pages) => UnmapKeepsInv(m, f, pages);
      case FileWrite(inode, ofs, buf) =>
      case Exit(t, mapped, rest) => ExitLeaves(m, t, mapped, rest);
    }
  }

  lemma AccessLoaded(s: Vm, t: nat, addr: nat, esp: nat, write: bool, k: Key)
    requires Inv(s) && k in s.spt && !Ready(s, t, addr, esp, write).Panic? && !FromExecutable(s.spt[k])
    ensures var s' := Ready(s, t, addr, esp, write).vm; k in s'.spt && !FromExecutable(s'.spt[k])
  {
    hide Inv, Ready;
    ReadyEvolves(s, t, addr, esp, write);
  }

  lemma StartLoaded(m: Machine, t: nat, f: nat, inode: nat, pos: nat, image: map<nat, Segment>, k: Key)
    requires MachineOk(m) && Enabled(m, Exec(t, f, inode, pos, image)) && k in m.vm.spt
    requires Started(m, t, f, inode, pos, image).Went? && !FromExecutable(m.vm.spt[k])
    ensures var s' := Started(m, t, f, inode, pos, image).machine.vm; k in s'.spt && !FromExecutable(s'.spt[k])
  {
    hide Inv, ExeOk, MapsOk, FreshPage;
    StartReady(m, t, f, inode, pos, image);
    FreshEvolves(m.vm, Key(t, STACK_PAGE));
  }

  lemma MapLoaded(m: Machine, t: nat, f: nat, inode: nat, base: nat, k: Key)
    requires MachineOk(m) && Enabled(m, Mmap(t, f, inode, base)) && k in m.vm.spt && !FromExecutable(m.vm.spt[k])
    ensures var s' := Mapped(m, t, f, inode, base).vm; k in s'.spt && !FromExecutable(s'.spt[k])
  {
    hide Inv, ExeOk, MapsOk, MappingPage;
  }

  // ---- over runs ----------------------------------------------------------------------------------

  lemma {:induction false} RunLoaded(m: Machine, evs: seq<Event>, k: Key)
    requires MachineOk(m) && Possible(m, evs) && k in m.vm.spt && !FromExecutable(m.vm.spt[k])
    requires forall ev | ev in evs :: !Removes(ev, k)
    ensures MachineOk(After(m, evs)) && k in After(m, evs).vm.spt && !FromExecutable(After(m, evs).vm.spt[k])
    decreases |evs|
  {
    hide MachineOk, Enabled, Step, Removes;
    if evs != [] {
      assert evs[0] in evs;
      StepKeepsMachine(m, evs[0]);
      StepLoaded(m, evs[0], k);
      RunLoaded(Step(m, evs[0]).machine, evs[1..], k);
    }
  }

  /** A completed access leaves the page loaded. */
  lemma WrittenIsLoaded(m: Machine, t: nat, addr: nat, esp: nat, b: Byte)
    requires MachineOk(m) && Ready(m.vm, t, addr, esp, true).Resumed?
    ensures var r := Step(m, Write(t, addr, esp, b)); var k := Key(t, addr / PGSIZE);
            r.Went? && k in r.machine.vm.spt && !FromExecutable(r.machine.vm.spt[k])
  {
    hide Inv, ExeOk, MapsOk, Ready;
    ReadyBringsIn(m.vm, t, addr, esp, true);
    ResidentIsLoaded(Ready(m.vm, t, addr, esp, true).vm, Key(t, addr / PGSIZE));
  }

  lemma ResidentIsLoaded(s: Vm, k: Key)
    requires Inv(s) && Present(s, k)
    ensures k in s.spt && !FromExecutable(s.spt[k])
  {
    hide Inv;
    PresentFrame(s, k);
  }

  /** A read of a loaded page returns a byte, and is possible whenever a frame can be had. */
  lemma LoadedIsRead(m: Machine, t: nat, addr: nat, esp: nat)
    requires var k := Key(t, addr / PGSIZE);
             && MachineOk(m) && k in m.vm.spt && !FromExecutable(m.vm.spt[k])
             && (m.vm.spt[k].status.Lazy? ==> !LoadHazard(m.vm, k))
    ensures var r, k := DidRead(m, t, addr, esp), Key(t, addr / PGSIZE);
            && (r.Went? <==> m.vm.spt[k].status.Memory? || RoomCanBeMade(m.vm))
            && (r.Went? ==> |r.read| == 1)
  {
    hide Inv, ExeOk, MapsOk, Ready, RoomCanBeMade, LoadHazard;
    ReadCompletes(m.vm, t, addr, esp);
  }

  /** No event of the run removes or endangers page k. */
  ghost predicate Undisturbed(m: Machine, evs: seq<Event>, k: Key)
    requires MachineOk(m) && Possible(m, evs)
    decreases |evs|
  {
    evs != [] ==>
      && !Removes(evs[0], k) && !Endangers(m, evs[0], k)
      && (StepKeepsMachine(m, evs[0]); Undisturbed(Step(m, evs[0]).machine, evs[1..], k))
  }

  /** The page's bytes v after the completed writes of a run. */
  ghost function Rewritten(m: Machine, v: Bytes, evs: seq<Event>, k: Key): Bytes
    requires MachineOk(m) && Possible(m, evs)
    decreases |evs|
  {
    if evs == [] then v
    else
      StepKeepsMachine(m, evs[0]);
      Rewritten(Step(m, evs[0]).machine, AfterWrite(m, v, evs[0], k), evs[1..], k)
  }

  lemma {:induction false} RunRemembers(m: Machine, flat: Flat, evs: seq<Event>, k: Key)
    requires MachineOk(m) && Possible(m, evs) && Undisturbed(m, evs, k) && k in m.vm.spt && k in flat
    ensures MachineOk(After(m, evs)) && Still(m.vm.spt[k], After(m, evs).vm, k)
    ensures k in FlatAfter(m, flat, evs) && FlatAfter(m, flat, evs)[k] == Rewritten(m, flat[k], evs, k)
    decreases |evs|
  {
    hide MachineOk, Enabled, Step, FlatStep, Endangers, Still, AfterWrite;
    if evs == [] {
      ItselfStill(m.vm, k);
    } else {
      StepKeepsMachine(m, evs[0]);
      var m1 := Step(m, evs[0]).machine;
      StepStill(m, evs[0], k);
      StillThere(m.vm.spt[k], m1.vm, k);
      FlatRemembers(m, flat, evs[0], k);
      RunRemembers(m1, FlatStep(m, flat, evs[0]), evs[1..], k);
      StillTwice(m.vm.spt[k], m1.vm, After(m1, evs[1..]).vm, k);
    }
  }

  lemma ItselfStill(s: Vm, k: Key)
    requires k in s.spt
    ensures Still(s.spt[k], s, k)
  {
  }

  /** A page that no mapping made is disturbed by its removal only. */
  lemma {:induction false} OrdinaryUndisturbed(m: Machine, evs: seq<Event>, k: Key)
    requires MachineOk(m) && Possible(m, evs) && k in m.vm.spt && !m.vm.spt[k].mmap
    requires forall ev | ev in evs :: !Removes(ev, k)
    ensures Undisturbed(m, evs, k)
    decreases |evs|
  {
    hide MachineOk, Enabled, Step, Endangers, Still, Removes;
    if evs != [] {
      assert evs[0] in evs;
      OrdinaryPageIsSafe(m, evs[0], k);
      StepKeepsMachine(m, evs[0]);
      StepStill(m, evs[0], k);
      StillThere(m.vm.spt[k], Step(m, evs[0]).machine.vm, k);
      OrdinaryUndisturbed(Step(m, evs[0]).machine, evs[1..], k);
    }
  }

  /** A program starts if and only if a frame can be had for its stack. It then has a stack page
      of zeros and the pages of its image, no other process gains or loses a page, and its
      executable is open and write-protected. */
  lemma StartIs(m: Machine, t: nat, f: nat, inode: nat, pos: nat, image: map<nat, Segment>)
    requires MachineOk(m) && Enabled(m, Exec(t, f, inode, pos, image))
    ensures var r := Started(m, t, f, inode, pos, image);
            && (r.Went? <==> RoomCanBeMade(m.vm))
            && (r.Went? ==>
                 && r.machine.exe == m.exe[t := f] && r.machine.vm.files[f] == OpenFile(inode, pos, true)
                 && StackIsNew(r.machine.vm, Key(t, STACK_PAGE))
                 && (forall k: Key | k.owner == t :: k in r.machine.vm.spt <==> k.page == STACK_PAGE || k.page in image)
                 && (forall k: Key | k.owner != t :: k in r.machine.vm.spt <==> k in m.vm.spt))
  {
    hide Inv, ExeOk, MapsOk, FreshPage, RoomCanBeMade, View, ImagePages, StackIsNew;
    var k := Key(t, STACK_PAGE);
    GetsFresh(m.vm, k);
    if FreshPage(m.vm, k).Resumed? {
      FreshIsZero(m.vm, k);
      var s1, s2 := FreshPage(m.vm, k).vm, Started(m, t, f, inode, pos, image).machine.vm;
      ImageKeys(t, f, image);
      StackStays(s1, s2, k);
    }
  }

  lemma ImageKeys(t: nat, f: nat, image: map<nat, Segment>)
    ensures forall k: Key :: k in ImagePages(t, f, image) <==> k.owner == t && k.page in image
  {
    forall k: Key | k.owner == t && k.page in image ensures k in ImagePages(t, f, image) {
      assert k == Key(t, k.page);
    }
  }

  lemma StackStays(s: Vm, s': Vm, k: Key)
    requires Inv(s) && k in s.spt && Present(s, k) && View(s, k) == Filled(0) && s.spt[k].writable && !s.spt[k].mmap
    requires k in s'.spt && s'.spt[k] == s.spt[k] && s'.mem == s.mem
    ensures StackIsNew(s', k)
  {
    hide NonePinned, SwapSized, SwapOk, BackedOk, ProtectedOk;
  }

  /** A page of zeros that the process may write. */
  predicate StackIsNew(s: Vm, k: Key) {
    && k in s.spt && s.spt[k].status.Memory? && s.spt[k].writable && !s.spt[k].mmap
    && s.spt[k].status.kpage < |s.mem| && s.mem[s.spt[k].status.kpage] == Filled(0)
  }

  // ---- which pages there are ----------------------------------------------------------------------------

  /** The pages that an event adds: the stack grows by the page that is accessed, a program gets
      its stack and its image, and a mapping the pages of its file. */
  predicate Adds(m: Machine, ev: Event, k: Key)
    requires ev.Mmap? ==> ev.inode in m.vm.inodes
  {
    match ev
    case Read(t, addr, esp) => k == Key(t, addr / PGSIZE) && StackAccess(addr, esp)
    case Write(t, addr, esp, _) => k == Key(t, addr / PGSIZE) && StackAccess(addr, esp)
    case Exec(t, _, _, _, image) => k.owner == t && (k.page == STACK_PAGE || k.page in image)
    case Mmap(t, _, inode, base) =>
      CanMap(m.vm, t, inode, base) && k.owner == t && base <= k.page < base + PageCount(|m.vm.inodes[inode]|)
    case _ => false
  }

  lemma ReadyPages(s: Vm, t: nat, addr: nat, esp: nat, write: bool, k: Key)
    requires Inv(s) && !Ready(s, t, addr, esp, write).Panic?
    ensures k in Ready(s, t, addr, esp, write).vm.spt <==>
            k in s.spt || (k == Key(t, addr / PGSIZE) && StackAccess(addr, esp))
  {
    hide Inv, Permitted, FreshPage, StackAccess;
    var q := Key(t, addr / PGSIZE);
    ReadyBringsIn(s, t, addr, esp, write);
    if q !in s.spt {
      GetsFresh(s, q);
      ThenPermitted(s, t, addr, esp, write);
      NotResident(s, q);
    }
  }

  lemma MappingKeys(t: nat, f: nat, base: nat, length: nat)
    ensures forall k: Key :: k in MappingPages(t, f, base, length) <==>
                k.owner == t && base <= k.page < base + PageCount(length)
  {
    hide MappingPage;
    forall k: Key | k.owner == t && base <= k.page < base + PageCount(length)
      ensures k in MappingPages(t, f, base, length)
    {
      assert k == Key(t, k.page);
    }
  }

  /** A page is there after an event if and only if it was there and the event does not remove it,
      or the event adds it. */
  lemma StepPages(m: Machine, ev: Event, k: Key)
    requires MachineOk(m) && Enabled(m, ev) && Step(m, ev).Went?
    ensures k in Step(m, ev).machine.vm.spt <==> (k in m.vm.spt && !Removes(ev, k)) || Adds(m, ev, k)
  {
    hide Inv, ExeOk, MapsOk, Ready, Started, Unmap, Exited, StackAccess, CanMap, MappingPages, PagesOf, PagesOfThread;
    match ev {
      case Read(t, addr, esp) => ReadyPages(m.vm, t, addr, esp, false, k);
      case Write(t, addr, esp, b) => ReadyPages(m.vm, t, addr, esp, true, k);
      case Exec(t, f, inode, pos, image) => StartIs(m, t, f, inode, pos, image);
      case Mmap(t, f, inode, base) => MappingKeys(t, f, base, |m.vm.inodes[inode]|);
      case Munmap(f, pages) => UnmapKeepsInv(m, f, pages);
      case FileWrite(inode, ofs, buf) =>
      case Exit(t, mapped, rest) => ExitLeaves(m, t, mapped, rest);
    }
  }

  /** At first a program's page shows its part of the executable, and zeros beyond. */
  lemma StartsAsFile(m: Machine, t: nat, f: nat, inode: nat, pos: nat, image: map<nat, Segment>, p: nat)
    requires MachineOk(m) && Enabled(m, Exec(t, f, inode, pos, image)) && Started(m, t, f, inode, pos, image).Went?
    requires p in image
    ensures var s := Started(m, t, f, inode, pos, image).machine.vm; var k := Key(t, p);
            && Inv(s) && inode in s.inodes && k in s.spt && !s.spt[k].mmap
            && View(s, k) == Image(s.inodes[inode], image[p].offset, image[p].readBytes)
  {
    hide PoolOk, TableOk, OwnersOk, NonePinned, DirectoryOk, SwapSized, SwapOk, BackedOk, ProtectedOk, ExeOk, MapsOk,
      FreshPage, Agrees, Plain, StartedFlat, Image, Started, Added, ImagePages;
    PlainAgrees(m.vm);
    StartReady(m, t, f, inode, pos, image);
    StartedAgrees(m, Plain(m.vm), t, f, inode, pos, image);
    ImageEntered(m, t, f, inode, pos, image, p);
    EntryIsOk(Started(m, t, f, inode, pos, image).machine.vm, Key(t, p));
  }

  lemma ImageEntered(m: Machine, t: nat, f: nat, inode: nat, pos: nat, image: map<nat, Segment>, p: nat)
    requires MachineOk(m) && Enabled(m, Exec(t, f, inode, pos, image)) && Started(m, t, f, inode, pos, image).Went?
    requires p in image
    ensures var s := Started(m, t, f, inode, pos, image).machine.vm; var k := Key(t, p);
            && k in s.spt && s.spt[k] == Spte(Lazy, f, image[p].offset, image[p].readBytes, image[p].writable, false)
            && f in s.files && s.files[f].inode == inode
  {
    hide Inv, ExeOk, MapsOk, FreshPage;
    StartReady(m, t, f, inode, pos, image);
  }

  // ---- what is read ---------------------------------------------------------------------------------

  /** A read after a run, of a page that the run and the read leave undisturbed. */
  lemma ReadsRewritten(m: Machine, flat: Flat, evs: seq<Event>, t: nat, addr: nat, esp: nat)
    requires MachineOk(m) && Possible(m, evs) && Agrees(m.vm, flat)
    requires Key(t, addr / PGSIZE) in m.vm.spt && Key(t, addr / PGSIZE) in flat
    requires Undisturbed(m, evs, Key(t, addr / PGSIZE))
    ensures MachineOk(After(m, evs))
    ensures var m1 := After(m, evs); var k, i := Key(t, addr / PGSIZE), addr % PGSIZE;
            var r := DidRead(m1, t, addr, esp); var v := Rewritten(m, flat[k], evs, k);
            r.Went? && r.read != [] && !AtRisk(m1.vm, t, addr, esp, k) && i < |v| ==> r.read == [v[i]]
  {
    hide Inv, ExeOk, MapsOk, Agrees, DidRead, AtRisk, Still, Undisturbed, Rewritten, Possible, After, FlatAfter,
      Faulted;
    var k := Key(t, addr / PGSIZE);
    RunAgrees(m, flat, evs);
    RunRemembers(m, flat, evs, k);
    var m1, flat1 := After(m, evs), FlatAfter(m, flat, evs);
    StillThere(m.vm.spt[k], m1.vm, k);
    if DidRead(m1, t, addr, esp).Went? && !AtRisk(m1.vm, t, addr, esp, k) {
      ReadReady(m1, t, addr, esp);
      ReadAgrees(m1, flat1, t, addr, esp);
      AccessRemembers(m1.vm, flat1, t, addr, esp, false, k);
    }
  }

  /** From any good state on, a page that no mapping made reads as it was, but for the writes
      made to it: whatever is evicted, swapped or loaded in between. */
  lemma ReadsAsWritten(m: Machine, evs: seq<Event>, t: nat, addr: nat, esp: nat)
    requires MachineOk(m) && Possible(m, evs) && forall ev | ev in evs :: !Removes(ev, Key(t, addr / PGSIZE))
    requires Key(t, addr / PGSIZE) in m.vm.spt && !m.vm.spt[Key(t, addr / PGSIZE)].mmap
    ensures MachineOk(After(m, evs))
    ensures var r := DidRead(After(m, evs), t, addr, esp); var k, i := Key(t, addr / PGSIZE), addr % PGSIZE;
            var v := Rewritten(m, View(m.vm, k), evs, k);
            r.Went? && r.read != [] ==> |v| == PGSIZE && r.read == [v[i]]
  {
    hide Inv, ExeOk, MapsOk, Agrees, DidRead, AtRisk, Still, Undisturbed, Rewritten, Possible, After, View, Removes;
    var k := Key(t, addr / PGSIZE);
    var flat := Plain(m.vm);
    PlainAgrees(m.vm);
    OrdinaryUndisturbed(m, evs, k);
    ReadsRewritten(m, flat, evs, t, addr, esp);
    RunRemembers(m, flat, evs, k);
    var m1 := After(m, evs);
    StillThere(m.vm.spt[k], m1.vm, k);
    NotAtRisk(m1.vm, t, addr, esp, k);
    AgreesHas(m.vm, flat, k);
    RewrittenSize(m, flat[k], evs, k);
  }

  lemma {:induction false} RewrittenSize(m: Machine, v: Bytes, evs: seq<Event>, k: Key)
    requires MachineOk(m) && Possible(m, evs)
    ensures |Rewritten(m, v, evs, k)| == |v|
    decreases |evs|
  {
    hide MachineOk, Enabled, Step, Writes;
    if evs != [] {
      StepKeepsMachine(m, evs[0]);
      RewrittenSize(Step(m, evs[0]).machine, AfterWrite(m, v, evs[0], k), evs[1..], k);
    }
  }

  /** The event stores at this address. */
  predicate StoresAt(ev: Event, t: nat, addr: nat) {
    ev.Write? && ev.t == t && ev.addr == addr
  }

  lemma {:induction false} OtherWrites(m: Machine, v: Bytes, evs: seq<Event>, t: nat, addr: nat)
    requires MachineOk(m) && Possible(m, evs) && (forall ev | ev in evs :: !StoresAt(ev, t, addr))
             && addr % PGSIZE < |v|
    ensures var v' := Rewritten(m, v, evs, Key(t, addr / PGSIZE));
            addr % PGSIZE < |v'| && v'[addr % PGSIZE] == v[addr % PGSIZE]
    decreases |evs|
  {
    hide MachineOk, Enabled, Step, Ready;
    var k := Key(t, addr / PGSIZE);
    if evs != [] {
      assert evs[0] in evs;
      StepKeepsMachine(m, evs[0]);
      if Writes(m, evs[0], k) { SamePlace(evs[0].addr, addr); }
      OtherWrites(Step(m, evs[0]).machine, AfterWrite(m, v, evs[0], k), evs[1..], t, addr);
    }
  }

  lemma SamePlace(a: nat, b: nat)
    ensures a / PGSIZE == b / PGSIZE && a % PGSIZE == b % PGSIZE ==> a == b
  {
  }

  /** A completed write is in flat memory. */
  lemma WriteIsStored(m: Machine, flat: Flat, t: nat, addr: nat, esp: nat, b: Byte)
    requires MachineOk(m) && Agrees(m.vm, flat)
    requires Ready(m.vm, t, addr, esp, true).Resumed?
    ensures var ev := Write(t, addr, esp, b); var k := Key(t, addr / PGSIZE);
            && Step(m, ev).Went? && MachineOk(Step(m, ev).machine)
            && var s1 := Step(m, ev).machine.vm; var flat1 := FlatStep(m, flat, ev);
               && Agrees(s1, flat1)
               && (k in s1.spt && !s1.spt[k].mmap ==>
                  k in flat1 && |flat1[k]| == PGSIZE && flat1[k][addr % PGSIZE] == b)
  {
    hide Inv, ExeOk, MapsOk, Agrees, Ready, Faulted;
    var ev, k := Write(t, addr, esp, b), Key(t, addr / PGSIZE);
    StepAgrees(m, flat, ev);
    var s1, flat1 := Step(m, ev).machine.vm, FlatStep(m, flat, ev);
    if k in s1.spt && !s1.spt[k].mmap {
      AgreesHas(s1, flat1, k);
    }
  }

  /** The last byte written is the byte read: over every run from boot, for every page that no
      mapping made.  The read completes unless its page is not in memory and no frame can be had. */
  lemma LastWriteIsRead(m: Machine, before: seq<Event>, t: nat, addr: nat, esp: nat, b: Byte, evs: seq<Event>,
      esp': nat)
    requires RunFromBoot(m, before) && Ready(Reached(m, before).vm, t, addr, esp, true).Resumed?
    requires forall ev | ev in evs :: !Removes(ev, Key(t, addr / PGSIZE)) && !StoresAt(ev, t, addr)
    ensures var w := Write(t, addr, esp, b); var k := Key(t, addr / PGSIZE);
            && Step(Reached(m, before), w).Went? && MachineOk(Step(Reached(m, before), w).machine)
            && var m1 := Step(Reached(m, before), w).machine;
               k in m1.vm.spt && (!m1.vm.spt[k].mmap && Possible(m1, evs) ==>
                 && MachineOk(After(m1, evs)) && k in After(m1, evs).vm.spt
                 && var r, s := DidRead(After(m1, evs), t, addr, esp'), After(m1, evs).vm;
                    && (r.Went? <==> s.spt[k].status.Memory? || RoomCanBeMade(s))
                    && (r.Went? ==> r.read == [b]))
  {
    hide Inv, ExeOk, MapsOk, Agrees, Ready, Reached, Remembered, RunFromBoot, Possible, After, DidRead, Step, FlatStep,
      Removes, StoresAt, Undisturbed, Rewritten, AtRisk, Still, RoomCanBeMade, FromExecutable, LoadHazard;
    var m0, k := Reached(m, before), Key(t, addr / PGSIZE);
    var flat := Remembered(m, before);
    WriteIsStored(m0, flat, t, addr, esp, b);
    WrittenIsLoaded(m0, t, addr, esp, b);
    var m1, flat1 := Step(m0, Write(t, addr, esp, b)).machine, FlatStep(m0, flat, Write(t, addr, esp, b));
    if !m1.vm.spt[k].mmap && Possible(m1, evs) {
      OrdinaryUndisturbed(m1, evs, k);
      ReadsRewritten(m1, flat1, evs, t, addr, esp');
      OtherWrites(m1, flat1[k], evs, t, addr);
      RunRemembers(m1, flat1, evs, k);
      StillThere(m1.vm.spt[k], After(m1, evs).vm, k);
      NotAtRisk(After(m1, evs).vm, t, addr, esp', k);
      RunLoaded(m1, evs, k);
      OrdinaryIsLoaded(After(m1, evs).vm.spt[k]);
      LoadedIsRead(After(m1, evs), t, addr, esp');
    }
  }

  lemma OrdinaryIsLoaded(e: Spte)
    requires !FromExecutable(e) && !e.mmap
    ensures !e.status.Lazy?
  {
  }
}
