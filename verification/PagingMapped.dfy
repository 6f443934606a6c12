/** What a program reads from a mapped file, over whole runs: as long as the file is mapped once
    and nobody else writes it, the byte it wrote last, or else what the page showed at first. */
module PagingMapped {
  import opened Paging
  import opened PagingInvariant
  import opened PagingSteps
  import opened PagingViews
  import opened PagingTransparency
  import opened PagingAccess
  import opened PagingEvolution
  import opened PagingProgress
  import opened PagingTeardown
  import opened PagingFlat
  import opened PagingMachine
  import opened PagingRuns
  import opened PagingMemory

  /** Page k maps part of inode n, which may be written, and no other page maps those bytes. */
  ghost predicate Sole(s: Vm, k: Key, n: nat) {
    && k in s.spt && s.spt[k].mmap && s.spt[k].file in s.files && s.files[s.spt[k].file].inode == n
    && !Denied(s.files, n)
    && forall i | i in s.spt && i != k :: !Aliased(s, k, i)
  }

  /** What a process may not do to inode n while page k maps it: map or execute it as well,
      or write the bytes that k maps by a system call. */
  predicate KeepsOff(ev: Event, n: nat, e: Spte) {
    && !(ev.Mmap? && ev.inode == n)
    && !(ev.Exec? && ev.inode == n)
    && !(ev.FileWrite? && ev.inode == n && e.offset < ev.ofs + |ev.buf| && ev.ofs < e.offset + e.readBytes)
  }

  /** The event does not load page k while a write-back moves the file's position. */
  ghost predicate LoadSafely(m: Machine, ev: Event, k: Key)
    requires MachineOk(m)
  {
    (ev.Read? || ev.Write?) && k == Key(ev.t, ev.addr / PGSIZE) && k in m.vm.spt && m.vm.spt[k].status.Lazy? ==>
      !LoadHazard(m.vm, k)
  }

  /** No event of the run does. */
  ghost predicate LoadsSafely(m: Machine, evs: seq<Event>, k: Key)
    requires MachineOk(m) && Possible(m, evs)
    decreases |evs|
  {
    evs != [] ==>
      && LoadSafely(m, evs[0], k)
      && (StepKeepsMachine(m, evs[0]); LoadsSafely(Step(m, evs[0]).machine, evs[1..], k))
  }

  // ---- mapping a file -------------------------------------------------------------------------------

  lemma MappingEntered(m: Machine, t: nat, f: nat, inode: nat, base: nat, p: nat)
    requires MachineOk(m) && Enabled(m, Mmap(t, f, inode, base)) && CanMap(m.vm, t, inode, base)
    requires base <= p < base + PageCount(|m.vm.inodes[inode]|)
    ensures var s := Mapped(m, t, f, inode, base).vm; var k := Key(t, p);
            && k in s.spt && s.spt[k] == MappingPage(f, p - base, |m.vm.inodes[inode]|)
            && f in s.files && s.files[f].inode == inode && s.inodes == m.vm.inodes
  {
    hide Inv, ExeOk, MapsOk, CanMap;
  }

  /** The pages of a new mapping do not share bytes with each other, nor with pages of other
      inodes. */
  lemma MappingAlone(m: Machine, t: nat, f: nat, inode: nat, base: nat, k: Key)
    requires MachineOk(m) && Enabled(m, Mmap(t, f, inode, base)) && CanMap(m.vm, t, inode, base)
    requires k in MappingPages(t, f, base, |m.vm.inodes[inode]|)
    requires forall i | i in m.vm.spt && m.vm.spt[i].mmap && m.vm.spt[i].file in m.vm.files ::
               m.vm.files[m.vm.spt[i].file].inode != inode
    ensures forall i | i in Mapped(m, t, f, inode, base).vm.spt && i != k ::
            !Aliased(Mapped(m, t, f, inode, base).vm, k, i)
  {
    hide Inv, ExeOk, CanMap, MappingPages;
    var s, s' := m.vm, Mapped(m, t, f, inode, base).vm;
    MappingIsNew(s, t, f, inode, base);
    forall i | i in s'.spt && i != k ensures !Aliased(s', k, i) {
      if i !in MappingPages(t, f, base, |s.inodes[inode]|) && s.spt[i].mmap {
        MappedHasFile(m, i);
      }
    }
  }

  lemma NotDeniedNow(files: map<nat, OpenFile>, f: nat, inode: nat)
    requires f !in files && !Denied(files, inode)
    ensures !Denied(files[f := OpenFile(inode, 0, false)], inode)
  {
  }

  /** At first a page of a mapping shows its part of the file; and if nobody maps or runs the
      file already, the page is the only one to map it. */
  lemma MapsAsFile(m: Machine, t: nat, f: nat, inode: nat, base: nat, p: nat)
    requires MachineOk(m) && Enabled(m, Mmap(t, f, inode, base)) && CanMap(m.vm, t, inode, base)
    requires base <= p < base + PageCount(|m.vm.inodes[inode]|)
    ensures var s := Mapped(m, t, f, inode, base).vm; var k := Key(t, p); var data := m.vm.inodes[inode];
            && Inv(s) && k in s.spt && Synced(s, k)
            && View(s, k) == Image(data, (p - base) * PGSIZE, s.spt[k].readBytes)
            && s.spt[k].readBytes == (if |data| - (p - base) * PGSIZE < PGSIZE then |data| - (p - base) * PGSIZE
               else PGSIZE)
    ensures !Denied(m.vm.files, inode)
            && (forall i | i in m.vm.spt && m.vm.spt[i].mmap && m.vm.spt[i].file in m.vm.files ::
                  m.vm.files[m.vm.spt[i].file].inode != inode)
            ==> Sole(Mapped(m, t, f, inode, base).vm, Key(t, p), inode)
  {
    hide PoolOk, TableOk, OwnersOk, NonePinned, DirectoryOk, SwapSized, SwapOk, BackedOk, ProtectedOk, ExeOk, MapsOk,
      Agrees, Plain, MappedFlat, Image, Mapped, CanMap, Denied, Aliased;
    PlainAgrees(m.vm);
    MappedAgrees(m, Plain(m.vm), t, f, inode, base);
    MappingEntered(m, t, f, inode, base, p);
    var s, k := Mapped(m, t, f, inode, base).vm, Key(t, p);
    EntryIsOk(s, k);
    if !Denied(m.vm.files, inode)
       && (forall i | i in m.vm.spt && m.vm.spt[i].mmap && m.vm.spt[i].file in m.vm.files ::
             m.vm.files[m.vm.spt[i].file].inode != inode)
    {
      MappingAlone(m, t, f, inode, base, k);
      MappedFiles(m, t, f, inode, base);
      NotDeniedNow(m.vm.files, f, inode);
    }
  }

  lemma MappedFiles(m: Machine, t: nat, f: nat, inode: nat, base: nat)
    requires MachineOk(m) && Enabled(m, Mmap(t, f, inode, base)) && CanMap(m.vm, t, inode, base)
    ensures f !in m.vm.files && Mapped(m, t, f, inode, base).vm.files == m.vm.files[f := OpenFile(inode, 0, false)]
  {
    hide Inv, ExeOk, MapsOk, CanMap;
  }

  // ---- staying the only one -------------------------------------------------------------------------

  /** Nothing has been added to inode n: no open file and no mapped page. */
  ghost predicate NothingAdded(s: Vm, s': Vm, n: nat) {
    && (forall f | f in s'.files :: if f in s.files then SameFile(s.files[f], s'.files[f]) else s'.files[f].inode != n)
    && (forall i | i in s'.spt && s'.spt[i].mmap ::
          s'.spt[i].file !in s.files || (i in s.spt && SameEntry(s.spt[i], s'.spt[i])))
  }

  predicate SameFile(f: OpenFile, f': OpenFile) {
    f'.inode == f.inode && f'.denyWrite == f.denyWrite
  }

  lemma StaysSole(s: Vm, s': Vm, k: Key, n: nat)
    requires Sole(s, k, n) && NothingAdded(s, s', n) && Still(s.spt[k], s', k) && s'.spt[k].file in s'.files
    ensures Sole(s', k, n)
  {
    forall i | i in s'.spt && i != k ensures !Aliased(s', k, i) {
      if Aliased(s', k, i) { assert Aliased(s, k, i); }
    }
  }

  lemma EvolvedAddsNothing(s: Vm, s1: Vm, s': Vm, n: nat)
    requires Evolves(s, s1) && s'.spt == s1.spt && s'.files == s1.files
    ensures NothingAdded(s, s', n)
  {
  }

  lemma AddedElsewhere(s: Vm, s1: Vm, added: map<Key, Spte>, f: nat, file: OpenFile, n: nat)
    requires Evolves(s, s1) && NewPages(s1, added, f, file) && file.inode != n
    ensures NothingAdded(s, Added(s1, added, f, file), n)
  {
  }

  lemma ReadAdds(m: Machine, t: nat, addr: nat, esp: nat, n: nat)
    requires MachineOk(m) && DidRead(m, t, addr, esp).Went?
    ensures NothingAdded(m.vm, DidRead(m, t, addr, esp).machine.vm, n)
  {
    hide Inv, ExeOk, MapsOk, Ready, Evolves, NothingAdded;
    ReadReady(m, t, addr, esp);
    ReadyEvolves(m.vm, t, addr, esp, false);
    EvolvedAddsNothing(m.vm, Ready(m.vm, t, addr, esp, false).vm, DidRead(m, t, addr, esp).machine.vm, n);
  }

  lemma WriteAdds(m: Machine, t: nat, addr: nat, esp: nat, b: Byte, n: nat)
    requires MachineOk(m) && DidWrite(m, t, addr, esp, b).Went?
    ensures NothingAdded(m.vm, DidWrite(m, t, addr, esp, b).machine.vm, n)
  {
    hide Inv, ExeOk, MapsOk, Ready, Evolves, NothingAdded;
    WriteSame(m, t, addr, esp, b);
    ReadyBringsIn(m.vm, t, addr, esp, true);
    ReadyEvolves(m.vm, t, addr, esp, true);
    EvolvedAddsNothing(m.vm, Ready(m.vm, t, addr, esp, true).vm, DidWrite(m, t, addr, esp, b).machine.vm, n);
  }

  lemma StartAdds(m: Machine, t: nat, f: nat, inode: nat, pos: nat, image: map<nat, Segment>, n: nat)
    requires MachineOk(m) && Enabled(m, Exec(t, f, inode, pos, image)) && inode != n
    requires Started(m, t, f, inode, pos, image).Went?
    ensures NothingAdded(m.vm, Started(m, t, f, inode, pos, image).machine.vm, n)
  {
    hide Inv, ExeOk, MapsOk, FreshPage, Evolves, NothingAdded, NewPages, ImagePages, Added;
    StartReady(m, t, f, inode, pos, image);
    var k := Key(t, STACK_PAGE);
    var s1 := FreshPage(m.vm, k).vm;
    FreshIsZero(m.vm, k);
    FreshEvolves(m.vm, k);
    ImageIsNew(m, s1, t, f, inode, pos, image);
    AddedElsewhere(m.vm, s1, ImagePages(t, f, image), f, OpenFile(inode, pos, true), n);
  }

  lemma MapAdds(m: Machine, t: nat, f: nat, inode: nat, base: nat, n: nat)
    requires MachineOk(m) && Enabled(m, Mmap(t, f, inode, base)) && inode != n
    ensures NothingAdded(m.vm, Mapped(m, t, f, inode, base).vm, n)
  {
    hide Inv, ExeOk, MapsOk, NewPages, MappingPages, CanMap, NothingAdded, Evolves, Added;
    EvolvesItself(m.vm);
    if CanMap(m.vm, t, inode, base) {
      MappingIsNew(m.vm, t, f, inode, base);
      AddedElsewhere(m.vm, m.vm, MappingPages(t, f, base, |m.vm.inodes[inode]|), f, OpenFile(inode, 0, false), n);
    } else {
      EvolvedAddsNothing(m.vm, m.vm, m.vm, n);
    }
  }

  lemma UnmapAdds(m: Machine, f: nat, pages: seq<Key>, n: nat)
    requires MachineOk(m) && PagesOf(m.vm, f, pages) && pages != []
    ensures NothingAdded(m.vm, Unmap(m.vm, f, pages), n)
  {
    hide Inv, ExeOk, MapsOk, Torn, Core, PagesOf;
    UnmapKeepsInv(m, f, pages);
    PagesUnmappable(m.vm, f, pages);
    TornKeeps(m.vm, pages);
  }

  lemma ExitAdds(m: Machine, t: nat, mapped: seq<Key>, rest: seq<Key>, n: nat)
    requires MachineOk(m) && t in m.exe && PagesOfThread(m.vm, t, mapped, rest)
    ensures NothingAdded(m.vm, Exited(m, t, mapped, rest).vm, n)
  {
    hide Inv, ExeOk, MapsOk, Exited, Core, PagesOfThread;
    ExitLeaves(m, t, mapped, rest);
  }

  lemma StepAdds(m: Machine, ev: Event, n: nat, e: Spte)
    requires MachineOk(m) && Enabled(m, ev) && Step(m, ev).Went? && KeepsOff(ev, n, e)
    ensures NothingAdded(m.vm, Step(m, ev).machine.vm, n)
  {
    hide Inv, ExeOk, MapsOk, DidRead, DidWrite, Started, Mapped, Unmap, Exited, NothingAdded, Evolves;
    match ev {
      case Read(t, addr, esp) => ReadAdds(m, t, addr, esp, n);
      case Write(t, addr, esp, b) => WriteAdds(m, t, addr, esp, b, n);
      case Exec(t, f, inode, pos, image) => StartAdds(m, t, f, inode, pos, image, n);
      case Mmap(t, f, inode, base) => MapAdds(m, t, f, inode, base, n);
      case Munmap(f, pages) => UnmapAdds(m, f, pages, n);
      case FileWrite(inode, ofs, buf) =>
        EvolvesItself(m.vm);
        EvolvedAddsNothing(m.vm, m.vm, Written(m.vm, inode, ofs, buf), n);
      case Exit(t, mapped, rest) => ExitAdds(m, t, mapped, rest, n);
    }
  }

  lemma MappedHasFile(m: Machine, k: Key)
    requires MachineOk(m) && k in m.vm.spt && m.vm.spt[k].mmap
    ensures m.vm.spt[k].file in m.vm.files
  {
    hide Inv, ExeOk;
  }

  /** Every event but a mapping or start of the same inode leaves the page the only one. */
  lemma StepSole(m: Machine, ev: Event, k: Key, n: nat, e: Spte)
    requires MachineOk(m) && Enabled(m, ev) && Step(m, ev).Went? && Sole(m.vm, k, n)
    requires KeepsOff(ev, n, e) && !Removes(ev, k)
    ensures MachineOk(Step(m, ev).machine) && Sole(Step(m, ev).machine.vm, k, n)
    ensures Still(m.vm.spt[k], Step(m, ev).machine.vm, k)
  {
    hide MachineOk, Enabled, Step, NothingAdded, Still, Aliased, Denied, KeepsOff;
    StepKeepsMachine(m, ev);
    StepAdds(m, ev, n, e);
    StepStill(m, ev, k);
    StillThere(m.vm.spt[k], Step(m, ev).machine.vm, k);
    MappedHasFile(Step(m, ev).machine, k);
    StaysSole(m.vm, Step(m, ev).machine.vm, k, n);
  }

  /** Such an event endangers the page only by loading it in the hazard. */
  lemma StepUndisturbed(m: Machine, ev: Event, k: Key, n: nat)
    requires MachineOk(m) && Enabled(m, ev) && Sole(m.vm, k, n) && !Removes(ev, k)
    requires KeepsOff(ev, n, m.vm.spt[k]) && LoadSafely(m, ev, k)
    ensures !Endangers(m, ev, k)
  {
    hide MachineOk, Enabled, Endangers, LoadHazard, Aliased, Denied;
    SinglyMappedPageIsSafe(m, ev, k);
  }

  // ---- over runs ------------------------------------------------------------------------------------

  lemma SameOff(ev: Event, n: nat, e: Spte, e': Spte)
    requires KeepsOff(ev, n, e) && SameEntry(e, e')
    ensures KeepsOff(ev, n, e')
  {
  }

  lemma StillSame(e: Spte, s: Vm, k: Key)
    requires Still(e, s, k)
    ensures k in s.spt && SameEntry(e, s.spt[k])
  {
  }

  /** A page mapped once stays so, and undisturbed, over every run that keeps off its file and
      loads it safely. */
  lemma {:induction false} MappedUndisturbed(m: Machine, evs: seq<Event>, k: Key, n: nat)
    requires MachineOk(m) && Possible(m, evs) && Sole(m.vm, k, n)
    requires forall ev | ev in evs :: KeepsOff(ev, n, m.vm.spt[k]) && !Removes(ev, k)
    requires LoadsSafely(m, evs, k)
    ensures Undisturbed(m, evs, k) && MachineOk(After(m, evs)) && Sole(After(m, evs).vm, k, n)
    decreases |evs|
  {
    hide MachineOk, Enabled, Step, Endangers, Still, Removes, KeepsOff, LoadSafely, SameEntry, Aliased, Denied;
    if evs != [] {
      var ev := evs[0];
      assert ev in evs;
      StepUndisturbed(m, ev, k, n);
      StepSole(m, ev, k, n, m.vm.spt[k]);
      var m1 := Step(m, ev).machine;
      StillSame(m.vm.spt[k], m1.vm, k);
      forall x | x in evs[1..] ensures KeepsOff(x, n, m1.vm.spt[k]) && !Removes(x, k) {
        assert x in evs;
        SameOff(x, n, m.vm.spt[k], m1.vm.spt[k]);
      }
      MappedUndisturbed(m1, evs[1..], k, n);
    }
  }

  /** Flat memory with one mapped page as it shows now. */
  ghost function WithPage(s: Vm, k: Key): Flat
    requires Inv(s) && k in s.spt
  {
    Plain(s)[k := View(s, k)[..PromisedHere(s, k)]]
  }

  ghost function PromisedHere(s: Vm, k: Key): (n: nat)
    requires Inv(s) && k in s.spt
    ensures n == Promised(s.spt[k]) <= PGSIZE
  {
    EntryIsOk(s, k);
    Promised(s.spt[k])
  }

  lemma WithPageAgrees(s: Vm, k: Key)
    requires Inv(s) && k in s.spt && Synced(s, k)
    ensures Agrees(s, WithPage(s, k))
  {
    hide Inv, View, Synced;
    PlainAgrees(s);
  }

  /** No danger to a page mapped once but from its own load. */
  lemma FinalReadSafe(m: Machine, t: nat, addr: nat, esp: nat, n: nat)
    requires MachineOk(m) && Sole(m.vm, Key(t, addr / PGSIZE), n)
    requires LoadSafely(m, Read(t, addr, esp), Key(t, addr / PGSIZE))
    ensures !AtRisk(m.vm, t, addr, esp, Key(t, addr / PGSIZE))
  {
    hide Inv, ExeOk, MapsOk, LoadHazard, Aliased, Denied, Danger;
    SinglyMappedIsSafe(m.vm, t, addr, esp, Key(t, addr / PGSIZE));
  }

  /** From any good state on, a page mapped once from a writable file reads as it was, but for
      the writes made to it, as far as its file goes. */
  lemma MappedReadsAsWritten(m: Machine, evs: seq<Event>, n: nat, t: nat, addr: nat, esp: nat)
    requires MachineOk(m) && Possible(m, evs) && Sole(m.vm, Key(t, addr / PGSIZE), n)
    requires Synced(m.vm, Key(t, addr / PGSIZE)) && addr % PGSIZE < m.vm.spt[Key(t, addr / PGSIZE)].readBytes
    requires forall ev | ev in evs ::
               KeepsOff(ev, n, m.vm.spt[Key(t, addr / PGSIZE)]) && !Removes(ev, Key(t, addr / PGSIZE))
    requires LoadsSafely(m, evs, Key(t, addr / PGSIZE))
    ensures MachineOk(After(m, evs))
    ensures var m1 := After(m, evs); var k, i := Key(t, addr / PGSIZE), addr % PGSIZE;
            var r := DidRead(m1, t, addr, esp); var e := m.vm.spt[k];
            k in m1.vm.spt && (LoadSafely(m1, Read(t, addr, esp), k) ==>
              && (r.Went? <==> m1.vm.spt[k].status.Memory? || RoomCanBeMade(m1.vm))
              && (r.Went? && e.readBytes <= PGSIZE ==>
                    var v := Rewritten(m, View(m.vm, k)[..e.readBytes], evs, k); i < |v| && r.read == [v[i]]))
    ensures m.vm.spt[Key(t, addr / PGSIZE)].readBytes <= PGSIZE
  {
    hide Inv, ExeOk, MapsOk, Agrees, DidRead, AtRisk, Undisturbed, Rewritten, Possible, After, View, Removes, KeepsOff,
      LoadSafely, LoadsSafely, Synced, Plain, Aliased, Denied, RoomCanBeMade, LoadHazard;
    var k := Key(t, addr / PGSIZE);
    var flat := WithPage(m.vm, k);
    WithPageAgrees(m.vm, k);
    MappedUndisturbed(m, evs, k, n);
    ReadsRewritten(m, flat, evs, t, addr, esp);
    RewrittenSize(m, flat[k], evs, k);
    var m1 := After(m, evs);
    if LoadSafely(m1, Read(t, addr, esp), k) {
      FinalReadSafe(m1, t, addr, esp, n);
      SafeLoad(m1, t, addr, esp);
      LoadedIsRead(m1, t, addr, esp);
    }
  }

  lemma SafeLoad(m: Machine, t: nat, addr: nat, esp: nat)
    requires var k := Key(t, addr / PGSIZE); MachineOk(m) && k in m.vm.spt && LoadSafely(m, Read(t, addr, esp), k)
    ensures var k := Key(t, addr / PGSIZE); m.vm.spt[k].status.Lazy? ==> !LoadHazard(m.vm, k)
  {
    hide MachineOk, LoadHazard;
  }

  /** After a completed write the page shows the byte, whatever happened before. */
  lemma WrittenByteShows(m: Machine, t: nat, addr: nat, esp: nat, b: Byte)
    requires MachineOk(m) && Ready(m.vm, t, addr, esp, true).Resumed?
    ensures var r := DidWrite(m, t, addr, esp, b); var k := Key(t, addr / PGSIZE);
            && r.Went? && MachineOk(r.machine)
            && k in r.machine.vm.spt && Synced(r.machine.vm, k) && View(r.machine.vm, k)[addr % PGSIZE] == b
  {
    hide Inv, ExeOk, MapsOk, Ready, View, Synced, Agrees, Plain, Present, Store;
    PlainAgrees(m.vm);
    WriteAgrees(m, Plain(m.vm), t, addr, esp, b);
    ReadyBringsIn(m.vm, t, addr, esp, true);
    StoredView(Ready(m.vm, t, addr, esp, true).vm, Key(t, addr / PGSIZE), addr % PGSIZE, b);
  }

  /** The last byte written to a mapped file is the byte read: over every run from boot, for
      every page that is mapped once from a writable file, as far as the file goes. */
  lemma LastWriteIsReadMapped(m: Machine, before: seq<Event>, n: nat, t: nat, addr: nat, esp: nat, b: Byte,
                              evs: seq<Event>, esp': nat)
    requires RunFromBoot(m, before) && Ready(Reached(m, before).vm, t, addr, esp, true).Resumed?
    ensures var w := Write(t, addr, esp, b); var k := Key(t, addr / PGSIZE);
            && Step(Reached(m, before), w).Went? && MachineOk(Step(Reached(m, before), w).machine)
            && var m1 := Step(Reached(m, before), w).machine;
               && Sole(m1.vm, k, n) && addr % PGSIZE < m1.vm.spt[k].readBytes && Possible(m1, evs)
               && (forall ev | ev in evs :: KeepsOff(ev, n, m1.vm.spt[k]) && !Removes(ev, k) && !StoresAt(ev, t, addr))
               && LoadsSafely(m1, evs, k) ==>
                 && MachineOk(After(m1, evs)) && k in After(m1, evs).vm.spt
                 && var r, s := DidRead(After(m1, evs), t, addr, esp'), After(m1, evs).vm;
                    LoadSafely(After(m1, evs), Read(t, addr, esp'), k) ==>
                      (r.Went? <==> s.spt[k].status.Memory? || RoomCanBeMade(s)) && (r.Went? ==> r.read == [b])
  {
    hide Inv, ExeOk, MapsOk, Ready, Reached, RunFromBoot, Possible, After, DidRead, DidWrite, Removes, StoresAt,
      KeepsOff, Rewritten, LoadSafely, LoadsSafely, View, Synced, Sole, RoomCanBeMade;
    var m0, k := Reached(m, before), Key(t, addr / PGSIZE);
    WrittenByteShows(m0, t, addr, esp, b);
    var m1 := Step(m0, Write(t, addr, esp, b)).machine;
    if Sole(m1.vm, k, n) && addr % PGSIZE < m1.vm.spt[k].readBytes && Possible(m1, evs)
       && (forall ev | ev in evs :: KeepsOff(ev, n, m1.vm.spt[k]) && !Removes(ev, k) && !StoresAt(ev, t, addr))
       && LoadsSafely(m1, evs, k)
    {
      MappedReadsAsWritten(m1, evs, n, t, addr, esp');
      OtherWrites(m1, View(m1.vm, k)[..m1.vm.spt[k].readBytes], evs, t, addr);
    }
  }
}
