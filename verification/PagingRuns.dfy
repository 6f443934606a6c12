/** Runs: any sequence of reads, writes, program starts, mappings, unmappings, file writes
    and exits, in any interleaving.  Paging is transparent over every run. */
module PagingRuns {
  import opened Basics
  import opened Paging
  import opened PagingInvariant
  import opened PagingSteps
  import opened PagingViews
  import opened PagingTransparency
  import opened PagingAccess
  import opened PagingEvolution
  import opened PagingTeardown
  import opened PagingFlat
  import opened PagingMachine

  const STACK_PAGE: nat := 0xBFFFF

  /** One page of a program's image. */
  datatype Segment = Segment(offset: nat, readBytes: nat, writable: bool)

  datatype Event =
    | Read(t: nat, addr: nat, esp: nat)
    | Write(t: nat, addr: nat, esp: nat, b: Byte)
    | Exec(t: nat, f: nat, inode: nat, pos: nat, image: map<nat, Segment>)
    | Mmap(t: nat, f: nat, inode: nat, base: nat)
    | Munmap(f: nat, pages: seq<Key>)
    | FileWrite(inode: nat, ofs: nat, buf: Bytes)
    | Exit(t: nat, mapped: seq<Key>, rest: seq<Key>)

  /** What must hold for an event to be possible at all. */
  ghost predicate Enabled(m: Machine, ev: Event) {
    match ev
    case Read(_, _, _) => true
    case Write(_, _, _, _) => true
    case Exec(t, f, inode, _, image) =>
      && t !in m.exe && (forall k | k in m.vm.spt :: k.owner != t) && f !in m.vm.files && inode in m.vm.inodes
      && STACK_PAGE !in image && (forall p | p in image :: image[p].readBytes <= PGSIZE)
    case Mmap(t, f, inode, _) => t in m.exe && f !in m.vm.files && inode in m.vm.inodes
    case Munmap(f, pages) => PagesOf(m.vm, f, pages) && pages != []
    case FileWrite(inode, _, _) => inode in m.vm.inodes
    case Exit(t, mapped, rest) => t in m.exe && PagesOfThread(m.vm, t, mapped, rest)
  }

  /** A kernel panic, or the machine after the event with the byte a completed read returned. */
  datatype Result = Crash | Went(machine: Machine, read: Bytes)

  // ---- starting a program -------------------------------------------------------------------------

  function ImagePages(t: nat, f: nat, image: map<nat, Segment>): map<Key, Spte> {
    map k: Key | k in (set p | p in image :: Key(t, p)) ::
      Spte(Lazy, f, image[k.page].offset, image[k.page].readBytes, image[k.page].writable, false)
  }

  /** load and setup_stack.  Making the stack page evicts, at most, a page that exists
      already, so the image's pages may just as well be entered after it. */
  function Started(m: Machine, t: nat, f: nat, inode: nat, pos: nat, image: map<nat, Segment>): Result
    requires MachineOk(m) && Enabled(m, Exec(t, f, inode, pos, image))
  {
    match FreshPage(m.vm, Key(t, STACK_PAGE))
    case Resumed(s1) =>
      Went(Machine(Added(s1, ImagePages(t, f, image), f, OpenFile(inode, pos, true)), m.exe[t := f]), [])
    case _ => Crash
  }

  /** The flat memory once the stack page is there. */
  ghost function WithStack(s: Vm, flat: Flat, k: Key): Flat
    requires Inv(s)
  {
    (map j | j in flat && !EvictHazard(s, j) :: flat[j])[k := Filled(0)]
  }

  lemma StackAgrees(s: Vm, flat: Flat, k: Key)
    requires Inv(s) && Agrees(s, flat) && k !in s.spt && FreshPage(s, k).Resumed?
    ensures Inv(FreshPage(s, k).vm) && Agrees(FreshPage(s, k).vm, WithStack(s, flat, k))
  {
    hide Inv, View, Synced, FreshPage, EvictHazard, Kept, Present, Filled;
    FreshIsZero(s, k);
    FreshEvolves(s, k);
    var s', flat' := FreshPage(s, k).vm, WithStack(s, flat, k);
    forall j | j in flat' ensures Shows(s', j, flat'[j]) {
      if j == k {
        ZeroShows(s', k);
      } else {
        FreshOthers(s, k, j);
        KeptShows(s, s', j, flat[j]);
      }
    }
    forall j | j in s'.spt && !s'.spt[j].mmap ensures j in flat' {
      if j in s.spt && EvictHazard(s, j) {
        HazardIsMapped(s, j);
      }
    }
  }

  lemma ImageIsNew(m: Machine, s1: Vm, t: nat, f: nat, inode: nat, pos: nat, image: map<nat, Segment>)
    requires Enabled(m, Exec(t, f, inode, pos, image)) && Evolves(m.vm, s1)
    requires s1.spt.Keys == m.vm.spt.Keys + {Key(t, STACK_PAGE)}
    ensures NewPages(s1, ImagePages(t, f, image), f, OpenFile(inode, pos, true))
    ensures forall k | k in ImagePages(t, f, image) :: k.owner == t
  {
  }

  /** The flat memory after a program has been started. */
  ghost function StartedFlat(m: Machine, flat: Flat, t: nat, f: nat, inode: nat, pos: nat, image: map<nat,
      Segment>): Flat
    requires MachineOk(m) && Enabled(m, Exec(t, f, inode, pos, image)) && FreshPage(m.vm, Key(t, STACK_PAGE)).Resumed?
  {
    var s1 := FreshPage(m.vm, Key(t, STACK_PAGE)).vm;
    FreshEvolves(m.vm, Key(t, STACK_PAGE));
    WithImages(s1, WithStack(m.vm, flat, Key(t, STACK_PAGE)), ImagePages(t, f, image), OpenFile(inode, pos, true))
  }

  lemma StartedAgrees(m: Machine, flat: Flat, t: nat, f: nat, inode: nat, pos: nat, image: map<nat, Segment>)
    requires MachineOk(m) && Agrees(m.vm, flat) && Enabled(m, Exec(t, f, inode, pos, image))
    requires FreshPage(m.vm, Key(t, STACK_PAGE)).Resumed?
    ensures var r := Started(m, t, f, inode, pos, image);
            r.Went? && MachineOk(r.machine) && Agrees(r.machine.vm, StartedFlat(m, flat, t, f, inode, pos, image))
  {
    hide Inv, FreshPage, MapsOk, ExeOk, Agrees, WithStack, WithImages, NewPages, ImagePages, Added, Evolves;
    var k := Key(t, STACK_PAGE);
    StackAgrees(m.vm, flat, k);
    FreshIsZero(m.vm, k);
    FreshEvolves(m.vm, k);
    var s1 := FreshPage(m.vm, k).vm;
    EvolvesKeepsMachine(m, s1);
    ImageIsNew(m, s1, t, f, inode, pos, image);
    var added, file := ImagePages(t, f, image), OpenFile(inode, pos, true);
    AddedAgrees(s1, WithStack(m.vm, flat, k), added, f, file);
    AddedKeepsMaps(s1, added, f, file, t);
    AddedGainsExe(m.exe, s1, added, f, file, t);
  }

  // ---- mapping a file -----------------------------------------------------------------------------

  function MappingPages(t: nat, f: nat, base: nat, length: nat): map<Key, Spte> {
    map k: Key | k in (set p | base <= p < base + PageCount(length) :: Key(t, p)) ::
        MappingPage(f, k.page - base, length)
  }

  /** Page i of a mapping of length bytes. */
  function MappingPage(f: nat, i: nat, length: nat): (e: Spte)
    requires i < PageCount(length)
    ensures e.mmap && e.status.Lazy? && e.file == f && e.readBytes <= PGSIZE && e.offset + e.readBytes <= length
    ensures e.offset == i * PGSIZE
  {
    var ofs := i * PGSIZE;
    Spte(Lazy, f, ofs, if length - ofs < PGSIZE then length - ofs else PGSIZE, true, true)
  }

  /** sys_mmap with valid arguments: it fails on an empty file and on pages already in use. */
  function Mapped(m: Machine, t: nat, f: nat, inode: nat, base: nat): Machine
    requires MachineOk(m) && Enabled(m, Mmap(t, f, inode, base))
  {
    if CanMap(m.vm, t, inode, base)
    then m.(vm := Added(m.vm, MappingPages(t, f, base, |m.vm.inodes[inode]|), f, OpenFile(inode, 0, false)))
    else m
  }

  predicate CanMap(s: Vm, t: nat, inode: nat, base: nat)
    requires inode in s.inodes
  {
    |s.inodes[inode]| > 0 && forall p | base <= p < base + PageCount(|s.inodes[inode]|) :: Key(t, p) !in s.spt
  }

  lemma MappingIsNew(s: Vm, t: nat, f: nat, inode: nat, base: nat)
    requires f !in s.files && inode in s.inodes && CanMap(s, t, inode, base)
    ensures NewPages(s, MappingPages(t, f, base, |s.inodes[inode]|), f, OpenFile(inode, 0, false))
    ensures var added := MappingPages(t, f, base, |s.inodes[inode]|);
            && (forall k | k in added :: k.owner == t)
            && (forall k, k' | k in added && k' in added && k != k' :: !Overlaps(added[k], added[k']))
  {
    hide MappingPage;
  }

  ghost function MappedFlat(m: Machine, flat: Flat, t: nat, f: nat, inode: nat, base: nat): Flat
    requires MachineOk(m) && Enabled(m, Mmap(t, f, inode, base))
  {
    if CanMap(m.vm, t, inode, base) then
      MappingIsNew(m.vm, t, f, inode, base);
      WithImages(m.vm, flat, MappingPages(t, f, base, |m.vm.inodes[inode]|), OpenFile(inode, 0, false))
    else flat
  }

  lemma MappedAgrees(m: Machine, flat: Flat, t: nat, f: nat, inode: nat, base: nat)
    requires MachineOk(m) && Agrees(m.vm, flat) && Enabled(m, Mmap(t, f, inode, base))
    ensures var m' := Mapped(m, t, f, inode, base);
            MachineOk(m') && Agrees(m'.vm, MappedFlat(m, flat, t, f, inode, base))
  {
    hide Inv, MapsOk, ExeOk, Agrees, WithImages, NewPages, MappingPages, Added, CanMap;
    if CanMap(m.vm, t, inode, base) {
      MappingIsNew(m.vm, t, f, inode, base);
      var added, file := MappingPages(t, f, base, |m.vm.inodes[inode]|), OpenFile(inode, 0, false);
      AddedAgrees(m.vm, flat, added, f, file);
      AddedKeepsMaps(m.vm, added, f, file, t);
      AddedKeepsExe(m.exe, m.vm, added, f, file);
    }
  }

  // ---- writing a file -----------------------------------------------------------------------------

  /** A write system call, through whatever struct file: a protected inode is not changed. */
  function Written(s: Vm, inode: nat, ofs: nat, buf: Bytes): Vm
    requires inode in s.inodes
  {
    if Denied(s.files, inode) then s
    else s.(inodes := s.inodes[inode := Overlay(s.inodes[inode], ofs, buf)])
  }

  /** A write system call stores its bytes in the file, as far as the file has room for them, and
      changes nothing else; only a file that is denied writes stays as it was. */
  lemma FileWriteStores(m: Machine, inode: nat, ofs: nat, buf: Bytes, n: nat, i: nat)
    requires MachineOk(m) && Enabled(m, FileWrite(inode, ofs, buf)) && n in m.vm.inodes && i < |m.vm.inodes[n]|
    ensures var r := Step(m, FileWrite(inode, ofs, buf));
            && r.Went? && n in r.machine.vm.inodes && |r.machine.vm.inodes[n]| == |m.vm.inodes[n]|
            && r.machine.vm.inodes[n][i] ==
               (if n == inode && ofs <= i < ofs + |buf| && !Denied(m.vm.files, inode) then buf[i - ofs]
                else m.vm.inodes[n][i])
            && r.machine == m.(vm := m.vm.(inodes := r.machine.vm.inodes))
  {
    hide Inv, ExeOk, MapsOk, Denied;
  }

  /** The write changes file bytes that page j shows. */
  predicate Rewrites(s: Vm, inode: nat, ofs: nat, buf: Bytes, j: Key) {
    && j in s.spt && s.spt[j].mmap && s.spt[j].file in s.files && s.files[s.spt[j].file].inode == inode
    && !Denied(s.files, inode) && s.spt[j].offset < ofs + |buf| && ofs < s.spt[j].offset + s.spt[j].readBytes
  }

  lemma WrittenKeepsInv(m: Machine, inode: nat, ofs: nat, buf: Bytes)
    requires MachineOk(m) && inode in m.vm.inodes
    ensures MachineOk(m.(vm := Written(m.vm, inode, ofs, buf)))
  {
    hide PoolOk, TableOk, OwnersOk, NonePinned, DirectoryOk, SwapSized, SwapOk, BackedOk, ProtectedOk, Overlay, MapsOk,
      ExeOk;
    FilesMove(m.vm.spt, m.vm.files, m.vm.inodes, m.vm.files, Written(m.vm, inode, ofs, buf).inodes);
  }

  lemma WrittenFields(s: Vm, inode: nat, ofs: nat, buf: Bytes, j: Key)
    requires Inv(s) && inode in s.inodes && j in s.spt && !Rewrites(s, inode, ofs, buf, j)
    ensures SameFields(s, Written(s, inode, ofs, buf), j)
  {
    hide PoolOk, TableOk, OwnersOk, NonePinned, DirectoryOk, SwapSized, SwapOk, BackedOk, ProtectedOk, Denied, Overlay,
      Image;
    InvGuarded(s, j);
    PoolSizes(s);
    if s.spt[j].status.Memory? {
      ResidentFrame(s, j);
    }
    if FromFile(s.spt[j]) && s.files[s.spt[j].file].inode == inode && !Denied(s.files, inode) {
      OverlayElsewhere(s.inodes[inode], ofs, buf, s.spt[j].offset, s.spt[j].readBytes);
    }
  }

  ghost function Unwritten(s: Vm, flat: Flat, inode: nat, ofs: nat, buf: Bytes): Flat {
    map j | j in flat && !Rewrites(s, inode, ofs, buf, j) :: flat[j]
  }

  lemma WrittenAgrees(m: Machine, flat: Flat, inode: nat, ofs: nat, buf: Bytes)
    requires MachineOk(m) && Agrees(m.vm, flat) && inode in m.vm.inodes
    ensures var s' := Written(m.vm, inode, ofs, buf);
            MachineOk(m.(vm := s')) && Agrees(s', Unwritten(m.vm, flat, inode, ofs, buf))
  {
    hide Inv, MapsOk, ExeOk, Overlay, SameFields, View, Synced, Kept, Denied;
    WrittenKeepsInv(m, inode, ofs, buf);
    var s, s' := m.vm, Written(m.vm, inode, ofs, buf);
    var flat' := Unwritten(s, flat, inode, ofs, buf);
    forall j | j in flat' ensures Shows(s', j, flat'[j]) {
      WrittenFields(s, inode, ofs, buf, j);
      FieldsKept(s, s', j);
      KeptShows(s, s', j, flat[j]);
    }
  }

  // ---- accesses -----------------------------------------------------------------------------------

  /** A read: a process that is killed goes on to its Exit event. */
  function DidRead(m: Machine, t: nat, addr: nat, esp: nat): Result
    requires MachineOk(m)
  {
    ReadyBringsIn(m.vm, t, addr, esp, false);
    match Ready(m.vm, t, addr, esp, false)
    case Resumed(s1) =>
      var k := Key(t, addr / PGSIZE);
      Went(m.(vm := Mark(s1, k, false)), [ByteAt(s1, k, addr % PGSIZE)])
    case Killed(s1) => Went(m.(vm := s1), [])
    case Panic => Crash
  }

  function DidWrite(m: Machine, t: nat, addr: nat, esp: nat, b: Byte): Result
    requires MachineOk(m)
  {
    ReadyBringsIn(m.vm, t, addr, esp, true);
    match Ready(m.vm, t, addr, esp, true)
    case Resumed(s1) => Went(m.(vm := Store(s1, Key(t, addr / PGSIZE), addr % PGSIZE, b)), [])
    case Killed(s1) => Went(m.(vm := s1), [])
    case Panic => Crash
  }

  /** The flat memory after the checks of an access that does not crash. */
  ghost function Faulted(s: Vm, flat: Flat, t: nat, addr: nat, esp: nat, write: bool): Flat
    requires Inv(s) && !Ready(s, t, addr, esp, write).Panic?
  {
    Checked(s, flat, t, addr, esp, Grows(s, Ready(s, t, addr, esp, write).vm, Key(t, addr / PGSIZE)))
  }

  lemma MarkEvolves(s: Vm, k: Key, write: bool)
    requires k in s.pd
    ensures Evolves(s, Mark(s, k, write))
  {
  }

  lemma StoreEvolves(s: Vm, k: Key, i: nat, b: Byte)
    requires Inv(s) && Present(s, k) && i < PGSIZE
    ensures Evolves(s, Store(s, k, i, b))
  {
    hide PoolOk, TableOk, OwnersOk, NonePinned, DirectoryOk, SwapSized, SwapOk, BackedOk, ProtectedOk;
    PresentFrame(s, k);
  }

  lemma ReadAgrees(m: Machine, flat: Flat, t: nat, addr: nat, esp: nat)
    requires MachineOk(m) && Agrees(m.vm, flat) && DidRead(m, t, addr, esp).Went?
    ensures var r := DidRead(m, t, addr, esp); var flat' := Faulted(m.vm, flat, t, addr, esp, false);
            MachineOk(r.machine) && Agrees(r.machine.vm, flat')
    ensures var r := DidRead(m, t, addr, esp); var flat' := Faulted(m.vm, flat, t, addr, esp, false);
            var k := Key(t, addr / PGSIZE);
            r.read != [] && k in flat' && addr % PGSIZE < |flat'[k]| ==> r.read == [flat'[k][addr % PGSIZE]]
  {
    hide Inv, Ready, MapsOk, ExeOk, Checked, Evolves, View, Synced, Present, Mark, ByteAt;
    var r := Ready(m.vm, t, addr, esp, false);
    var k := Key(t, addr / PGSIZE);
    var flat' := Faulted(m.vm, flat, t, addr, esp, false);
    ReadyBringsIn(m.vm, t, addr, esp, false);
    ReadyAgrees(m.vm, flat, t, addr, esp, false);
    ReadyEvolves(m.vm, t, addr, esp, false);
    EvolvesKeepsMachine(m, r.vm);
    if r.Resumed? {
      MarkedPresent(r.vm, k);
      MarkAgrees(r.vm, flat', k);
      MarkEvolves(r.vm, k, false);
      EvolvesKeepsMachine(m.(vm := r.vm), Mark(r.vm, k, false));
      if k in flat' && addr % PGSIZE < |flat'[k]| {
        ShownSize(r.vm, k, flat'[k]);
        ReadsView(r.vm, k, addr % PGSIZE, flat'[k]);
      }
    }
  }

  lemma MarkedPresent(s: Vm, k: Key)
    requires Present(s, k)
    ensures k in s.pd
  {
  }

  lemma ShownSize(s: Vm, k: Key, v: Bytes)
    requires Inv(s) && Shows(s, k, v)
    ensures |v| <= PGSIZE && (!s.spt[k].mmap ==> |v| == PGSIZE)
  {
    hide PoolOk, TableOk, OwnersOk, NonePinned, DirectoryOk, SwapSized, SwapOk, BackedOk, ProtectedOk, View, Synced;
    EntryIsOk(s, k);
  }

  /** What a write leaves in flat memory. */
  ghost function WriteFlat(m: Machine, flat: Flat, t: nat, addr: nat, esp: nat, b: Byte): Flat
    requires MachineOk(m) && DidWrite(m, t, addr, esp, b).Went?
  {
    var flat1 := Faulted(m.vm, flat, t, addr, esp, true);
    if Ready(m.vm, t, addr, esp, true).Resumed? then FlatStore(flat1, Key(t, addr / PGSIZE), addr % PGSIZE, b)
        else flat1
  }

  lemma WriteAgrees(m: Machine, flat: Flat, t: nat, addr: nat, esp: nat, b: Byte)
    requires MachineOk(m) && Agrees(m.vm, flat) && DidWrite(m, t, addr, esp, b).Went?
    ensures var r := DidWrite(m, t, addr, esp, b);
            MachineOk(r.machine) && Agrees(r.machine.vm, WriteFlat(m, flat, t, addr, esp, b))
  {
    hide Inv, Ready, MapsOk, ExeOk, Checked, Evolves, View, Synced, Present, Store, FlatStore, Agrees;
    var r := Ready(m.vm, t, addr, esp, true);
    var k := Key(t, addr / PGSIZE);
    ReadyBringsIn(m.vm, t, addr, esp, true);
    ReadyAgrees(m.vm, flat, t, addr, esp, true);
    ReadyEvolves(m.vm, t, addr, esp, true);
    EvolvesKeepsMachine(m, r.vm);
    if r.Resumed? {
      StoreAgrees(r.vm, Faulted(m.vm, flat, t, addr, esp, true), k, addr % PGSIZE, b);
      StoreEvolves(r.vm, k, addr % PGSIZE, b);
      EvolvesKeepsMachine(m.(vm := r.vm), Store(r.vm, k, addr % PGSIZE, b));
    }
  }

  // ---- runs ---------------------------------------------------------------------------------------

  function Step(m: Machine, ev: Event): Result
    requires MachineOk(m) && Enabled(m, ev)
  {
    match ev
    case Read(t, addr, esp) => DidRead(m, t, addr, esp)
    case Write(t, addr, esp, b) => DidWrite(m, t, addr, esp, b)
    case Exec(t, f, inode, pos, image) => Started(m, t, f, inode, pos, image)
    case Mmap(t, f, inode, base) => Went(Mapped(m, t, f, inode, base), [])
    case Munmap(f, pages) => Went(m.(vm := Unmap(m.vm, f, pages)), [])
    case FileWrite(inode, ofs, buf) => Went(m.(vm := Written(m.vm, inode, ofs, buf)), [])
    case Exit(t, mapped, rest) => Went(Exited(m, t, mapped, rest), [])
  }

  /** The same event in flat memory. */
  ghost function FlatStep(m: Machine, flat: Flat, ev: Event): Flat
    requires MachineOk(m) && Enabled(m, ev) && Step(m, ev).Went?
  {
    match ev
    case Read(t, addr, esp) => Faulted(m.vm, flat, t, addr, esp, false)
    case Write(t, addr, esp, b) => WriteFlat(m, flat, t, addr, esp, b)
    case Exec(t, f, inode, pos, image) => StartedFlat(m, flat, t, f, inode, pos, image)
    case Mmap(t, f, inode, base) => MappedFlat(m, flat, t, f, inode, base)
    case Munmap(f, pages) => Unviewed(m.vm, flat, pages)
    case FileWrite(inode, ofs, buf) => Unwritten(m.vm, flat, inode, ofs, buf)
    case Exit(t, mapped, rest) => Survivors(m.vm, flat, t, mapped)
  }

  /** One event: the machine stays good and keeps showing the flat memory. */
  lemma StepAgrees(m: Machine, flat: Flat, ev: Event)
    requires MachineOk(m) && Agrees(m.vm, flat) && Enabled(m, ev) && Step(m, ev).Went?
    ensures MachineOk(Step(m, ev).machine) && Agrees(Step(m, ev).machine.vm, FlatStep(m, flat, ev))
  {
    hide MachineOk, Agrees, Enabled, DidRead, DidWrite, Mapped, Unmap, Written, Exited, Faulted, WriteFlat,
      StartedFlat, MappedFlat, Unviewed, Unwritten, Survivors;
    MachineIsGood(m);
    match ev {
      case Read(t, addr, esp) => ReadAgrees(m, flat, t, addr, esp);
      case Write(t, addr, esp, b) => WriteAgrees(m, flat, t, addr, esp, b);
      case Exec(t, f, inode, pos, image) => StartedAgrees(m, flat, t, f, inode, pos, image);
      case Mmap(t, f, inode, base) => MappedAgrees(m, flat, t, f, inode, base);
      case Munmap(f, pages) => EnabledMunmap(m, f, pages); UnmapAgrees(m, flat, f, pages);
      case FileWrite(inode, ofs, buf) => EnabledWrite(m, inode, ofs, buf); WrittenAgrees(m, flat, inode, ofs, buf);
      case Exit(t, mapped, rest) => EnabledExit(m, t, mapped, rest); ExitAgrees(m, flat, t, mapped, rest);
    }
  }

  lemma MachineIsGood(m: Machine)
    requires MachineOk(m)
    ensures Inv(m.vm)
  {
  }

  lemma EnabledMunmap(m: Machine, f: nat, pages: seq<Key>)
    requires Enabled(m, Munmap(f, pages))
    ensures PagesOf(m.vm, f, pages) && pages != []
  {
  }

  lemma EnabledWrite(m: Machine, inode: nat, ofs: nat, buf: Bytes)
    requires Enabled(m, FileWrite(inode, ofs, buf))
    ensures inode in m.vm.inodes
  {
  }

  lemma EnabledExit(m: Machine, t: nat, mapped: seq<Key>, rest: seq<Key>)
    requires Enabled(m, Exit(t, mapped, rest))
    ensures t in m.exe && PagesOfThread(m.vm, t, mapped, rest)
  {
  }

  /** The flat memory that has just the pages no mapping made. */
  ghost function Plain(s: Vm): Flat
    requires Inv(s)
  {
    map k | k in s.spt && !s.spt[k].mmap :: View(s, k)
  }

  lemma PlainAgrees(s: Vm)
    requires Inv(s)
    ensures Agrees(s, Plain(s))
  {
    hide PoolOk, TableOk, OwnersOk, NonePinned, DirectoryOk, SwapSized, SwapOk, BackedOk, ProtectedOk, View;
  }

  /** The invariant survives every event. */
  lemma StepKeepsMachine(m: Machine, ev: Event)
    requires MachineOk(m) && Enabled(m, ev) && Step(m, ev).Went?
    ensures MachineOk(Step(m, ev).machine)
  {
    hide Inv, ExeOk, MapsOk, Agrees, Enabled, Step, Plain, FlatStep;
    PlainAgrees(m.vm);
    StepAgrees(m, Plain(m.vm), ev);
  }

  /** Every event of the run is possible when its turn comes, and none ends in a panic. */
  ghost predicate Possible(m: Machine, evs: seq<Event>)
    requires MachineOk(m)
    decreases |evs|
  {
    evs != [] ==>
      && Enabled(m, evs[0]) && Step(m, evs[0]).Went?
      && (StepKeepsMachine(m, evs[0]); Possible(Step(m, evs[0]).machine, evs[1..]))
  }

  function After(m: Machine, evs: seq<Event>): Machine
    requires MachineOk(m) && Possible(m, evs)
    decreases |evs|
  {
    if evs == [] then m
    else
      StepKeepsMachine(m, evs[0]);
      After(Step(m, evs[0]).machine, evs[1..])
  }

  ghost function FlatAfter(m: Machine, flat: Flat, evs: seq<Event>): Flat
    requires MachineOk(m) && Possible(m, evs)
    decreases |evs|
  {
    if evs == [] then flat
    else
      StepKeepsMachine(m, evs[0]);
      FlatAfter(Step(m, evs[0]).machine, FlatStep(m, flat, evs[0]), evs[1..])
  }

  /** Over every run the invariant holds and the machine shows the flat memory. */
  lemma {:induction false} RunAgrees(m: Machine, flat: Flat, evs: seq<Event>)
    requires MachineOk(m) && Possible(m, evs) && Agrees(m.vm, flat)
    ensures MachineOk(After(m, evs)) && Agrees(After(m, evs).vm, FlatAfter(m, flat, evs))
    decreases |evs|
  {
    hide Inv, ExeOk, MapsOk, Agrees, Enabled, Step, FlatStep;
    if evs != [] {
      StepKeepsMachine(m, evs[0]);
      StepAgrees(m, flat, evs[0]);
      RunAgrees(Step(m, evs[0]).machine, FlatStep(m, flat, evs[0]), evs[1..]);
    }
  }

  /** Nothing is running: no pages, no frames, empty swap. */
  ghost predicate Booted(m: Machine) {
    && m.exe == map[] && m.vm.spt == map[] && m.vm.pd == map[] && m.vm.frames == map[] && m.vm.table == []
       && m.vm.hand == NoHand
    && PoolOk(m.vm.used, m.vm.mem) && (forall p | 0 <= p < |m.vm.used| :: !m.vm.used[p])
    && SwapSized(m.vm.swapMap, m.vm.swapDev) && (forall i | 0 <= i < |m.vm.swapMap| :: !m.vm.swapMap[i])
  }

  lemma BootedOk(m: Machine)
    requires Booted(m)
    ensures MachineOk(m) && Agrees(m.vm, map[])
  {
  }

  ghost predicate RunFromBoot(m: Machine, evs: seq<Event>) {
    Booted(m) && (BootedOk(m); Possible(m, evs))
  }

  /** A run from boot ends in a good state: the frames, page directories, swap slots and
      files are still in the correspondence that MachineOk states. */
  function Reached(m: Machine, evs: seq<Event>): (m1: Machine)
    requires RunFromBoot(m, evs)
    ensures MachineOk(m1)
  {
    BootedOk(m);
    RunAgrees(m, map[], evs);
    After(m, evs)
  }

  /** After every run from boot: a page table entry is present exactly if its page is resident,
      and then it points at the frame that the page and no other owns ... */
  lemma PagesCorrespond(m: Machine, evs: seq<Event>, k: Key)
    requires RunFromBoot(m, evs)
    ensures var s := Reached(m, evs).vm;
            && (k in s.pd && s.pd[k].present <==> k in s.spt && s.spt[k].status.Memory?)
            && (k in s.pd && s.pd[k].present ==>
                  && s.spt[k].status == Memory(s.pd[k].kpage) && s.pd[k].writable == s.spt[k].writable
                  && s.pd[k].kpage in s.frames && s.frames[s.pd[k].kpage].key == k)
  {
    hide *;
    Directory(Reached(m, evs), k);
  }

  lemma Directory(m: Machine, k: Key)
    requires MachineOk(m)
    ensures var s := m.vm;
            && (k in s.pd && s.pd[k].present <==> k in s.spt && s.spt[k].status.Memory?)
            && (k in s.pd && s.pd[k].present ==>
                  && s.spt[k].status == Memory(s.pd[k].kpage) && s.pd[k].writable == s.spt[k].writable
                  && s.pd[k].kpage in s.frames && s.frames[s.pd[k].kpage].key == k)
  {
  }

  /** ... the frame table lists the used pages of the user pool, each once, and the clock hand
      rests on one of them if on any ... */
  lemma FramesAreUsedPages(m: Machine, evs: seq<Event>, p: nat)
    requires RunFromBoot(m, evs)
    ensures var s := Reached(m, evs).vm;
            && NoDuplicates(s.table) && (p in s.table <==> p < |s.used| && s.used[p])
            && (s.hand.On? ==> s.hand.kpage in s.table)
  {
    hide *;
    Used(Reached(m, evs), p);
  }

  lemma Used(m: Machine, p: nat)
    requires MachineOk(m)
    ensures var s := m.vm;
            && NoDuplicates(s.table) && (p in s.table <==> p < |s.used| && s.used[p])
            && (s.hand.On? ==> s.hand.kpage in s.table)
  {
  }

  /** ... and a swap slot is marked exactly if some page is in it, which then is the only one. */
  lemma SlotsCorrespond(m: Machine, evs: seq<Event>, i: nat)
    requires RunFromBoot(m, evs)
    ensures var s := Reached(m, evs).vm;
            && (i < |s.swapMap| && s.swapMap[i] <==> SlotTaken(s.spt, i))
            && forall k, k' | k in s.spt && k' in s.spt && s.spt[k].status == Swap(i) == s.spt[k'].status :: k == k'
  {
    hide *;
    Slots(Reached(m, evs), i);
  }

  lemma Slots(m: Machine, i: nat)
    requires MachineOk(m)
    ensures var s := m.vm;
            && (i < |s.swapMap| && s.swapMap[i] <==> SlotTaken(s.spt, i))
            && forall k, k' | k in s.spt && k' in s.spt && s.spt[k].status == Swap(i) == s.spt[k'].status :: k == k'
  {
  }

  ghost function Remembered(m: Machine, evs: seq<Event>): (flat: Flat)
    requires RunFromBoot(m, evs)
    ensures Agrees(Reached(m, evs).vm, flat)
  {
    BootedOk(m);
    RunAgrees(m, map[], evs);
    FlatAfter(m, map[], evs)
  }

  lemma AgreesHas(s: Vm, flat: Flat, k: Key)
    requires Inv(s) && Agrees(s, flat) && k in s.spt && !s.spt[k].mmap
    ensures k in flat && |flat[k]| == PGSIZE
  {
    hide Inv, View, Synced;
    ShownSize(s, k, flat[k]);
  }

  lemma ReadReady(m: Machine, t: nat, addr: nat, esp: nat)
    requires MachineOk(m) && DidRead(m, t, addr, esp).Went?
    ensures !Ready(m.vm, t, addr, esp, false).Panic?
  {
    hide MachineOk, Ready, Inv;
  }

  /** Paging is transparent: after any run from boot, a completed read of a page that no
      mapping made returns the flat memory's byte, and so does one of a mapped page as far as
      the flat memory still has it. */
  lemma Transparent(m: Machine, evs: seq<Event>, t: nat, addr: nat, esp: nat)
    requires RunFromBoot(m, evs)
    ensures var m1 := Reached(m, evs); var k := Key(t, addr / PGSIZE); var i := addr % PGSIZE;
            var r := DidRead(m1, t, addr, esp);
            r.Went? && r.read != [] ==>
              var flat := Faulted(m1.vm, Remembered(m, evs), t, addr, esp, false);
              && (k in r.machine.vm.spt && !r.machine.vm.spt[k].mmap ==> k in flat && |flat[k]| == PGSIZE)
              && (k in flat && i < |flat[k]| ==> r.read == [flat[k][i]])
  {
    hide Inv, ExeOk, MapsOk, DidRead, Reached, Remembered, Faulted, RunFromBoot, Agrees;
    var m1, flat := Reached(m, evs), Remembered(m, evs);
    var r, k := DidRead(m1, t, addr, esp), Key(t, addr / PGSIZE);
    if r.Went? {
      ReadReady(m1, t, addr, esp);
      ReadAgrees(m1, flat, t, addr, esp);
      var flat' := Faulted(m1.vm, flat, t, addr, esp, false);
      if k in r.machine.vm.spt && !r.machine.vm.spt[k].mmap {
        AgreesHas(r.machine.vm, flat', k);
      }
    }
  }

  // ---- flat memory is memory ----------------------------------------------------------------------

  /** The event is a completed write to page k. */
  ghost predicate Writes(m: Machine, ev: Event, k: Key)
    requires MachineOk(m)
  {
    ev.Write? && k == Key(ev.t, ev.addr / PGSIZE) && Ready(m.vm, ev.t, ev.addr, ev.esp, true).Resumed?
  }

  ghost function AfterWrite(m: Machine, v: Bytes, ev: Event, k: Key): Bytes
    requires MachineOk(m)
  {
    if Writes(m, ev, k) && ev.addr % PGSIZE < |v| then v[ev.addr % PGSIZE := ev.b] else v
  }

  lemma AccessRemembers(s: Vm, flat: Flat, t: nat, addr: nat, esp: nat, write: bool, k: Key)
    requires Inv(s) && k in s.spt && k in flat && !Ready(s, t, addr, esp, write).Panic? && !AtRisk(s, t, addr, esp, k)
    ensures k in Faulted(s, flat, t, addr, esp, write) && Faulted(s, flat, t, addr, esp, write)[k] == flat[k]
  {
    hide Inv, Ready, AtRisk, Filled;
  }

  lemma ImagesRemember(s: Vm, flat: Flat, added: map<Key, Spte>, file: OpenFile, k: Key)
    requires file.inode in s.inodes && (forall j | j in added :: added[j].readBytes <= PGSIZE) && k in flat
             && k !in added
    ensures k in WithImages(s, flat, added, file) && WithImages(s, flat, added, file)[k] == flat[k]
  {
    hide FirstView;
  }

  lemma StartRemembers(m: Machine, flat: Flat, t: nat, f: nat, inode: nat, pos: nat, image: map<nat, Segment>, k: Key)
    requires MachineOk(m) && Enabled(m, Exec(t, f, inode, pos, image)) && FreshPage(m.vm, Key(t, STACK_PAGE)).Resumed?
    requires k in flat && k in m.vm.spt && !EvictHazard(m.vm, k)
    ensures k in StartedFlat(m, flat, t, f, inode, pos, image)
            && StartedFlat(m, flat, t, f, inode, pos, image)[k] == flat[k]
  {
    hide Inv, ExeOk, MapsOk, FreshPage, Filled, EvictHazard, Evolves, WithImages;
    FreshEvolves(m.vm, Key(t, STACK_PAGE));
    InodesStay(m.vm, FreshPage(m.vm, Key(t, STACK_PAGE)).vm, inode);
    ImagesRemember(FreshPage(m.vm, Key(t, STACK_PAGE)).vm, WithStack(m.vm, flat, Key(t, STACK_PAGE)),
                   ImagePages(t, f, image), OpenFile(inode, pos, true), k);
  }

  lemma InodesStay(s: Vm, s': Vm, inode: nat)
    requires Evolves(s, s') && inode in s.inodes
    ensures inode in s'.inodes
  {
  }

  lemma MapRemembers(m: Machine, flat: Flat, t: nat, f: nat, inode: nat, base: nat, k: Key)
    requires MachineOk(m) && Enabled(m, Mmap(t, f, inode, base)) && k in flat && k in m.vm.spt
    ensures k in MappedFlat(m, flat, t, f, inode, base) && MappedFlat(m, flat, t, f, inode, base)[k] == flat[k]
  {
    hide Inv, ExeOk, MapsOk, CanMap, WithImages, MappingPages;
    if CanMap(m.vm, t, inode, base) {
      MappingIsNew(m.vm, t, f, inode, base);
      ImagesRemember(m.vm, flat, MappingPages(t, f, base, |m.vm.inodes[inode]|), OpenFile(inode, 0, false), k);
    }
  }

  lemma StartReady(m: Machine, t: nat, f: nat, inode: nat, pos: nat, image: map<nat, Segment>)
    requires MachineOk(m) && Enabled(m, Exec(t, f, inode, pos, image)) && Started(m, t, f, inode, pos, image).Went?
    ensures Key(t, STACK_PAGE) !in m.vm.spt && FreshPage(m.vm, Key(t, STACK_PAGE)).Resumed?
  {
    hide Inv, ExeOk, MapsOk, FreshPage;
  }

  lemma StoreRemembers(flat: Flat, j: Key, i: nat, b: Byte, k: Key)
    requires k in flat
    ensures k in FlatStore(flat, j, i, b)
    ensures FlatStore(flat, j, i, b)[k] == if j == k && i < |flat[k]| then flat[k][i := b] else flat[k]
  {
  }

  /** The event can take page k's content away from it. */
  predicate Endangers(m: Machine, ev: Event, k: Key)
    requires MachineOk(m)
  {
    match ev
    case Read(t, addr, esp) => AtRisk(m.vm, t, addr, esp, k)
    case Write(t, addr, esp, _) => AtRisk(m.vm, t, addr, esp, k)
    case Exec(_, _, _, _, _) => EvictHazard(m.vm, k)
    case Mmap(_, _, _, _) => false
    case Munmap(_, pages) => exists i | i in pages :: Overwrites(m.vm, i, k)
    case FileWrite(inode, ofs, buf) => Rewrites(m.vm, inode, ofs, buf, k)
    case Exit(_, mapped, _) => exists i | i in mapped :: Overwrites(m.vm, i, k)
  }

  /** The event removes page k. */
  predicate Removes(ev: Event, k: Key) {
    (ev.Exit? && ev.t == k.owner) || (ev.Munmap? && k in ev.pages)
  }

  /** The flat memory is a memory: a page that an event neither removes nor endangers is
      changed by writes to it and by nothing else. */
  lemma FlatRemembers(m: Machine, flat: Flat, ev: Event, k: Key)
    requires MachineOk(m) && Enabled(m, ev) && Step(m, ev).Went?
    requires k in m.vm.spt && k in flat && !Endangers(m, ev, k) && !Removes(ev, k)
    ensures k in FlatStep(m, flat, ev) && FlatStep(m, flat, ev)[k] == AfterWrite(m, flat[k], ev, k)
  {
    hide Inv, ExeOk, MapsOk, Ready, AtRisk, Overwrites, Rewrites, EvictHazard, Faulted, StartedFlat, MappedFlat,
      Mapped, Written, Exited, Unmap, DidRead, Started, Enabled, FlatStore;
    match ev {
      case Read(t, addr, esp) =>
        ReadReady(m, t, addr, esp);
        AccessRemembers(m.vm, flat, t, addr, esp, false, k);
      case Write(t, addr, esp, b) =>
        AccessRemembers(m.vm, flat, t, addr, esp, true, k);
        StoreRemembers(Faulted(m.vm, flat, t, addr, esp, true), Key(t, addr / PGSIZE), addr % PGSIZE, b, k);
      case Exec(t, f, inode, pos, image) =>
        StartReady(m, t, f, inode, pos, image);
        StartRemembers(m, flat, t, f, inode, pos, image, k);
      case Mmap(t, f, inode, base) => MapRemembers(m, flat, t, f, inode, base, k);
      case Munmap(f, pages) =>
      case FileWrite(inode, ofs, buf) =>
      case Exit(t, mapped, rest) =>
    }
  }

  /** Pages that no mapping made are never endangered. */
  lemma OrdinaryPageIsSafe(m: Machine, ev: Event, k: Key)
    requires MachineOk(m) && k in m.vm.spt && !m.vm.spt[k].mmap
    ensures !Endangers(m, ev, k)
  {
    hide Inv, ExeOk, MapsOk, AtRisk, EvictHazard, Overwrites;
    match ev {
      case Read(t, addr, esp) => NotAtRisk(m.vm, t, addr, esp, k);
      case Write(t, addr, esp, b) => NotAtRisk(m.vm, t, addr, esp, k);
      case Exec(_, _, _, _, _) => NoHazard(m.vm, k);
      case Mmap(_, _, _, _) =>
      case Munmap(f, pages) =>
        forall i | i in pages ensures !Overwrites(m.vm, i, k) {
          OverwritesMapped(m.vm, i, k);
        }
      case FileWrite(inode, ofs, buf) =>
      case Exit(t, mapped, rest) =>
        forall i | i in mapped ensures !Overwrites(m.vm, i, k) {
          OverwritesMapped(m.vm, i, k);
        }
    }
  }

  /** A page mapped once, from a file that may be written, is endangered only by writes to
      its file and by its own load when the load's file position is moved. */
  lemma SinglyMappedPageIsSafe(m: Machine, ev: Event, k: Key)
    requires MachineOk(m) && k in m.vm.spt && m.vm.spt[k].mmap && m.vm.spt[k].file in m.vm.files
    requires !Denied(m.vm.files, m.vm.files[m.vm.spt[k].file].inode)
    requires forall i | i in m.vm.spt && i != k :: !Aliased(m.vm, k, i)
    requires Enabled(m, ev) && !Removes(ev, k)
    ensures Endangers(m, ev, k) ==>
              || (ev.FileWrite? && Rewrites(m.vm, ev.inode, ev.ofs, ev.buf, k))
              || ((ev.Read? || ev.Write?) && k == Key(ev.t, ev.addr / PGSIZE)
                  && m.vm.spt[k].status.Lazy? && LoadHazard(m.vm, k))
  {
    hide Inv, ExeOk, MapsOk, LoadHazard, Danger, Denied, Aliased;
    match ev {
      case Read(t, addr, esp) => SinglyMappedIsSafe(m.vm, t, addr, esp, k);
      case Write(t, addr, esp, b) => SinglyMappedIsSafe(m.vm, t, addr, esp, k);
      case Exec(_, _, _, _, _) =>
      case Mmap(_, _, _, _) =>
      case Munmap(f, pages) =>
      case FileWrite(inode, ofs, buf) =>
      case Exit(t, mapped, rest) =>
    }
  }

  lemma NotAtRisk(s: Vm, t: nat, addr: nat, esp: nat, k: Key)
    requires Inv(s) && k in s.spt && !s.spt[k].mmap
    ensures !AtRisk(s, t, addr, esp, k)
  {
    hide Inv, Danger;
    AnonymousIsSafe(s, t, addr, esp, k);
  }

  lemma NoHazard(s: Vm, k: Key)
    requires Inv(s) && k in s.spt && !s.spt[k].mmap
    ensures !EvictHazard(s, k)
  {
    hide Inv, EvictHazard;
    if EvictHazard(s, k) {
      HazardIsMapped(s, k);
    }
  }
}
