/** The other events of a run: starting a program, mapping and unmapping files, writing
    files, and the end of a process. */
module PagingMachine {
  import opened Basics
  import opened Paging
  import opened PagingInvariant
  import opened PagingSteps
  import opened PagingViews
  import opened PagingTransparency
  import opened PagingAccess
  import opened PagingEvolution
  import opened PagingTeardown
  import opened PagingFlat

  /** Paging state and the executable each process has open. */
  datatype Machine = Machine(vm: Vm, exe: map<nat, nat>)

  /** Every running process has its executable open and write-protected, and only its own
      pages are loaded from it. */
  ghost predicate ExeOk(exe: map<nat, nat>, spt: map<Key, Spte>, files: map<nat, OpenFile>) {
    && (forall t | t in exe :: exe[t] in files && files[exe[t]].denyWrite)
    && (forall t, t' | t in exe && t' in exe && exe[t] == exe[t'] :: t == t')
    && (forall k | k in spt && FromExecutable(spt[k]) :: k.owner in exe && spt[k].file == exe[k.owner])
  }

  predicate Overlaps(e: Spte, e': Spte) {
    e.offset < e'.offset + e'.readBytes && e'.offset < e.offset + e.readBytes
  }

  /** Every mapping has a struct file of its own, belongs to one process, and shows each byte once. */
  ghost predicate MapsOk(spt: map<Key, Spte>, files: map<nat, OpenFile>) {
    && (forall k | k in spt && spt[k].mmap :: spt[k].file in files && !files[spt[k].file].denyWrite)
    && (forall k, k' | k in spt && k' in spt && k != k' && spt[k].mmap && spt[k'].mmap && spt[k].file == spt[k'].file ::
          k.owner == k'.owner && !Overlaps(spt[k], spt[k']))
  }

  ghost predicate MachineOk(m: Machine) {
    Inv(m.vm) && ExeOk(m.exe, m.vm.spt, m.vm.files) && MapsOk(m.vm.spt, m.vm.files)
  }

  /** Faults keep what the machine knows of executables and mappings. */
  lemma EvolvesKeepsMachine(m: Machine, s': Vm)
    requires MachineOk(m) && Inv(s') && Evolves(m.vm, s')
    ensures MachineOk(m.(vm := s'))
  {
    hide Inv;
    EvolvesKeepsExe(m.exe, m.vm, s');
    EvolvesKeepsMaps(m.vm, s');
  }

  lemma EvolvesKeepsExe(exe: map<nat, nat>, s: Vm, s': Vm)
    requires ExeOk(exe, s.spt, s.files) && Evolves(s, s')
    ensures ExeOk(exe, s'.spt, s'.files)
  {
  }

  lemma EvolvesKeepsMaps(s: Vm, s': Vm)
    requires MapsOk(s.spt, s.files) && Evolves(s, s')
    ensures MapsOk(s'.spt, s'.files)
  {
  }

  // ---- new lazy pages -----------------------------------------------------------------------------

  /** New pages all backed by one newly opened file: lazy, inside the file if mapped, and
      mapped exactly if the file is not write-protected. */
  ghost predicate NewPages(s: Vm, added: map<Key, Spte>, f: nat, file: OpenFile) {
    && f !in s.files && file.inode in s.inodes
    && (forall k | k in added :: k !in s.spt && added[k].status.Lazy? && added[k].file == f
                                 && added[k].mmap == !file.denyWrite && added[k].readBytes <= PGSIZE
                                 && (added[k].mmap ==> added[k].offset + added[k].readBytes <= |s.inodes[file.inode]|))
  }

  /** spt_initialize_file_as_lazy's effect, together with opening the file. */
  function Added(s: Vm, added: map<Key, Spte>, f: nat, file: OpenFile): Vm {
    s.(spt := s.spt + added, files := s.files[f := file])
  }

  lemma StillDenied(files: map<nat, OpenFile>, f: nat, file: OpenFile, inode: nat)
    requires f !in files
    ensures Denied(files, inode) ==> Denied(files[f := file], inode)
  {
    if Denied(files, inode) {
      var g :| g in files && files[g].inode == inode && files[g].denyWrite;
      assert g in files[f := file];
    }
  }

  lemma AddedKeepsCore(s: Vm, added: map<Key, Spte>, f: nat, file: OpenFile)
    requires Inv(s) && NewPages(s, added, f, file)
    ensures Core(Added(s, added, f, file))
  {
    hide PoolOk, TableOk, NonePinned, OwnersOk, DirectoryOk, SwapOk, SwapSized, BackedOk, ProtectedOk;
    AddedKeepsSwap(s.swapMap, s.spt, added);
    AddedKeepsOwners(s.frames, s.pd, s.spt, added);
  }

  lemma AddedKeepsOwners(frames: map<nat, Frame>, pd: map<Key, Pte>, spt: map<Key, Spte>, added: map<Key, Spte>)
    requires OwnersOk(frames, spt) && DirectoryOk(pd, spt)
    requires forall k | k in added :: k !in spt && added[k].status.Lazy?
    ensures OwnersOk(frames, spt + added) && DirectoryOk(pd, spt + added)
  {
  }

  lemma AddedKeepsSwap(swapMap: seq<bool>, spt: map<Key, Spte>, added: map<Key, Spte>)
    requires SwapOk(swapMap, spt) && (forall k | k in added :: k !in spt && added[k].status.Lazy?)
    ensures SwapOk(swapMap, spt + added)
  {
    forall i | 0 <= i < |swapMap| && swapMap[i] ensures SlotTaken(spt + added, i) {
      assert SlotTaken(spt, i);
      var j :| j in spt && spt[j].status == Swap(i);
      assert j in spt + added && (spt + added)[j].status == Swap(i);
    }
  }

  lemma AddedKeepsFiles(s: Vm, added: map<Key, Spte>, f: nat, file: OpenFile)
    requires BackedOk(s.spt, s.files, s.inodes) && ProtectedOk(s.spt, s.files) && NewPages(s, added, f, file)
    ensures var s' := Added(s, added, f, file); BackedOk(s'.spt, s'.files, s'.inodes) && ProtectedOk(s'.spt, s'.files)
  {
    hide Denied;
    var s' := Added(s, added, f, file);
    forall k | k in s'.spt && FromExecutable(s'.spt[k]) ensures Denied(s'.files, s'.files[s'.spt[k].file].inode) {
      if k in added {
        NowDenied(s'.files, f);
      } else {
        StillDenied(s.files, f, file, s.files[s.spt[k].file].inode);
      }
    }
  }

  lemma NowDenied(files: map<nat, OpenFile>, f: nat)
    requires f in files && files[f].denyWrite
    ensures Denied(files, files[f].inode)
  {
  }

  lemma AddedKeepsInv(s: Vm, added: map<Key, Spte>, f: nat, file: OpenFile)
    requires Inv(s) && NewPages(s, added, f, file)
    ensures Inv(Added(s, added, f, file))
  {
    hide PoolOk, TableOk, OwnersOk, NonePinned, DirectoryOk, SwapSized, SwapOk, BackedOk, ProtectedOk, NewPages;
    AddedKeepsCore(s, added, f, file);
    AddedKeepsFiles(s, added, f, file);
  }

  /** Old pages do not notice the new ones. */
  lemma AddedKept(s: Vm, added: map<Key, Spte>, f: nat, file: OpenFile, j: Key)
    requires Inv(s) && NewPages(s, added, f, file) && j in s.spt && Synced(s, j)
    ensures Inv(Added(s, added, f, file)) && Kept(s, Added(s, added, f, file), j)
  {
    hide PoolOk, TableOk, OwnersOk, NonePinned, DirectoryOk, SwapSized, SwapOk, BackedOk, ProtectedOk, Image, Slot;
    AddedKeepsInv(s, added, f, file);
    EntryIsOk(s, j);
    if s.spt[j].status.Memory? {
      ResidentFrame(s, j);
      PoolSizes(s);
    }
    KeptByFields(s, Added(s, added, f, file), j);
  }

  /** What a new page shows: the bytes its file has. */
  function FirstView(data: Bytes, e: Spte): (v: Bytes)
    requires e.readBytes <= PGSIZE
    ensures |v| == Promised(e)
  {
    Image(data, e.offset, e.readBytes)[..Promised(e)]
  }

  lemma AddedShows(s: Vm, added: map<Key, Spte>, f: nat, file: OpenFile, k: Key)
    requires Inv(s) && NewPages(s, added, f, file) && k in added
    ensures Inv(Added(s, added, f, file))
    ensures Shows(Added(s, added, f, file), k, FirstView(s.inodes[file.inode], added[k]))
  {
    hide PoolOk, TableOk, OwnersOk, NonePinned, DirectoryOk, SwapSized, SwapOk, BackedOk, ProtectedOk, Image, Slot;
    AddedKeepsInv(s, added, f, file);
  }

  /** The flat memory gains the file's bytes. */
  ghost function WithImages(s: Vm, flat: Flat, added: map<Key, Spte>, file: OpenFile): Flat
    requires file.inode in s.inodes && forall k | k in added :: added[k].readBytes <= PGSIZE
  {
    flat + map k | k in added :: FirstView(s.inodes[file.inode], added[k])
  }

  lemma AddedAgrees(s: Vm, flat: Flat, added: map<Key, Spte>, f: nat, file: OpenFile)
    requires Inv(s) && Agrees(s, flat) && NewPages(s, added, f, file)
    ensures Inv(Added(s, added, f, file)) && Agrees(Added(s, added, f, file), WithImages(s, flat, added, file))
  {
    hide PoolOk, TableOk, OwnersOk, NonePinned, DirectoryOk, SwapSized, SwapOk, BackedOk, ProtectedOk, View, Synced,
      Kept, FirstView;
    AddedKeepsInv(s, added, f, file);
    var s', flat' := Added(s, added, f, file), WithImages(s, flat, added, file);
    forall j | j in flat' ensures Shows(s', j, flat'[j]) {
      if j in added {
        AddedShows(s, added, f, file, j);
      } else {
        AddedKept(s, added, f, file, j);
        KeptShows(s, s', j, flat[j]);
      }
    }
  }

  lemma AddedKeepsMaps(s: Vm, added: map<Key, Spte>, f: nat, file: OpenFile, t: nat)
    requires Inv(s) && MapsOk(s.spt, s.files) && NewPages(s, added, f, file)
    requires forall k | k in added :: k.owner == t
    requires !file.denyWrite ==> forall k, k' | k in added && k' in added && k != k' :: !Overlaps(added[k], added[k'])
    ensures MapsOk(Added(s, added, f, file).spt, Added(s, added, f, file).files)
  {
    hide PoolOk, TableOk, OwnersOk, NonePinned, DirectoryOk, SwapSized, SwapOk, ProtectedOk, Overlaps;
  }

  lemma AddedKeepsExe(exe: map<nat, nat>, s: Vm, added: map<Key, Spte>, f: nat, file: OpenFile)
    requires ExeOk(exe, s.spt, s.files) && NewPages(s, added, f, file)
    requires file.denyWrite ==> added == map[]
    ensures ExeOk(exe, Added(s, added, f, file).spt, Added(s, added, f, file).files)
  {
  }

  lemma AddedGainsExe(exe: map<nat, nat>, s: Vm, added: map<Key, Spte>, f: nat, file: OpenFile, t: nat)
    requires ExeOk(exe, s.spt, s.files) && NewPages(s, added, f, file) && file.denyWrite && t !in exe
    requires forall k | k in added :: k.owner == t
    ensures ExeOk(exe[t := f], Added(s, added, f, file).spt, Added(s, added, f, file).files)
  {
  }

  /** How many pages a file of the given length takes. */
  function PageCount(length: nat): nat {
    (length + PGSIZE - 1) / PGSIZE
  }

  // ---- unmapping ----------------------------------------------------------------------------------

  lemma FieldsKept(s: Vm, s': Vm, j: Key)
    requires Inv(s) && Inv(s') && j in s.spt && Synced(s, j) && SameFields(s, s', j)
    ensures Kept(s, s', j)
  {
    hide Inv, Synced, ImageSame, Dirty;
    KeptByFields(s, s', j);
  }

  /** Closing files that page j does not use. */
  lemma CloseFields(s: Vm, closed: set<nat>, j: Key)
    requires Core(s) && j in s.spt && EntryOk(s.spt[j], s.files, s.inodes)
    requires FromFile(s.spt[j]) ==> s.spt[j].file !in closed
    ensures SameFields(s, s.(files := s.files - closed), j)
  {
    hide TableOk, OwnersOk, NonePinned, DirectoryOk, SwapSized, SwapOk, Image;
    if s.spt[j].status.Memory? {
      ResidentFrame(s, j);
    }
  }

  /** All pages of a mapping, in the order they are unmapped. */
  ghost predicate PagesOf(s: Vm, f: nat, ks: seq<Key>) {
    NoDuplicates(ks) && forall k :: k in ks <==> k in s.spt && s.spt[k].mmap && s.spt[k].file == f
  }

  /** mmap_unmap_and_flush */
  function Unmap(s: Vm, f: nat, ks: seq<Key>): Vm
    requires Inv(s) && PagesOf(s, f, ks)
  {
    PagesUnmappable(s, f, ks);
    var s' := Torn(s, ks);
    s'.(files := s'.files - {f})
  }

  lemma InvCore(s: Vm)
    requires Inv(s)
    ensures Core(s)
  {
  }

  lemma PagesUnmappable(s: Vm, f: nat, ks: seq<Key>)
    requires Inv(s) && PagesOf(s, f, ks)
    ensures Unmappable(s, ks)
  {
    hide PoolOk, TableOk, OwnersOk, NonePinned, DirectoryOk, SwapSized, SwapOk, ProtectedOk, EntryOk;
  }

  /** Which file a page that depends on one may not share with a mapping being closed. */
  lemma OthersFile(m: Machine, f: nat, ks: seq<Key>, j: Key)
    requires MachineOk(m) && PagesOf(m.vm, f, ks) && ks != [] && j in m.vm.spt && j !in ks && FromFile(m.vm.spt[j])
    ensures m.vm.spt[j].file != f
  {
    hide Inv, NoDuplicates;
    assert ks[0] in ks;
  }

  lemma UnmapKeepsInv(m: Machine, f: nat, ks: seq<Key>)
    requires MachineOk(m) && PagesOf(m.vm, f, ks) && ks != []
    ensures MachineOk(m.(vm := Unmap(m.vm, f, ks)))
    ensures Unmap(m.vm, f, ks).spt == m.vm.spt - (set k | k in ks)
  {
    hide PoolOk, TableOk, OwnersOk, NonePinned, DirectoryOk, SwapSized, SwapOk, BackedOk, ProtectedOk, ExeOk, MapsOk,
      Torn, SameFiles, SameLengths;
    var s := m.vm;
    PagesUnmappable(s, f, ks);
    TornKeeps(s, ks);
    var s1 := Torn(s, ks);
    FilesMove(s.spt, s.files, s.inodes, s1.files, s1.inodes);
    forall j | j in s1.spt && FromFile(s1.spt[j]) ensures s1.spt[j].file != f {
      OthersFile(m, f, ks, j);
    }
    MachineMoves(m, s1);
    assert MapsOk(s.spt, s.files) && ks[0] in ks;
    assert f in s1.files && !s1.files[f].denyWrite by { MappedFile(s, ks[0]); FilesSame(s.files, s1.files, f); }
    CloseKeeps(m.exe, s1, f);
  }

  lemma MappedFile(s: Vm, k: Key)
    requires MapsOk(s.spt, s.files) && k in s.spt && s.spt[k].mmap
    ensures s.spt[k].file in s.files && !s.files[s.spt[k].file].denyWrite
  {
  }

  lemma FilesSame(files: map<nat, OpenFile>, files': map<nat, OpenFile>, f: nat)
    requires SameFiles(files, files') && f in files
    ensures f in files' && files'[f].inode == files[f].inode && files'[f].denyWrite == files[f].denyWrite
  {
  }

  /** Pages went away and positions moved: the other conditions hold of what is left. */
  lemma MachineMoves(m: Machine, s': Vm)
    requires MachineOk(m) && s'.spt.Keys <= m.vm.spt.Keys && (forall k | k in s'.spt :: s'.spt[k] == m.vm.spt[k])
    requires SameFiles(m.vm.files, s'.files) && BackedOk(m.vm.spt, s'.files, s'.inodes)
             && ProtectedOk(m.vm.spt, s'.files)
    ensures ExeOk(m.exe, s'.spt, s'.files) && MapsOk(s'.spt, s'.files)
    ensures BackedOk(s'.spt, s'.files, s'.inodes) && ProtectedOk(s'.spt, s'.files)
  {
    hide Inv, EntryOk, Denied;
  }

  lemma CloseKeeps(exe: map<nat, nat>, s: Vm, f: nat)
    requires BackedOk(s.spt, s.files, s.inodes) && ProtectedOk(s.spt, s.files) && ExeOk(exe, s.spt, s.files)
             && MapsOk(s.spt, s.files)
    requires f in s.files && !s.files[f].denyWrite
    requires forall j | j in s.spt && FromFile(s.spt[j]) :: s.spt[j].file != f
    ensures var files' := s.files - {f};
            BackedOk(s.spt, files', s.inodes) && ProtectedOk(s.spt, files') && ExeOk(exe, s.spt, files')
                && MapsOk(s.spt, files')
  {
    hide Denied;
    var files' := s.files - {f};
    forall k | k in s.spt && FromExecutable(s.spt[k]) ensures Denied(files', files'[s.spt[k].file].inode) {
      NowDenied(files', exe[k.owner]);
    }
  }

  /** What munmap leaves of the flat memory: the mapping is gone, and so are other views of
      the bytes it rewrites. */
  ghost function Unviewed(s: Vm, flat: Flat, ks: seq<Key>): Flat {
    map j | j in flat && j !in ks && (forall k | k in ks :: !Overwrites(s, k, j)) :: flat[j]
  }

  lemma UnmapFields(m: Machine, f: nat, ks: seq<Key>, j: Key)
    requires MachineOk(m) && PagesOf(m.vm, f, ks) && ks != [] && j in m.vm.spt && j !in ks
    requires forall k | k in ks :: !Overwrites(m.vm, k, j)
    ensures SameFields(m.vm, Unmap(m.vm, f, ks), j)
  {
    hide Core, Inv, PagesOf, Torn, EntryOk, Overwrites, SameFields, Denied;
    var s := m.vm;
    PagesUnmappable(s, f, ks);
    InvGuarded(s, j);
    TornFields(s, ks, j);
    TornKeeps(s, ks);
    var s1 := Torn(s, ks);
    EntryStays(s.spt[j], s.files, s.inodes, s1.files, s1.inodes);
    if FromFile(s.spt[j]) {
      OthersFile(m, f, ks, j);
    }
    CloseFields(s1, {f}, j);
    SameFieldsTwice(s, s1, Unmap(s, f, ks), j);
  }

  lemma UnmapAgrees(m: Machine, flat: Flat, f: nat, ks: seq<Key>)
    requires MachineOk(m) && Agrees(m.vm, flat) && PagesOf(m.vm, f, ks) && ks != []
    ensures MachineOk(m.(vm := Unmap(m.vm, f, ks)))
    ensures Agrees(Unmap(m.vm, f, ks), Unviewed(m.vm, flat, ks))
  {
    hide Core, Inv, PagesOf, Unmap, Overwrites, SameFields, View, Synced, Kept;
    UnmapKeepsInv(m, f, ks);
    var s, s' := m.vm, Unmap(m.vm, f, ks);
    var flat' := Unviewed(s, flat, ks);
    forall j | j in flat' ensures Shows(s', j, flat'[j]) {
      UnmapFields(m, f, ks, j);
      FieldsKept(s, s', j);
      KeptShows(s, s', j, flat[j]);
    }
    forall j | j in s'.spt && !s'.spt[j].mmap ensures j in flat' {
      forall k | k in ks ensures !Overwrites(s, k, j) {
        OverwritesMapped(s, k, j);
      }
    }
  }

  lemma OverwritesMapped(s: Vm, k: Key, j: Key)
    requires j in s.spt && !s.spt[j].mmap
    ensures !Overwrites(s, k, j)
  {
  }

  // ---- the end of a process -----------------------------------------------------------------------

  /** The pages of thread t, mapped ones first, in the order they are given up. */
  ghost predicate PagesOfThread(s: Vm, t: nat, mapped: seq<Key>, rest: seq<Key>) {
    && NoDuplicates(mapped) && NoDuplicates(rest)
    && (forall k :: k in mapped <==> k in s.spt && k.owner == t && s.spt[k].mmap)
    && (forall k :: k in rest <==> k in s.spt && k.owner == t && !s.spt[k].mmap)
  }

  function FilesOf(s: Vm, ks: seq<Key>): set<nat>
    requires forall k | k in ks :: k in s.spt
  {
    set k | k in ks :: s.spt[k].file
  }

  /** process_cleanup's part: the executable is closed, then the mappings are flushed and
      closed, then the supplemental page table is destroyed. */
  function Closed(m: Machine, t: nat): Vm
    requires t in m.exe
  {
    m.vm.(files := m.vm.files - {m.exe[t]})
  }

  function Flushed(m: Machine, t: nat, mapped: seq<Key>): Vm
    requires t in m.exe && Unmappable(Closed(m, t), mapped)
  {
    var s1 := Torn(Closed(m, t), mapped);
    s1.(files := s1.files - FilesOf(m.vm, mapped))
  }

  /** What process_cleanup leaves. */
  function Vacated(m: Machine, t: nat, mapped: seq<Key>, rest: seq<Key>): Vm
    requires MachineOk(m) && t in m.exe && PagesOfThread(m.vm, t, mapped, rest)
  {
    ExitProceeds(m, t, mapped, rest);
    Destroyed(Flushed(m, t, mapped), rest)
  }

  /** pagedir_destroy: the page table entries of thread t are gone. */
  function EntriesWithout(pd: map<Key, Pte>, t: nat): map<Key, Pte> {
    map k | k in pd && k.owner != t :: pd[k]
  }

  function Exited(m: Machine, t: nat, mapped: seq<Key>, rest: seq<Key>): Machine
    requires MachineOk(m) && t in m.exe && PagesOfThread(m.vm, t, mapped, rest)
  {
    var s := Vacated(m, t, mapped, rest);
    Machine(s.(pd := EntriesWithout(s.pd, t)), m.exe - {t})
  }

  lemma WithoutKeepsCore(s: Vm, t: nat)
    requires Core(s) && forall k | k in s.spt :: k.owner != t
    ensures Core(s.(pd := EntriesWithout(s.pd, t)))
  {
    hide PoolOk, TableOk, OwnersOk, NonePinned, SwapSized, SwapOk;
  }

  lemma WithoutFields(s: Vm, t: nat, j: Key)
    requires Core(s) && j in s.spt && j.owner != t && EntryOk(s.spt[j], s.files, s.inodes)
    ensures SameFields(s, s.(pd := EntriesWithout(s.pd, t)), j)
  {
    hide TableOk, OwnersOk, NonePinned, DirectoryOk, SwapSized, SwapOk, Image;
    if s.spt[j].status.Memory? {
      ResidentFrame(s, j);
    }
  }

  lemma CloseKeepsCore(s: Vm, closed: set<nat>)
    requires Core(s)
    ensures Core(s.(files := s.files - closed))
  {
    hide PoolOk, TableOk, OwnersOk, NonePinned, DirectoryOk, SwapSized, SwapOk;
  }

  /** Other pages do not use the executable of t. */
  lemma OthersExecutable(m: Machine, t: nat, j: Key)
    requires MachineOk(m) && t in m.exe && j in m.vm.spt && (j.owner != t || m.vm.spt[j].mmap) && FromFile(m.vm.spt[j])
    ensures m.vm.spt[j].file != m.exe[t] && m.vm.spt[j].file in m.vm.files
  {
    hide Inv;
  }

  lemma ClosedGuarded(m: Machine, t: nat, j: Key)
    requires MachineOk(m) && t in m.exe && j in m.vm.spt && (j.owner != t || m.vm.spt[j].mmap)
    ensures Guarded(Closed(m, t), j)
  {
    hide PoolOk, TableOk, OwnersOk, NonePinned, DirectoryOk, SwapSized, SwapOk, BackedOk, ProtectedOk, Denied, MapsOk;
    EntryIsOk(m.vm, j);
    if FromFile(m.vm.spt[j]) {
      OthersExecutable(m, t, j);
      if FromExecutable(m.vm.spt[j]) {
        NowDenied(Closed(m, t).files, m.exe[j.owner]);
      }
    }
  }

  lemma ExitProceeds(m: Machine, t: nat, mapped: seq<Key>, rest: seq<Key>)
    requires MachineOk(m) && t in m.exe && PagesOfThread(m.vm, t, mapped, rest)
    ensures Unmappable(Closed(m, t), mapped) && Destroyable(Flushed(m, t, mapped), rest)
  {
    hide Core, Inv, ExeOk, MapsOk, Torn, EntryOk, NoDuplicates, FilesOf;
    InvCore(m.vm);
    CloseKeepsCore(m.vm, {m.exe[t]});
    forall k | k in mapped ensures EntryOk(Closed(m, t).spt[k], Closed(m, t).files, Closed(m, t).inodes) {
      ClosedGuarded(m, t, k);
    }
    TornKeeps(Closed(m, t), mapped);
    CloseKeepsCore(Torn(Closed(m, t), mapped), FilesOf(m.vm, mapped));
  }

  /** What is left of the open files when t's are closed. */
  ghost predicate FilesLeft(m: Machine, t: nat, s': Vm)
    requires t in m.exe
  {
    && (forall k | k in s'.spt :: k in m.vm.spt && s'.spt[k] == m.vm.spt[k] && k.owner != t)
    && (forall f | f in s'.files :: f in m.vm.files && s'.files[f].inode == m.vm.files[f].inode
                                    && s'.files[f].denyWrite == m.vm.files[f].denyWrite)
    && (forall f | f in m.vm.files && f != m.exe[t] && f !in s'.files ::
          exists k | k in m.vm.spt :: k.owner == t && m.vm.spt[k].mmap && m.vm.spt[k].file == f)
    && SameLengths(m.vm.inodes, s'.inodes)
  }

  /** A file that another process's page or executable needs is still open. */
  lemma StillOpen(m: Machine, t: nat, s': Vm, j: Key)
    requires MachineOk(m) && t in m.exe && FilesLeft(m, t, s') && j in s'.spt && FromFile(s'.spt[j])
    ensures s'.spt[j].file in s'.files
  {
    hide Inv, SameLengths;
    OthersExecutable(m, t, j);
  }

  lemma ExecutableOpen(m: Machine, t: nat, s': Vm, u: nat)
    requires MachineOk(m) && t in m.exe && FilesLeft(m, t, s') && u in m.exe && u != t
    ensures m.exe[u] in s'.files && s'.files[m.exe[u]].denyWrite
  {
    hide Inv, SameLengths;
  }

  lemma LeftBacked(m: Machine, t: nat, s': Vm, j: Key)
    requires MachineOk(m) && t in m.exe && FilesLeft(m, t, s') && j in s'.spt
    ensures EntryOk(s'.spt[j], s'.files, s'.inodes)
    ensures FromExecutable(s'.spt[j]) ==> Denied(s'.files, s'.files[s'.spt[j].file].inode)
  {
    hide PoolOk, TableOk, OwnersOk, NonePinned, DirectoryOk, SwapSized, SwapOk, BackedOk, ProtectedOk, Denied, MapsOk;
    EntryIsOk(m.vm, j);
    if FromFile(s'.spt[j]) {
      StillOpen(m, t, s', j);
    }
    if FromExecutable(s'.spt[j]) {
      ExecutableOpen(m, t, s', j.owner);
      NowDenied(s'.files, m.exe[j.owner]);
    }
  }

  lemma LeftProtected(m: Machine, t: nat, s': Vm)
    requires MachineOk(m) && t in m.exe && FilesLeft(m, t, s')
    ensures BackedOk(s'.spt, s'.files, s'.inodes) && ProtectedOk(s'.spt, s'.files)
  {
    hide PoolOk, TableOk, OwnersOk, NonePinned, DirectoryOk, SwapSized, SwapOk, BackedOk, Denied, MapsOk, ExeOk,
      EntryOk;
    assert BackedOk(s'.spt, s'.files, s'.inodes) by {
      AllBacked(m, t, s');
    }
    forall j | j in s'.spt && FromExecutable(s'.spt[j])
      ensures s'.spt[j].file in s'.files && Denied(s'.files, s'.files[s'.spt[j].file].inode)
    {
      StillOpen(m, t, s', j);
      LeftBacked(m, t, s', j);
    }
  }

  lemma AllBacked(m: Machine, t: nat, s': Vm)
    requires MachineOk(m) && t in m.exe && FilesLeft(m, t, s')
    ensures BackedOk(s'.spt, s'.files, s'.inodes)
  {
    hide Inv, FilesLeft, ExeOk, MapsOk, EntryOk;
    forall j | j in s'.spt ensures EntryOk(s'.spt[j], s'.files, s'.inodes) {
      LeftBacked(m, t, s', j);
    }
  }

  lemma LeftMachine(m: Machine, t: nat, s': Vm)
    requires MachineOk(m) && t in m.exe && FilesLeft(m, t, s')
    ensures ExeOk(m.exe - {t}, s'.spt, s'.files) && MapsOk(s'.spt, s'.files)
  {
    hide Inv, SameLengths, Overlaps;
    forall u | u in m.exe && u != t ensures m.exe[u] in s'.files && s'.files[m.exe[u]].denyWrite {
      ExecutableOpen(m, t, s', u);
    }
    forall j | j in s'.spt && s'.spt[j].mmap ensures s'.spt[j].file in s'.files {
      StillOpen(m, t, s', j);
    }
  }

  lemma VacatedKeeps(m: Machine, t: nat, mapped: seq<Key>, rest: seq<Key>)
    requires MachineOk(m) && t in m.exe && PagesOfThread(m.vm, t, mapped, rest)
    ensures Core(Vacated(m, t, mapped, rest))
    ensures Vacated(m, t, mapped, rest).spt == m.vm.spt - (set k | k in m.vm.spt && k.owner == t)
  {
    hide Core, Inv, Torn, Destroyed, MapsOk, ExeOk, Unmappable, Destroyable;
    ExitProceeds(m, t, mapped, rest);
    TornKeeps(Closed(m, t), mapped);
    DestroyedKeeps(Flushed(m, t, mapped), rest);
  }

  lemma ExitLeaves(m: Machine, t: nat, mapped: seq<Key>, rest: seq<Key>)
    requires MachineOk(m) && t in m.exe && PagesOfThread(m.vm, t, mapped, rest)
    ensures Core(Exited(m, t, mapped, rest).vm) && FilesLeft(m, t, Exited(m, t, mapped, rest).vm)
    ensures Exited(m, t, mapped, rest).vm.spt == m.vm.spt - (set k | k in m.vm.spt && k.owner == t)
  {
    hide Core, Inv, Torn, Destroyed, MapsOk, ExeOk, Unmappable, Destroyable;
    ExitProceeds(m, t, mapped, rest);
    TornKeeps(Closed(m, t), mapped);
    DestroyedKeeps(Flushed(m, t, mapped), rest);
    var s' := Exited(m, t, mapped, rest).vm;
    assert s'.spt == m.vm.spt - (set k | k in m.vm.spt && k.owner == t);
    WithoutKeepsCore(Vacated(m, t, mapped, rest), t);
    forall f | f in m.vm.files && f != m.exe[t] && f !in s'.files
      ensures exists k | k in m.vm.spt :: k.owner == t && m.vm.spt[k].mmap && m.vm.spt[k].file == f
    {
      assert f in FilesOf(m.vm, mapped);
      var k :| k in mapped && m.vm.spt[k].file == f;
    }
  }

  /** A process's end leaves a good machine without any page of its own. */
  lemma ExitKeepsInv(m: Machine, t: nat, mapped: seq<Key>, rest: seq<Key>)
    requires MachineOk(m) && t in m.exe && PagesOfThread(m.vm, t, mapped, rest)
    ensures MachineOk(Exited(m, t, mapped, rest))
    ensures forall k | k in Exited(m, t, mapped, rest).vm.spt :: k.owner != t
  {
    hide PoolOk, TableOk, OwnersOk, NonePinned, DirectoryOk, SwapSized, SwapOk, BackedOk, ProtectedOk, FilesLeft,
      PagesOfThread, MapsOk, ExeOk;
    ExitLeaves(m, t, mapped, rest);
    LeftProtected(m, t, Exited(m, t, mapped, rest).vm);
    LeftMachine(m, t, Exited(m, t, mapped, rest).vm);
  }

  lemma ExitFields(m: Machine, t: nat, mapped: seq<Key>, rest: seq<Key>, j: Key)
    requires MachineOk(m) && t in m.exe && PagesOfThread(m.vm, t, mapped, rest)
    requires j in m.vm.spt && j.owner != t && forall k | k in mapped :: !Overwrites(m.vm, k, j)
    ensures SameFields(m.vm, Exited(m, t, mapped, rest).vm, j)
  {
    hide Core, Inv, Torn, Destroyed, MapsOk, ExeOk, EntryOk, SameFields, Denied, Overwrites, FilesOf;
    ExitProceeds(m, t, mapped, rest);
    var s0 := Closed(m, t);
    ClosedGuarded(m, t, j);
    CloseExecutable(m, t, j);
    forall k | k in mapped ensures !Overwrites(s0, k, j) {
      ClosedOverwrites(m, t, k, j);
    }
    TornFields(s0, mapped, j);
    TornKeeps(s0, mapped);
    var s1, s2 := Torn(s0, mapped), Flushed(m, t, mapped);
    GuardedStays(s0, s1, j);
    if FromFile(s1.spt[j]) {
      MappedElsewhere(m, t, mapped, rest, j);
    }
    CloseFields(s1, FilesOf(m.vm, mapped), j);
    assert Guarded(s2, j) by {
      ExitGuards(m, t, mapped, rest, j);
    }
    DestroyedFields(s2, rest, j);
    DestroyedKeeps(s2, rest);
    var s3 := Vacated(m, t, mapped, rest);
    WithoutFields(s3, t, j);
    SameFieldsTwice(m.vm, s0, s1, j);
    SameFieldsTwice(m.vm, s1, s2, j);
    SameFieldsTwice(m.vm, s2, s3, j);
    SameFieldsTwice(m.vm, s3, Exited(m, t, mapped, rest).vm, j);
  }

  lemma CloseExecutable(m: Machine, t: nat, j: Key)
    requires MachineOk(m) && t in m.exe && j in m.vm.spt && j.owner != t
    ensures SameFields(m.vm, Closed(m, t), j)
  {
    hide PoolOk, TableOk, OwnersOk, NonePinned, DirectoryOk, SwapSized, SwapOk, BackedOk, ProtectedOk, MapsOk, ExeOk,
      SameFields;
    InvCore(m.vm);
    EntryIsOk(m.vm, j);
    if FromFile(m.vm.spt[j]) {
      OthersExecutable(m, t, j);
    }
    CloseFields(m.vm, {m.exe[t]}, j);
  }

  lemma ClosedOverwrites(m: Machine, t: nat, k: Key, j: Key)
    requires t in m.exe && !Overwrites(m.vm, k, j)
    ensures !Overwrites(Closed(m, t), k, j)
  {
    SameBit(m.vm, Closed(m, t), k);
  }

  lemma MappedElsewhere(m: Machine, t: nat, mapped: seq<Key>, rest: seq<Key>, j: Key)
    requires MachineOk(m) && t in m.exe && PagesOfThread(m.vm, t, mapped, rest)
    requires j in m.vm.spt && j.owner != t && FromFile(m.vm.spt[j])
    ensures m.vm.spt[j].file !in FilesOf(m.vm, mapped)
  {
    hide Inv, Overlaps;
  }

  lemma ExitGuards(m: Machine, t: nat, mapped: seq<Key>, rest: seq<Key>, j: Key)
    requires MachineOk(m) && t in m.exe && PagesOfThread(m.vm, t, mapped, rest) && j in m.vm.spt && j.owner != t
    requires Unmappable(Closed(m, t), mapped) && Destroyable(Flushed(m, t, mapped), rest)
    ensures Guarded(Flushed(m, t, mapped), j)
  {
    hide Core, Inv, Torn, Destroyed, MapsOk, ExeOk, EntryOk, Denied, FilesLeft, Destroyable, Unmappable, FilesOf;
    ExitLeaves(m, t, mapped, rest);
    DestroyedKeeps(Flushed(m, t, mapped), rest);
    TornKeeps(Closed(m, t), mapped);
    LeftBacked(m, t, Exited(m, t, mapped, rest).vm, j);
  }

  /** The pages of other processes that no write-back of t's mappings rewrites. */
  ghost function Survivors(s: Vm, flat: Flat, t: nat, mapped: seq<Key>): Flat {
    map j | j in flat && j.owner != t && (forall k | k in mapped :: !Overwrites(s, k, j)) :: flat[j]
  }

  lemma ExitAgrees(m: Machine, flat: Flat, t: nat, mapped: seq<Key>, rest: seq<Key>)
    requires MachineOk(m) && Agrees(m.vm, flat) && t in m.exe && PagesOfThread(m.vm, t, mapped, rest)
    ensures MachineOk(Exited(m, t, mapped, rest))
    ensures Agrees(Exited(m, t, mapped, rest).vm, Survivors(m.vm, flat, t, mapped))
  {
    hide Core, Inv, MapsOk, ExeOk, Exited, Overwrites, SameFields, View, Synced, Kept, PagesOfThread;
    ExitKeepsInv(m, t, mapped, rest);
    ExitLeaves(m, t, mapped, rest);
    var s, s' := m.vm, Exited(m, t, mapped, rest).vm;
    var flat' := Survivors(s, flat, t, mapped);
    forall j | j in flat' ensures Shows(s', j, flat'[j]) {
      ExitFields(m, t, mapped, rest, j);
      FieldsKept(s, s', j);
      KeptShows(s, s', j, flat[j]);
    }
    forall j | j in s'.spt && !s'.spt[j].mmap ensures j in flat' {
      forall k | k in mapped ensures !Overwrites(s, k, j) {
        OverwritesMapped(s, k, j);
      }
    }
  }
}
