/** From an ELF file to the bytes a running program reads: load's loop over the program headers
    (src/userprog/process.c) and what the pages it enters show in every run. */
module Loading {
  import opened Paging
  import opened PagingInvariant
  import opened PagingSteps
  import opened PagingViews
  import opened PagingAccess
  import opened PagingTransparency
  import opened PagingEvolution
  import opened PagingProgress
  import opened PagingMachine
  import opened PagingRuns
  import opened PagingMemory
  import opened PagingMapped
  import opened PagingMappings
  import E = Elf

  /** A PT_LOAD program header, with the PF_W bit of its flags. */
  datatype Load = Load(header: E.Header, writable: bool)

  /** The pages that load enters for a header. */
  function FirstPage(l: Load): nat { E.LoadRange(l.header).upage / PGSIZE }

  function PageTotal(l: Load): nat { (E.LoadRange(l.header).readBytes + E.LoadRange(l.header).zeroBytes) / PGSIZE }

  predicate Covers(l: Load, p: nat) {
    FirstPage(l) <= p < FirstPage(l) + PageTotal(l)
  }

  function SegmentAt(l: Load, p: nat): Segment
    requires Covers(l, p)
  {
    var page := E.PageOf(E.LoadRange(l.header), p - FirstPage(l));
    Segment(page.offset, page.readBytes, l.writable)
  }

  predicate Valid(loads: seq<Load>, fileLength: nat) {
    forall l | l in loads :: E.Validate(l.header, fileLength)
  }

  /** No page belongs to two headers. */
  ghost predicate Apart(loads: seq<Load>) {
    forall a, b, p: nat | 0 <= a < b < |loads| && Covers(loads[a], p) :: !Covers(loads[b], p)
  }

  /** The image has the pages of the headers, and no others. */
  ghost predicate IsImage(image: map<nat, Segment>, loads: seq<Load>) {
    && (forall a, p: nat | 0 <= a < |loads| && Covers(loads[a], p) :: p in image && image[p] == SegmentAt(loads[a], p))
    && (forall p | p in image :: exists a :: 0 <= a < |loads| && Covers(loads[a], p))
  }

  lemma PageAddress(l: Load, fileLength: nat, i: nat)
    requires E.Words(l.header) && E.Validate(l.header, fileLength)
    ensures E.PageOf(E.LoadRange(l.header), i).uaddr == (FirstPage(l) + i) * PGSIZE
    ensures (E.LoadRange(l.header).readBytes + E.LoadRange(l.header).zeroBytes) % PGSIZE == 0
  {
    E.NothingWraps(l.header, fileLength);
  }

  /** The pages of one header, entered. */
  function Entries(l: Load): (m: map<nat, Segment>)
    ensures forall p: nat :: p in m <==> Covers(l, p)
    ensures forall p: nat | Covers(l, p) :: m[p] == SegmentAt(l, p)
  {
    map p | FirstPage(l) <= p < FirstPage(l) + PageTotal(l) :: SegmentAt(l, p)
  }

  lemma TakenPage(image: map<nat, Segment>, p: nat)
    ensures p * PGSIZE in (set q | q in image :: q * PGSIZE) <==> p in image
  {
  }

  lemma OneMore(image: map<nat, Segment>, loads: seq<Load>, n: nat)
    requires n < |loads| && IsImage(image, loads[..n]) && Apart(loads[..n])
    requires forall p: nat | Covers(loads[n], p) :: p !in image
    ensures IsImage(image + Entries(loads[n]), loads[..n + 1]) && Apart(loads[..n + 1])
  {
    hide Covers, SegmentAt, Entries;
    var image', more := image + Entries(loads[n]), loads[..n + 1];
    forall a, p: nat | 0 <= a < |more| && Covers(more[a], p) ensures p in image' && image'[p] == SegmentAt(more[a], p) {
      if a < n { assert loads[..n][a] == more[a]; }
    }
    forall p | p in image' ensures exists a :: 0 <= a < |more| && Covers(more[a], p) {
      if p in Entries(loads[n]) {
        assert Covers(more[n], p);
      } else {
        var a :| 0 <= a < n && Covers(loads[..n][a], p);
        assert Covers(more[a], p);
      }
    }
    forall a, b, p: nat | 0 <= a < b < |more| && Covers(more[a], p) ensures !Covers(more[b], p) {
      assert loads[..n][a] == more[a];
      if b < n { assert loads[..n][b] == more[b]; }
    }
  }

  lemma NotApart(image: map<nat, Segment>, loads: seq<Load>, n: nat, p: nat)
    requires n < |loads| && IsImage(image, loads[..n]) && p in image && Covers(loads[n], p)
    ensures !Apart(loads)
  {
    hide Covers, SegmentAt;
    var a :| 0 <= a < n && Covers(loads[..n][a], p);
    assert loads[..n][a] == loads[a];
  }

  /** load's loop over the PT_LOAD headers: it succeeds exactly if every header is valid and no
      two of them share a page. */
  method LoadImage(loads: seq<Load>, fileLength: nat) returns (ok: bool, image: map<nat, Segment>)
    requires forall l | l in loads :: E.Words(l.header)
    ensures ok <==> Valid(loads, fileLength) && Apart(loads)
    ensures ok ==> IsImage(image, loads)
  {
    hide Apart, IsImage, E.Validate, E.LoadRange, E.Words, Entries, Covers;
    image := map[];
    Nothing(loads);
    for n := 0 to |loads|
      invariant IsImage(image, loads[..n]) && Apart(loads[..n])
      invariant forall a | 0 <= a < n :: E.Validate(loads[a].header, fileLength)
    {
      var l := loads[n];
      assert l in loads;
      if !E.Validate(l.header, fileLength) {
        return false, image;
      }
      PageAddress(l, fileLength, 0);
      var fits, pages := E.InitializeLazy(E.LoadRange(l.header), set p | p in image :: p * PGSIZE);
      if !fits {
        PageAddress(l, fileLength, |pages|);
        TakenPage(image, FirstPage(l) + |pages|);
        CoversPage(l, |pages|);
        NotApart(image, loads, n, FirstPage(l) + |pages|);
        return false, image;
      }
      forall p: nat | Covers(l, p) ensures p !in image {
        CoveredPage(l, p);
        PageAddress(l, fileLength, p - FirstPage(l));
        TakenPage(image, p);
      }
      OneMore(image, loads, n);
      image := image + Entries(l);
    }
    assert loads[..|loads|] == loads;
    ok := true;
  }

  lemma Nothing(loads: seq<Load>)
    ensures IsImage(map[], loads[..0]) && Apart(loads[..0])
  {
  }

  lemma CoversPage(l: Load, i: nat)
    requires i < PageTotal(l)
    ensures Covers(l, FirstPage(l) + i)
  {
  }

  lemma CoveredPage(l: Load, p: nat)
    requires Covers(l, p)
    ensures FirstPage(l) <= p && p - FirstPage(l) < PageTotal(l)
  {
  }

  // ---- what is read -----------------------------------------------------------------------------------

  /** The byte of the segment at p_vaddr + k, as the ELF specification has it. */
  function FileByte(h: E.Header, data: Bytes, k: nat): Byte {
    if k < h.filesz && h.offset + k < |data| then data[h.offset + k] else 0
  }

  /** What the page of an address shows there. */
  function ShownByte(image: map<nat, Segment>, data: Bytes, addr: nat): Byte
    requires addr / PGSIZE in image
  {
    Image(data, image[addr / PGSIZE].offset, image[addr / PGSIZE].readBytes)[addr % PGSIZE]
  }

  lemma ImageByte(image: map<nat, Segment>, l: Load, data: Bytes, k: nat, addr: nat)
    requires E.Words(l.header) && E.Validate(l.header, |data|) && k < l.header.memsz && addr == l.header.vaddr + k
    requires forall p: nat | Covers(l, p) :: p in image && image[p] == SegmentAt(l, p)
    ensures addr / PGSIZE in image
    ensures ShownByte(image, data, addr) == FileByte(l.header, data, k)
  {
    hide E.Validate, E.LoadRange, Image, E.ReadIn;
    E.SegmentImage(l.header, data, k);
    E.NothingWraps(l.header, |data|);
    Aligned(E.LoadRange(l.header).upage, addr - E.LoadRange(l.header).upage);
    assert Covers(l, addr / PGSIZE);
  }

  lemma Aligned(base: nat, x: nat)
    requires base % PGSIZE == 0
    ensures (base + x) / PGSIZE == base / PGSIZE + x / PGSIZE && (base + x) % PGSIZE == x % PGSIZE
  {
  }

  /** A program reads its file: after exec of an executable whose headers load accepts, and in
      every run from there in which the address is not stored to, a read of p_vaddr + k returns
      byte p_offset + k of the file for k below p_filesz, and 0 from there up to p_memsz.  It
      may kill the process only if the file does not have all of the segment's bytes. */
  lemma ProgramReadsFile(m: Machine, t: nat, f: nat, inode: nat, pos: nat, image: map<nat, Segment>, loads: seq<Load>,
                         a: nat, k: nat, evs: seq<Event>, esp: nat)
    requires MachineOk(m) && Enabled(m, Exec(t, f, inode, pos, image)) && Started(m, t, f, inode, pos, image).Went?
    requires IsImage(image, loads) && a < |loads| && k < loads[a].header.memsz
    requires E.Words(loads[a].header) && E.Validate(loads[a].header, |m.vm.inodes[inode]|)
    requires forall ev | ev in evs ::
               !Removes(ev, Key(t, (loads[a].header.vaddr + k) / PGSIZE)) && !StoresAt(ev, t, loads[a].header.vaddr + k)
    ensures var m1 := Started(m, t, f, inode, pos, image).machine; var addr := loads[a].header.vaddr + k;
            && MachineOk(m1) && inode in m1.vm.inodes && |m1.vm.inodes[inode]| == |m.vm.inodes[inode]|
            && (Possible(m1, evs) ==>
                  && MachineOk(After(m1, evs))
                  && var r, h := DidRead(After(m1, evs), t, addr, esp), loads[a].header;
                     r.Went? && (r.read != [] || h.offset + h.filesz <= |m.vm.inodes[inode]|) ==>
                       r.read == [FileByte(h, m1.vm.inodes[inode], k)])
  {
    hide Inv, ExeOk, MapsOk, Enabled, Started, Possible, After, DidRead, Removes, StoresAt, IsImage, E.Validate, View,
      Image,
      FileByte, Rewritten, E.Words;
    var h := loads[a].header;
    var addr := h.vaddr + k;
    var p, i := addr / PGSIZE, addr % PGSIZE;
    StartKeepsLengths(m, t, f, inode, pos, image);
    var m1 := Started(m, t, f, inode, pos, image).machine;
    ImageHas(image, loads, a);
    ImageByte(image, loads[a], m1.vm.inodes[inode], k, addr);
    StartsAsFile(m, t, f, inode, pos, image, p);
    if Possible(m1, evs) {
      ReadsAsWritten(m1, evs, t, addr, esp);
      OtherWrites(m1, View(m1.vm, Key(t, p)), evs, t, addr);
      if h.offset + h.filesz <= |m.vm.inodes[inode]| {
        ProgramAccesses(m, t, f, inode, pos, image, loads, a, k, evs, esp, false);
        ReadReturns(After(m1, evs), t, addr, esp);
      }
    }
  }

  lemma ReadReturns(m: Machine, t: nat, addr: nat, esp: nat)
    requires MachineOk(m) && !Ready(m.vm, t, addr, esp, false).Killed?
    ensures DidRead(m, t, addr, esp).Went? ==> DidRead(m, t, addr, esp).read != []
  {
    hide Inv, ExeOk, MapsOk, Ready;
  }

  lemma ImageHas(image: map<nat, Segment>, loads: seq<Load>, a: nat)
    requires a < |loads| && IsImage(image, loads)
    ensures forall p: nat | Covers(loads[a], p) :: p in image && image[p] == SegmentAt(loads[a], p)
  {
    hide Covers, SegmentAt;
  }

  lemma StartKeepsLengths(m: Machine, t: nat, f: nat, inode: nat, pos: nat, image: map<nat, Segment>)
    requires MachineOk(m) && Enabled(m, Exec(t, f, inode, pos, image)) && Started(m, t, f, inode, pos, image).Went?
    ensures var m1 := Started(m, t, f, inode, pos, image).machine;
            && inode in m.vm.inodes
            && MachineOk(m1) && inode in m1.vm.inodes && |m1.vm.inodes[inode]| == |m.vm.inodes[inode]|
  {
    hide Inv, ExeOk, MapsOk, FreshPage, Evolves, ImagePages;
    StartReady(m, t, f, inode, pos, image);
    FreshEvolves(m.vm, Key(t, STACK_PAGE));
    SameFileLength(m.vm, FreshPage(m.vm, Key(t, STACK_PAGE)).vm, inode);
    StepKeepsMachine(m, Exec(t, f, inode, pos, image));
  }

  lemma SameFileLength(s: Vm, s': Vm, inode: nat)
    requires Evolves(s, s') && inode in s.inodes
    ensures inode in s'.inodes && |s'.inodes[inode]| == |s.inodes[inode]|
  {
  }

  // ---- which accesses complete ------------------------------------------------------------------------

  /** While page k waits to be loaded from file f, the file stays open on an inode of that length. */
  ghost predicate WaitsFor(s: Vm, k: Key, f: nat, length: nat) {
    k in s.spt && FromExecutable(s.spt[k]) ==>
      s.spt[k].file == f && f in s.files && s.files[f].inode in s.inodes && |s.inodes[s.files[f].inode]| == length
  }

  lemma StepWaits(m: Machine, ev: Event, k: Key, f: nat, length: nat)
    requires MachineOk(m) && Enabled(m, ev) && Step(m, ev).Went? && !Removes(ev, k) && k in m.vm.spt
    requires WaitsFor(m.vm, k, f, length)
    ensures k in Step(m, ev).machine.vm.spt && WaitsFor(Step(m, ev).machine.vm, k, f, length)
  {
    hide MachineOk, Enabled, Step, Removes, FromExecutable;
    StepStill(m, ev, k);
    StepAddsNone(m, ev);
    StepLengths(m, ev);
    StepKeepsMachine(m, ev);
    var m' := Step(m, ev).machine;
    if FromExecutable(m'.vm.spt[k]) {
      if !FromExecutable(m.vm.spt[k]) { StepLoaded(m, ev, k); }
      ExecutableIsOpen(m', k);
    }
  }

  lemma ExecutableIsOpen(m: Machine, k: Key)
    requires MachineOk(m) && k in m.vm.spt && FromExecutable(m.vm.spt[k])
    ensures m.vm.spt[k].file in m.vm.files && m.vm.files[m.vm.spt[k].file].inode in m.vm.inodes
  {
    hide PoolOk, TableOk, OwnersOk, NonePinned, DirectoryOk, SwapSized, SwapOk, BackedOk, ProtectedOk, ExeOk, MapsOk;
    EntryIsOk(m.vm, k);
  }

  lemma {:induction false} RunWaits(m: Machine, evs: seq<Event>, k: Key, f: nat, length: nat)
    requires MachineOk(m) && Possible(m, evs) && (forall ev | ev in evs :: !Removes(ev, k)) && k in m.vm.spt
    requires WaitsFor(m.vm, k, f, length)
    ensures MachineOk(After(m, evs)) && Still(m.vm.spt[k], After(m, evs).vm, k)
    ensures WaitsFor(After(m, evs).vm, k, f, length)
    decreases |evs|
  {
    hide MachineOk, Enabled, Step, Removes, WaitsFor, Still;
    ItselfStill(m.vm, k);
    if evs != [] {
      assert evs[0] in evs;
      StepKeepsMachine(m, evs[0]);
      StepStill(m, evs[0], k);
      StepWaits(m, evs[0], k, f, length);
      var m1 := Step(m, evs[0]).machine;
      RunWaits(m1, evs[1..], k, f, length);
      StillTwice(m.vm.spt[k], m1.vm, After(m1, evs[1..]).vm, k);
    }
  }

  lemma PageLoadable(l: Load, data: Bytes, p: nat)
    requires E.Words(l.header) && E.Validate(l.header, |data|) && l.header.offset + l.header.filesz <= |data|
    requires Covers(l, p)
    ensures SegmentAt(l, p).readBytes == 0 || SegmentAt(l, p).offset + SegmentAt(l, p).readBytes <= |data|
  {
    hide E.Validate, E.LoadRange, E.PageOf, E.Words;
    E.SegmentLoads(l.header, data);
  }

  /** A program gets at its memory: after exec of an executable whose headers load accepts, with
      all of the segment's bytes in the file, and in every run from there, an access to p_vaddr + k
      below p_memsz completes, unless it is a write and PF_W is not set in the header's flags, or
      the page is not in memory and no frame can be had. */
  lemma ProgramAccesses(m: Machine, t: nat, f: nat, inode: nat, pos: nat, image: map<nat, Segment>, loads: seq<Load>,
                        a: nat, k: nat, evs: seq<Event>, esp: nat, write: bool)
    requires MachineOk(m) && Enabled(m, Exec(t, f, inode, pos, image)) && Started(m, t, f, inode, pos, image).Went?
    requires IsImage(image, loads) && a < |loads| && k < loads[a].header.memsz
    requires E.Words(loads[a].header) && E.Validate(loads[a].header, |m.vm.inodes[inode]|)
    requires loads[a].header.offset + loads[a].header.filesz <= |m.vm.inodes[inode]|
    requires forall ev | ev in evs :: !Removes(ev, Key(t, (loads[a].header.vaddr + k) / PGSIZE))
    ensures var m1 := Started(m, t, f, inode, pos, image).machine; var addr := loads[a].header.vaddr + k;
            MachineOk(m1) && (Possible(m1, evs) ==>
              && MachineOk(After(m1, evs)) && Key(t, addr / PGSIZE) in After(m1, evs).vm.spt
              && var s := After(m1, evs).vm; var r := Ready(s, t, addr, esp, write);
                 var there := s.spt[Key(t, addr / PGSIZE)].status.Memory? || RoomCanBeMade(s);
                 && (r.Panic? <==> !there)
                 && (r.Killed? <==> there && write && !loads[a].writable))
  {
    hide Inv, ExeOk, MapsOk, Enabled, Started, Possible, After, Ready, Removes, IsImage, E.Validate, Image, View,
      E.Words, RoomCanBeMade, WaitsFor, Covers, SegmentAt;
    var addr := loads[a].header.vaddr + k;
    var p, key := addr / PGSIZE, Key(t, addr / PGSIZE);
    StartKeepsLengths(m, t, f, inode, pos, image);
    var m1 := Started(m, t, f, inode, pos, image).machine;
    CoversAddress(loads[a], |m.vm.inodes[inode]|, k);
    ImageHas(image, loads, a);
    ImageEntered(m, t, f, inode, pos, image, p);
    PageLoadable(loads[a], m.vm.inodes[inode], p);
    SegmentFlag(loads[a], p);
    if Possible(m1, evs) {
      StartWaits(m1, key, f, inode);
      RunWaits(m1, evs, key, f, |m.vm.inodes[inode]|);
      AccessEntry(After(m1, evs), m1.vm.spt[key], t, addr, esp, write, f, |m.vm.inodes[inode]|);
    }
  }

  lemma SegmentFlag(l: Load, p: nat)
    requires Covers(l, p)
    ensures SegmentAt(l, p).writable == l.writable
  {
  }

  lemma CoversAddress(l: Load, fileLength: nat, k: nat)
    requires E.Words(l.header) && E.Validate(l.header, fileLength) && k < l.header.memsz
    ensures Covers(l, (l.header.vaddr + k) / PGSIZE)
  {
    hide E.Validate, E.LoadRange;
    E.NothingWraps(l.header, fileLength);
    var r := E.LoadRange(l.header);
    Aligned(r.upage, l.header.vaddr + k - r.upage);
  }

  lemma StartWaits(m: Machine, k: Key, f: nat, inode: nat)
    requires k in m.vm.spt && m.vm.spt[k].file == f && f in m.vm.files && m.vm.files[f].inode == inode
             && inode in m.vm.inodes
    ensures WaitsFor(m.vm, k, f, |m.vm.inodes[inode]|)
  {
  }

  /** An access to a page with the given entry, but for its status. */
  lemma AccessEntry(m: Machine, e: Spte, t: nat, addr: nat, esp: nat, write: bool, f: nat, length: nat)
    requires var k := Key(t, addr / PGSIZE);
             MachineOk(m) && k in m.vm.spt && SameEntry(e, m.vm.spt[k]) && !e.mmap && WaitsFor(m.vm, k, f, length)
    requires e.readBytes == 0 || e.offset + e.readBytes <= length
    ensures var s := m.vm; var k, r := Key(t, addr / PGSIZE), Ready(s, t, addr, esp, write);
            var there := s.spt[k].status.Memory? || RoomCanBeMade(s);
            (r.Panic? <==> !there) && (r.Killed? <==> there && write && !e.writable)
  {
    hide Inv, ExeOk, MapsOk, Ready, RoomCanBeMade, LoadHazard;
    var s, k := m.vm, Key(t, addr / PGSIZE);
    match s.spt[k].status {
      case Memory(_) => AccessResident(s, t, addr, esp, write);
      case Swap(_) => AccessSwapped(s, t, addr, esp, write);
      case Lazy =>
        ExecutableLoadsSafely(s, k);
        AccessLazy(s, t, addr, esp, write);
    }
  }
}
