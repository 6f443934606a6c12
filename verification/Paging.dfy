/** Demand paging as a state machine: what the files of src/vm, the fault dispatcher in
    src/userprog/exception.c and the hardware do to the tables, the frames, the swap
    device and the files.

    A frame, and the list node embedded in it, is identified by the user-pool page it
    holds.  Page directories are taken as maps from (thread, page) to an entry; module
    PageDirectory relates that view to the two-level tables.  One page fault, with the
    eviction it may cause, is one step. */
module Paging {
  import opened Basics

  type Byte = bv8
  type Bytes = seq<Byte>

  const PGSIZE: nat := 4096
  const SECTOR: nat := 512
  const SECTORS_PER_PAGE: nat := 8
  const PHYS_BASE: nat := 0xC000_0000
  const MAX_STACK_SIZE: nat := 0x80_0000
  const WORD: nat := 0x1_0000_0000
  /** palloc_free_multiple fills freed pages with this byte. */
  const POISON: Byte := 0xCC

  /** A user page: its thread and its page number. */
  datatype Key = Key(owner: nat, page: nat)

  datatype Status = Memory(kpage: nat) | Lazy | Swap(slot: nat)

  /** struct spt_entry; the frame pointer and the swap index belong to their status. */
  datatype Spte = Spte(status: Status, file: nat, offset: nat, readBytes: nat, writable: bool, mmap: bool)

  /** A page table entry; one that is absent from the map is all zero. */
  datatype Pte = Pte(kpage: nat, present: bool, writable: bool, accessed: bool, dirty: bool)

  /** struct frame, found under its kernel page. */
  datatype Frame = Frame(key: Key, pinned: bool)

  /** clock_hand: null, the list's tail, or the node of a frame. */
  datatype Hand = NoHand | AtTail | On(kpage: nat)

  datatype OpenFile = OpenFile(inode: nat, pos: nat, denyWrite: bool)

  datatype Vm = Vm(
    spt: map<Key, Spte>,
    pd: map<Key, Pte>,
    frames: map<nat, Frame>,
    table: seq<nat>,             // frame_table, front to back
    hand: Hand,
    used: seq<bool>,             // user pool bitmap
    mem: seq<Bytes>,             // user pool pages
    swapMap: seq<bool>,
    swapDev: seq<Bytes>,         // swap device sectors
    files: map<nat, OpenFile>,   // open struct files
    inodes: map<nat, Bytes>)     // file contents by inode

  // ---- small functions -----------------------------------------------------------------

  /** Index of the first bit equal to v (bitmap_scan for one bit), or the length if there is none. */
  function First(b: seq<bool>, v: bool): (r: nat)
    ensures r <= |b|
    ensures forall i | 0 <= i < r :: b[i] != v
    ensures r < |b| ==> b[r] == v
  {
    if b == [] || b[0] == v then 0 else 1 + First(b[1..], v)
  }

  function Filled(b: Byte): (p: Bytes)
    ensures |p| == PGSIZE
  {
    seq(PGSIZE, _ => b)
  }

  /** A page made of up to n bytes of data from offset ofs, zero beyond them. */
  function Image(data: Bytes, ofs: nat, n: nat): (p: Bytes)
    ensures |p| == PGSIZE
  {
    seq(PGSIZE, i => if 0 <= i < n && ofs + i < |data| then data[ofs + i] else 0)
  }

  /** data with buf written over it at ofs; a file does not grow, so what falls past the end is dropped. */
  function Overlay(data: Bytes, ofs: nat, buf: Bytes): (r: Bytes)
    ensures |r| == |data|
  {
    seq(|data|, i requires 0 <= i < |data| => if ofs <= i < ofs + |buf| then buf[i - ofs] else data[i])
  }

  /** How many bytes a transfer of n bytes at ofs moves in a file of the given length. */
  function Transfer(length: nat, ofs: nat, n: nat): (m: nat)
    ensures m <= n && (m == n <==> n == 0 || ofs + n <= length)
  {
    if ofs >= length then 0 else if ofs + n <= length then n else length - ofs
  }

  // ---- the swap device -----------------------------------------------------------------

  predicate SwapSized(swapMap: seq<bool>, dev: seq<Bytes>) {
    SECTORS_PER_PAGE * |swapMap| <= |dev| && forall n | 0 <= n < |dev| :: |dev[n]| == SECTOR
  }

  /** The page stored in a slot, its eight sectors in order. */
  function Slot(dev: seq<Bytes>, slot: nat): (p: Bytes)
    requires SECTORS_PER_PAGE * slot + SECTORS_PER_PAGE <= |dev|
    requires forall n | 0 <= n < |dev| :: |dev[n]| == SECTOR
    ensures |p| == PGSIZE
  {
    seq(PGSIZE, i requires 0 <= i < PGSIZE => dev[SECTORS_PER_PAGE * slot + i / SECTOR][i % SECTOR])
  }

  /** The device after the eight sectors of a slot have been written from a page. */
  function Stored(dev: seq<Bytes>, slot: nat, page: Bytes): (d: seq<Bytes>)
    requires |page| == PGSIZE
    ensures |d| == |dev|
  {
    seq(|dev|, n requires 0 <= n < |dev| =>
      var i := n - SECTORS_PER_PAGE * slot;
      if 0 <= i < SECTORS_PER_PAGE then page[i * SECTOR..i * SECTOR + SECTOR] else dev[n])
  }

  // ---- queries ---------------------------------------------------------------------------

  predicate HasFreePage(s: Vm) {
    First(s.used, false) < |s.used|
  }

  predicate Present(s: Vm, k: Key) {
    k in s.pd && s.pd[k].present
  }

  predicate Dirty(s: Vm, k: Key) {
    k in s.pd && s.pd[k].dirty
  }

  predicate Accessed(s: Vm, k: Key) {
    k in s.pd && s.pd[k].accessed
  }

  /** Some open file denies writes to the inode (deny_write_cnt > 0). */
  predicate Denied(files: map<nat, OpenFile>, inode: nat) {
    exists f | f in files :: files[f].inode == inode && files[f].denyWrite
  }

  /** Position of an element in a sequence without repetition. */
  function IndexOf(t: seq<nat>, p: nat): (i: nat)
    requires p in t
    ensures i < |t| && t[i] == p
  {
    if t[0] == p then 0 else 1 + IndexOf(t[1..], p)
  }

  /** The table without a node. */
  function Without(t: seq<nat>, p: nat): (r: seq<nat>)
    requires p in t
    ensures |r| == |t| - 1
  {
    var i := IndexOf(t, p);
    t[..i] + t[i + 1..]
  }

  /** list_next of a node. */
  function NextNode(t: seq<nat>, p: nat): Hand
    requires p in t
  {
    var i := IndexOf(t, p);
    if i + 1 < |t| then On(t[i + 1]) else AtTail
  }

  // ---- the clock -------------------------------------------------------------------------

  /** Where evict_frame starts looking. */
  function Start(s: Vm): (i: nat)
    requires s.table != []
    requires s.hand.On? ==> s.hand.kpage in s.table
    ensures i < |s.table|
  {
    if s.hand.On? then IndexOf(s.table, s.hand.kpage) else 0
  }

  /** The frame d places further round the clock. */
  function Around(s: Vm, d: nat): (p: nat)
    requires s.table != []
    requires s.hand.On? ==> s.hand.kpage in s.table
    ensures p in s.table
  {
    s.table[(Start(s) + d) % |s.table|]
  }

  predicate ClockReady(s: Vm) {
    && s.table != []
    && (s.hand.On? ==> s.hand.kpage in s.table)
    && (forall p | p in s.table :: p in s.frames)
  }

  /** In clock order: which frames are unpinned, and which of them not recently accessed. */
  function Unpinned(s: Vm): (b: seq<bool>)
    requires ClockReady(s)
    ensures |b| == |s.table|
  {
    seq(|s.table|, d requires 0 <= d < |s.table| => !s.frames[Around(s, d)].pinned)
  }

  function Cold(s: Vm): (b: seq<bool>)
    requires ClockReady(s)
    ensures |b| == |s.table|
  {
    seq(|s.table|, d requires 0 <= d < |s.table| =>
      !s.frames[Around(s, d)].pinned && !Accessed(s, s.frames[Around(s, d)].key))
  }

  /** The clock's choice: the first unpinned frame that was not accessed, else the first
      unpinned one (it is found cold on the second lap). */
  function VictimDistance(s: Vm): (d: nat)
    requires ClockReady(s)
    ensures d <= |s.table|
  {
    var c := First(Cold(s), true);
    if c < |s.table| then c else First(Unpinned(s), true)
  }

  /** The pages whose accessed bit the clock clears on its way. */
  function SecondChances(s: Vm): set<Key>
    requires ClockReady(s)
  {
    var c := First(Cold(s), true);
    set d | 0 <= d < c && Unpinned(s)[d] :: s.frames[Around(s, d)].key
  }

  function ClearAccessed(pd: map<Key, Pte>, ks: set<Key>): map<Key, Pte> {
    map k | k in pd :: if k in ks then pd[k].(accessed := false) else pd[k]
  }

  // ---- the invariant, table by table ------------------------------------------------------

  ghost predicate PoolOk(used: seq<bool>, mem: seq<Bytes>) {
    && |used| > 0 && |mem| == |used|
    && (forall p | 0 <= p < |mem| :: |mem[p]| == PGSIZE)
  }

  /** The frame table lists each frame once, the frames are exactly the used pages of the
      user pool, and the clock hand rests on a live node. */
  ghost predicate TableOk(table: seq<nat>, frames: map<nat, Frame>, used: seq<bool>, hand: Hand) {
    && NoDuplicates(table)
    && (forall p {:trigger p in table} {:trigger p in frames} :: p in table <==> p in frames)
    && (forall p | p in frames :: p < |used| && used[p])
    && (forall p | 0 <= p < |used| && used[p] :: p in frames)
    && (hand.On? ==> hand.kpage in frames)
  }

  /** Frames and resident pages own each other. */
  ghost predicate OwnersOk(frames: map<nat, Frame>, spt: map<Key, Spte>) {
    && (forall p | p in frames :: frames[p].key in spt && spt[frames[p].key].status == Memory(p))
    && (forall k | k in spt && spt[k].status.Memory? ::
       spt[k].status.kpage in frames && frames[spt[k].status.kpage].key == k)
  }

  ghost predicate NonePinned(frames: map<nat, Frame>) {
    forall p | p in frames :: !frames[p].pinned
  }

  /** A page table entry is present exactly for a resident page, and points at its frame. */
  ghost predicate DirectoryOk(pd: map<Key, Pte>, spt: map<Key, Spte>) {
    && (forall k | k in pd && pd[k].present :: k in spt && spt[k].status == Memory(pd[k].kpage))
    && (forall k | k in spt && spt[k].status.Memory? :: k in pd && pd[k].present && pd[k].writable == spt[k].writable)
  }

  /** Set swap bits and swapped pages correspond one to one; mapped pages are never swapped. */
  ghost predicate SwapOk(swapMap: seq<bool>, spt: map<Key, Spte>) {
    && (forall k | k in spt && spt[k].status.Swap? ::
          spt[k].status.slot < |swapMap| && swapMap[spt[k].status.slot] && !spt[k].mmap)
    && (forall k, k' | k in spt && k' in spt && spt[k].status.Swap? && spt[k'].status == spt[k].status :: k == k')
    && (forall i | 0 <= i < |swapMap| && swapMap[i] :: SlotTaken(spt, i))
  }

  ghost predicate SlotTaken(spt: map<Key, Spte>, slot: nat) {
    exists k | k in spt :: spt[k].status == Swap(slot)
  }

  /** Does the entry's content still depend on its file? */
  predicate FromFile(e: Spte) {
    e.mmap || e.status.Lazy?
  }

  /** The entry refers to an open file with an inode if it needs one, and a mapped page
      lies inside its file. */
  predicate EntryOk(e: Spte, files: map<nat, OpenFile>, inodes: map<nat, Bytes>) {
    && e.readBytes <= PGSIZE
    && (FromFile(e) ==> e.file in files && files[e.file].inode in inodes)
    && (e.mmap ==> e.offset + e.readBytes <= |inodes[files[e.file].inode]|)
  }

  ghost predicate BackedOk(spt: map<Key, Spte>, files: map<nat, OpenFile>, inodes: map<nat, Bytes>) {
    forall k | k in spt :: EntryOk(spt[k], files, inodes)
  }

  predicate FromExecutable(e: Spte) {
    e.status.Lazy? && !e.mmap
  }

  /** A page still to be loaded from an executable has its inode write-protected, and its
      struct file belongs to no mapping. */
  ghost predicate ProtectedOk(spt: map<Key, Spte>, files: map<nat, OpenFile>) {
    && (forall k | k in spt && FromExecutable(spt[k]) ::
       spt[k].file in files && Denied(files, files[spt[k].file].inode))
    && (forall k, k' | k in spt && k' in spt && spt[k].mmap && FromExecutable(spt[k']) :: spt[k].file != spt[k'].file)
  }

  /** What holds between any two steps. */
  ghost predicate Inv(s: Vm) {
    && PoolOk(s.used, s.mem)
    && TableOk(s.table, s.frames, s.used, s.hand)
    && OwnersOk(s.frames, s.spt)
    && NonePinned(s.frames)
    && DirectoryOk(s.pd, s.spt)
    && SwapSized(s.swapMap, s.swapDev)
    && SwapOk(s.swapMap, s.spt)
    && BackedOk(s.spt, s.files, s.inodes)
    && ProtectedOk(s.spt, s.files)
  }

  /** What the parts of a step rely on: memory and its owners, whatever the state of the files. */
  ghost predicate Sound(s: Vm) {
    && PoolOk(s.used, s.mem)
    && TableOk(s.table, s.frames, s.used, s.hand)
    && OwnersOk(s.frames, s.spt)
    && SwapSized(s.swapMap, s.swapDev)
  }

  /** The part of Inv that does not involve files. */
  ghost predicate Core(s: Vm) {
    Sound(s) && NonePinned(s.frames) && DirectoryOk(s.pd, s.spt) && SwapOk(s.swapMap, s.spt)
  }

  // ---- transitions -----------------------------------------------------------------------

  /** frame_free */
  function FrameFree(s: Vm, p: nat): Vm
    requires p in s.table && p < |s.used| == |s.mem|
  {
    s.(used := s.used[p := false],
       mem := s.mem[p := Filled(POISON)],
       hand := if s.hand == On(p) then NextNode(s.table, p) else s.hand,
       table := Without(s.table, p),
       frames := s.frames - {p})
  }

  /** pagedir_clear_page */
  function ClearPage(pd: map<Key, Pte>, k: Key): map<Key, Pte> {
    if k in pd && pd[k].present then pd[k := pd[k].(present := false)] else pd
  }

  /** A resident page gives up its frame and its page table entry. */
  function Drop(s: Vm, k: Key): Vm
    requires Sound(s) && k in s.spt && s.spt[k].status.Memory?
  {
    FrameFree(s.(pd := ClearPage(s.pd, k)), s.spt[k].status.kpage)
  }

  /** file_seek */
  function Seek(files: map<nat, OpenFile>, f: nat, ofs: nat): map<nat, OpenFile>
    requires f in files
  {
    files[f := files[f].(pos := ofs)]
  }

  /** file_write at the file's position: nothing happens to the contents of a denied inode. */
  function WriteFile(s: Vm, f: nat, buf: Bytes): Vm
    requires f in s.files && s.files[f].inode in s.inodes
  {
    var file := s.files[f];
    var data := s.inodes[file.inode];
    if Denied(s.files, file.inode) then s
    else s.(inodes := s.inodes[file.inode := Overlay(data, file.pos, buf)],
            files := Seek(s.files, f, file.pos + Transfer(|data|, file.pos, |buf|)))
  }

  /** The write-back of a dirty mapped page: file_seek, then file_write. */
  function WriteBack(s: Vm, k: Key): Vm
    requires Sound(s) && k in s.spt && s.spt[k].mmap && s.spt[k].status.Memory?
    requires EntryOk(s.spt[k], s.files, s.inodes)
  {
    var e := s.spt[k];
    WriteFile(s.(files := Seek(s.files, e.file, e.offset)), e.file, s.mem[e.status.kpage][..e.readBytes])
  }

  function Flush(s: Vm, k: Key): Vm
    requires Sound(s) && k in s.spt && s.spt[k].mmap && s.spt[k].status.Memory?
    requires EntryOk(s.spt[k], s.files, s.inodes)
  {
    if Dirty(s, k) then WriteBack(s, k) else s
  }
}
