/** The file-position hazard of load_page: which bytes a load in the hazard brings in. */
module PagingHazards {
  import opened Paging
  import opened PagingInvariant
  import opened PagingSteps
  import opened PagingViews
  import opened PagingTransparency
  import opened PagingAccess
  import opened PagingEvolution
  import opened PagingFlat
  import opened PagingMachine
  import opened PagingRuns
  import opened PagingMemory
  import opened PagingMapped

  // ---- loads in the hazard --------------------------------------------------------------------------

  /** The inode's bytes after page v has been written back. */
  function WrittenBack(s: Vm, v: Key, n: nat): Bytes
    requires Inv(s) && v in s.spt && s.spt[v].status.Memory? && n in s.inodes
  {
    ResidentFrame(s, v);
    EntryIsOk(s, v);
    if Denied(s.files, n) then s.inodes[n]
    else Overlay(s.inodes[n], s.spt[v].offset, s.mem[s.spt[v].status.kpage][..s.spt[v].readBytes])
  }

  /** What evicting a dirty mapped page does to the files. */
  lemma EvictInodes(s: Vm, f: nat)
    requires Inv(s) && !HasFreePage(s) && f in s.files
    requires var v := VictimKey(s); s.spt[v].mmap && Dirty(s, v) && s.spt[v].file == f
    ensures s.files[f].inode in s.inodes && Evict(s).Resumed?
    ensures f in Evict(s).vm.files && Evict(s).vm.files[f].inode == s.files[f].inode
    ensures Evict(s).vm.inodes == s.inodes[s.files[f].inode := WrittenBack(s, VictimKey(s), s.files[f].inode)]
  {
    hide PoolOk, TableOk, OwnersOk, NonePinned, DirectoryOk, SwapSized, SwapOk, BackedOk, ProtectedOk, Flush,
      ClearAccessed,
      SecondChances, First, VictimKey, Drop, Denied, Dirty, Overlay;
    var v := VictimKey(s);
    EntryIsOk(s, v);
    ScannedKeepsInv(s);
    ScannedDirty(s, v);
    var s1 := Scanned(s);
    EntryIsOk(s1, v);
    FlushEffect(s1, v);
    FlushKeepsInv(s1, v);
    DropFiles(Flush(s1, v), v);
  }

  /** A load from another position than the page's own brings in the bytes from there. */
  lemma ReadsFromPosition(s: Vm, q: Key)
    requires Inv(s) && HasFreePage(s) && q in s.spt && s.spt[q].status.Lazy?
    ensures var e := s.spt[q]; e.file in s.files && s.files[e.file].inode in s.inodes
    ensures var e := s.spt[q]; var pos := s.files[e.file].pos; var data := s.inodes[s.files[e.file].inode];
            && !ReadIn(s, q).Panic? && Inv(ReadIn(s, q).vm)
            && (ReadIn(s, q).Resumed? <==> e.readBytes == 0 || pos + e.readBytes <= |data|)
            && (ReadIn(s, q).Resumed? ==>
               q in ReadIn(s, q).vm.spt && View(ReadIn(s, q).vm, q) == Image(data, pos, e.readBytes))
  {
    hide PoolOk, TableOk, OwnersOk, NonePinned, DirectoryOk, SwapSized, SwapOk, BackedOk, ProtectedOk, Enter, First,
      Image, View, Transfer;
    EntryIsOk(s, q);
    ReadInKeepsInv(s, q);
    var e := s.spt[q];
    var file := s.files[e.file];
    var n := Transfer(|s.inodes[file.inode]|, file.pos, e.readBytes);
    SeekKeepsInv(s, e.file, file.pos + n);
    if n == e.readBytes {
      EnteredView(s.(files := Seek(s.files, e.file, file.pos + n)), q, e,
          Image(s.inodes[file.inode], file.pos, e.readBytes));
    }
  }

  /** A load in the hazard brings in the bytes from behind the page that was written back, and
      fails exactly if there are not enough of them. */
  lemma HazardLoads(s: Vm, q: Key)
    requires Inv(s) && q in s.spt && s.spt[q].status.Lazy? && LoadHazard(s, q)
    ensures var e, v := s.spt[q], VictimKey(s); e.file in s.files && s.files[e.file].inode in s.inodes
    ensures var e, v, n := s.spt[q], VictimKey(s), s.files[s.spt[q].file].inode; var r := LazyToMemory(s, q);
            var pos := if Denied(s.files, n) then s.spt[v].offset else s.spt[v].offset + s.spt[v].readBytes;
            && pos != e.offset && !r.Panic? && Inv(r.vm)
            && (r.Resumed? <==> e.readBytes == 0 || pos + e.readBytes <= |s.inodes[n]|)
            && (r.Resumed? ==> q in r.vm.spt && View(r.vm, q) == Image(WrittenBack(s, v, n), pos, e.readBytes))
  {
    hide PoolOk, TableOk, OwnersOk, NonePinned, DirectoryOk, SwapSized, SwapOk, BackedOk, ProtectedOk, Evict, Denied,
      First,
      VictimKey, Dirty, View, Image, Overlay, ReadIn, WrittenBack;
    EntryIsOk(s, q);
    var f, n, v := s.spt[q].file, s.files[s.spt[q].file].inode, VictimKey(s);
    SeekKeepsInv(s, f, s.spt[q].offset);
    var s0 := Sought(s, q);
    SameVictim(s, s0);
    SameDirty(s, s0, v);
    SameDenied(s.files, s0.files, n);
    EvictInodes(s0, f);
    EvictPosition(s0, f);
    EvictKeepsInv(s0);
    SameWrittenBack(s, s0, v, n);
    MakeRoomKeepsOthers(s0, q);
    ReadsFromPosition(Evict(s0).vm, q);
  }

  lemma SameDirty(s: Vm, s': Vm, k: Key)
    requires s'.pd == s.pd
    ensures Dirty(s', k) <==> Dirty(s, k)
  {
  }

  lemma SameWrittenBack(s: Vm, s': Vm, v: Key, n: nat)
    requires Inv(s) && Inv(s') && v in s.spt && s.spt[v].status.Memory? && n in s.inodes
    requires s'.spt == s.spt && s'.mem == s.mem && s'.inodes == s.inodes
             && (Denied(s'.files, n) <==> Denied(s.files, n))
    ensures WrittenBack(s', v, n) == WrittenBack(s, v, n) && |WrittenBack(s, v, n)| == |s.inodes[n]|
  {
    hide PoolOk, TableOk, NonePinned, DirectoryOk, SwapSized, SwapOk, BackedOk, ProtectedOk, Denied;
    ResidentFrame(s, v);
    EntryIsOk(s, v);
  }

  lemma LazyIsAbsent(s: Vm, k: Key)
    requires Inv(s) && k in s.spt && s.spt[k].status.Lazy?
    ensures !Present(s, k)
  {
  }

  lemma ByteIsShown(s: Vm, k: Key, i: nat)
    requires Inv(s) && Present(s, k) && i < PGSIZE
    ensures k in s.spt && ByteAt(s, k, i) == View(s, k)[i]
  {
    hide PoolOk, TableOk, OwnersOk, NonePinned, DirectoryOk, SwapSized, SwapOk, BackedOk, ProtectedOk, Image, Slot;
    PresentFrame(s, k);
  }
}
