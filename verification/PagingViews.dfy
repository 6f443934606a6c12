/** The user's view of memory, and which steps leave it alone. */
module PagingViews {
  import opened Paging
  import opened PagingInvariant
  import opened PagingSteps

  /** The content of a page, wherever it currently lives. */
  function View(s: Vm, k: Key): (v: Bytes)
    requires Inv(s) && k in s.spt
    ensures |v| == PGSIZE
  {
    match s.spt[k].status
    case Memory(p) => ResidentFrame(s, k); s.mem[p]
    case Swap(i) => NotSwapped(s, k); Slot(s.swapDev, i)
    case Lazy => EntryIsOk(s, k); FileImage(s, s.spt[k])
  }

  /** The page an entry's file would load. */
  function FileImage(s: Vm, e: Spte): (v: Bytes)
    requires e.file in s.files && s.files[e.file].inode in s.inodes
    ensures |v| == PGSIZE
  {
    Image(s.inodes[s.files[e.file].inode], e.offset, e.readBytes)
  }

  /** How much of a page the paging system promises to keep: of a mapped page, the part
      that the file holds. */
  function Promised(e: Spte): nat {
    if e.mmap then e.readBytes else PGSIZE
  }

  /** A mapped page that is resident and clean agrees with its file. */
  ghost predicate Synced(s: Vm, k: Key)
    requires Inv(s) && k in s.spt
  {
    s.spt[k].mmap && s.spt[k].status.Memory? && !Dirty(s, k) ==> Held(s, k)
  }

  /** The file holds the promised part of a mapped page. */
  ghost predicate Held(s: Vm, k: Key)
    requires Inv(s) && k in s.spt && s.spt[k].mmap
  {
    EntryIsOk(s, k);
    FileImage(s, s.spt[k])[..s.spt[k].readBytes] == View(s, k)[..s.spt[k].readBytes]
  }

  predicate SameEntry(e: Spte, e': Spte) {
    e' == e.(status := e'.status)
  }

  /** The step from s to s' leaves page k as the user sees it. */
  ghost predicate Kept(s: Vm, s': Vm, k: Key)
    requires Inv(s) && Inv(s')
  {
    && k in s.spt && k in s'.spt && SameEntry(s.spt[k], s'.spt[k])
    && View(s', k)[..Promised(s.spt[k])] == View(s, k)[..Promised(s.spt[k])]
    && Synced(s', k)
  }

  /** A page whose own entry, frame, slot, file bytes and dirty bit did not change. */
  lemma KeptByFields(s: Vm, s': Vm, j: Key)
    requires Inv(s) && Inv(s') && j in s.spt && j in s'.spt && s'.spt[j] == s.spt[j] && Synced(s, j)
    requires s.spt[j].status.Memory? ==>
               var p := s.spt[j].status.kpage; p < |s.mem| && p < |s'.mem| && s'.mem[p] == s.mem[p]
    requires s.spt[j].status.Swap? ==> s'.swapDev == s.swapDev || SlotSame(s, s', s.spt[j].status.slot)
    requires FromFile(s.spt[j]) ==> ImageSame(s, s', s.spt[j])
    requires Dirty(s', j) <==> Dirty(s, j)
    ensures Kept(s, s', j)
  {
    hide PoolOk, TableOk, OwnersOk, NonePinned, DirectoryOk, SwapSized, SwapOk, BackedOk, ProtectedOk, Image, Slot;
  }

  ghost predicate SlotSame(s: Vm, s': Vm, slot: nat)
    requires Inv(s) && Inv(s')
  {
    slot < |s.swapMap| && slot < |s'.swapMap| && Slot(s'.swapDev, slot) == Slot(s.swapDev, slot)
  }

  ghost predicate ImageSame(s: Vm, s': Vm, e: Spte) {
    && e.file in s.files && s.files[e.file].inode in s.inodes
    && e.file in s'.files && s'.files[e.file].inode in s'.inodes
    && FileImage(s', e) == FileImage(s, e)
  }

  /** The clock's scan shows in accessed bits only. */
  lemma ScannedKept(s: Vm, j: Key)
    requires Inv(s) && !HasFreePage(s) && j in s.spt && Synced(s, j)
    ensures Inv(Scanned(s)) && Kept(s, Scanned(s), j)
  {
    ScannedKeepsInv(s);
    ScannedDirty(s, j);
    hide PoolOk, TableOk, OwnersOk, NonePinned, DirectoryOk, SwapSized, SwapOk, BackedOk, ProtectedOk, ClearAccessed,
      SecondChances, Image, Slot, First, Dirty;
    EntryIsOk(s, j);
    if s.spt[j].status.Memory? {
      ResidentFrame(s, j);
      PoolSizes(s);
    }
    KeptByFields(s, Scanned(s), j);
  }

  lemma ScannedDirty(s: Vm, j: Key)
    requires Inv(s) && !HasFreePage(s)
    ensures Dirty(Scanned(s), j) <==> Dirty(s, j)
  {
    hide PoolOk, TableOk, OwnersOk, NonePinned, DirectoryOk, SwapSized, SwapOk, BackedOk, ProtectedOk, SecondChances,
      First, Victim;
  }

  // ---- write-back -----------------------------------------------------------------------------

  /** Two mapped pages that show overlapping bytes of one inode. */
  predicate Aliased(s: Vm, j: Key, k: Key) {
    && j in s.spt && k in s.spt && s.spt[j].mmap && s.spt[k].mmap
    && s.spt[j].file in s.files && s.spt[k].file in s.files
    && s.files[s.spt[j].file].inode == s.files[s.spt[k].file].inode
    && s.spt[j].offset < s.spt[k].offset + s.spt[k].readBytes
    && s.spt[k].offset < s.spt[j].offset + s.spt[j].readBytes
  }

  lemma OverlayElsewhere(data: Bytes, ofs: nat, buf: Bytes, o: nat, n: nat)
    requires o + n <= ofs || ofs + |buf| <= o
    ensures Image(Overlay(data, ofs, buf), o, n) == Image(data, o, n)
  {
  }

  lemma OverlayHere(data: Bytes, ofs: nat, page: Bytes, n: nat)
    requires n <= |page| == PGSIZE && ofs + n <= |data|
    ensures Image(Overlay(data, ofs, page[..n]), ofs, n)[..n] == page[..n]
  {
  }

  /** What a write-back does to the files. */
  lemma FlushEffect(s: Vm, k: Key)
    requires Sound(s) && k in s.spt && s.spt[k].mmap && s.spt[k].status.Memory?
    requires EntryOk(s.spt[k], s.files, s.inodes)
    ensures var e := s.spt[k]; var n := s.files[e.file].inode;
            e.status.kpage < |s.mem| && |s.mem[e.status.kpage]| == PGSIZE &&
            Flush(s, k).inodes ==
            if Dirty(s, k) && !Denied(s.files, n)
            then s.inodes[n := Overlay(s.inodes[n], e.offset, s.mem[e.status.kpage][..e.readBytes])] else s.inodes
    ensures SameFiles(s.files, Flush(s, k).files) && SameLengths(s.inodes, Flush(s, k).inodes)
    ensures Flush(s, k) == s.(files := Flush(s, k).files, inodes := Flush(s, k).inodes)
  {
    hide TableOk, OwnersOk, SwapSized, Overlay, Transfer, Denied;
    ResidentFrame(s, k);
    var e := s.spt[k];
    SameDenied(s.files, Seek(s.files, e.file, e.offset), s.files[e.file].inode);
    FlushKeeps(s, k);
  }

  /** An entry whose file bytes no unprotected write-back of another page can reach. */
  predicate Guarded(s: Vm, j: Key) {
    && j in s.spt && EntryOk(s.spt[j], s.files, s.inodes)
    && (FromExecutable(s.spt[j]) ==> Denied(s.files, s.files[s.spt[j].file].inode))
  }

  lemma InvGuarded(s: Vm, j: Key)
    requires Inv(s) && j in s.spt
    ensures Guarded(s, j)
  {
    hide PoolOk, TableOk, OwnersOk, NonePinned, DirectoryOk, SwapSized, SwapOk, Denied;
  }

  /** No page but an alias of the flushed one sees a difference. */
  lemma FlushImages(s: Vm, k: Key, j: Key)
    requires Sound(s) && k in s.spt && s.spt[k].mmap && s.spt[k].status.Memory?
    requires EntryOk(s.spt[k], s.files, s.inodes)
    requires Guarded(s, j) && FromFile(s.spt[j]) && !(Dirty(s, k) && Aliased(s, j, k))
    ensures ImageSame(s, Flush(s, k), s.spt[j])
  {
    hide PoolOk, TableOk, OwnersOk, SwapSized, Image, Overlay, Flush, Denied;
    FlushEffect(s, k);
    var e, x := s.spt[k], s.spt[j];
    var n := s.files[e.file].inode;
    if s.files[x.file].inode == n && Dirty(s, k) && !Denied(s.files, n) {
      OverlayElsewhere(s.inodes[n], e.offset, s.mem[e.status.kpage][..e.readBytes], x.offset, x.readBytes);
    }
  }

  lemma PageSize(s: Vm, p: nat)
    requires Sound(s) && p < |s.mem|
    ensures |s.mem[p]| == PGSIZE
  {
  }

  lemma FlushKept(s: Vm, k: Key, j: Key)
    requires Inv(s) && k in s.spt && s.spt[k].mmap && s.spt[k].status.Memory?
    requires j in s.spt && Synced(s, j) && (j != k ==> !(Dirty(s, k) && Aliased(s, j, k)))
    ensures Inv(Flush(s, k)) && Kept(s, Flush(s, k), j)
  {
    hide PoolOk, TableOk, OwnersOk, NonePinned, DirectoryOk, SwapSized, SwapOk, BackedOk, ProtectedOk, Image, Slot,
      Flush, Aliased;
    EntryIsOk(s, k);
    FlushKeepsInv(s, k);
    FlushEffect(s, k);
    if s.spt[j].status.Memory? {
      ResidentFrame(s, j);
      PoolSizes(s);
    }
    if FromFile(s.spt[j]) && (j != k || !Dirty(s, k)) {
      InvGuarded(s, j);
      FlushImages(s, k, j);
      KeptByFields(s, Flush(s, k), j);
    } else if j == k {
      KeptDirty(s, Flush(s, k), k);
    } else {
      KeptByFields(s, Flush(s, k), j);
    }
  }

  /** A dirty resident page is its frame's content, whatever happens to its file. */
  lemma KeptDirty(s: Vm, s': Vm, k: Key)
    requires Inv(s) && Inv(s') && k in s.spt && k in s'.spt && s'.spt[k] == s.spt[k] && s.spt[k].status.Memory?
    requires s'.mem == s.mem && Dirty(s', k)
    ensures Kept(s, s', k)
  {
    hide PoolOk, TableOk, OwnersOk, NonePinned, DirectoryOk, SwapSized, SwapOk, BackedOk, ProtectedOk;
  }

  /** After a write-back that was not refused, the file holds the page. */
  lemma FlushHolds(s: Vm, k: Key)
    requires Inv(s) && k in s.spt && s.spt[k].mmap && s.spt[k].status.Memory? && Synced(s, k)
    requires Dirty(s, k) ==> !Denied(s.files, s.files[s.spt[k].file].inode)
    ensures Inv(Flush(s, k)) && Flush(s, k).spt == s.spt && Held(Flush(s, k), k)
  {
    hide PoolOk, TableOk, OwnersOk, NonePinned, DirectoryOk, SwapSized, SwapOk, BackedOk, ProtectedOk, Image, Overlay,
      Flush, Denied;
    EntryIsOk(s, k);
    FlushKeepsInv(s, k);
    FlushEffect(s, k);
    ResidentFrame(s, k);
    var e := s.spt[k];
    var n := s.files[e.file].inode;
    if Dirty(s, k) {
      PageSize(s, e.status.kpage);
      OverlayHere(s.inodes[n], e.offset, s.mem[e.status.kpage], e.readBytes);
    }
  }

  // ---- giving up a frame ----------------------------------------------------------------------

  /** What dropping page k's frame leaves of another resident page. */
  lemma DropOthers(s: Vm, k: Key, j: Key)
    requires Sound(s) && k in s.spt && s.spt[k].status.Memory? && j in s.spt && j != k
    ensures Dirty(Drop(s, k), j) <==> Dirty(s, j)
    ensures |Drop(s, k).mem| == |s.mem| == |s.used|
    ensures s.spt[j].status.Memory? ==>
              var p := s.spt[j].status.kpage; p < |s.mem| && Drop(s, k).mem[p] == s.mem[p]
    ensures Drop(s, k) == s.(used := Drop(s, k).used, mem := Drop(s, k).mem, hand := Drop(s, k).hand,
                             table := Drop(s, k).table, frames := Drop(s, k).frames, pd := Drop(s, k).pd)
  {
    hide SwapSized, BackedOk, Without, NextNode, Filled;
  }

  lemma ReleasedOthers(s: Vm, k: Key, j: Key)
    requires Inv(s) && k in s.spt && s.spt[k].mmap && s.spt[k].status.Memory?
    requires j in s.spt && j != k && Synced(s, j)
    ensures Inv(Released(s, k)) && Kept(s, Released(s, k), j)
  {
    hide PoolOk, TableOk, OwnersOk, NonePinned, DirectoryOk, SwapSized, SwapOk, BackedOk, ProtectedOk, Image, Slot,
      Drop, Dirty;
    ReleasedKeepsInv(s, k);
    DropOthers(s, k, j);
    EntryIsOk(s, j);
    assert Dirty(Released(s, k), j) == Dirty(Drop(s, k), j) by { SameBit(Released(s, k), Drop(s, k), j); }
    KeptByFields(s, Released(s, k), j);
  }

  lemma SameBit(s: Vm, s': Vm, j: Key)
    requires s.pd == s'.pd
    ensures Dirty(s, j) == Dirty(s', j)
  {
  }

  /** A page its file holds can be given up. */
  lemma ReleasedKept(s: Vm, k: Key)
    requires Inv(s) && k in s.spt && s.spt[k].mmap && s.spt[k].status.Memory? && Held(s, k)
    ensures Inv(Released(s, k)) && Kept(s, Released(s, k), k)
  {
    hide PoolOk, TableOk, OwnersOk, NonePinned, DirectoryOk, SwapSized, SwapOk, BackedOk, ProtectedOk, Image;
    ReleasedKeepsInv(s, k);
  }

  lemma SlotHolds(dev: seq<Bytes>, slot: nat, page: Bytes)
    requires SECTORS_PER_PAGE * slot + SECTORS_PER_PAGE <= |dev| && |page| == PGSIZE
    requires forall n | 0 <= n < |dev| :: |dev[n]| == SECTOR
    ensures Slot(Stored(dev, slot, page), slot) == page
  {
    forall i | 0 <= i < PGSIZE ensures Slot(Stored(dev, slot, page), slot)[i] == page[i] {
      var n := i / SECTOR;
      assert 0 <= n < SECTORS_PER_PAGE && i == n * SECTOR + i % SECTOR;
      assert Stored(dev, slot, page)[SECTORS_PER_PAGE * slot + n] == page[n * SECTOR..n * SECTOR + SECTOR];
    }
  }

  lemma SlotElsewhere(dev: seq<Bytes>, slot: nat, page: Bytes, other: nat)
    requires SECTORS_PER_PAGE * slot + SECTORS_PER_PAGE <= |dev| && |page| == PGSIZE
    requires SECTORS_PER_PAGE * other + SECTORS_PER_PAGE <= |dev| && other != slot
    requires forall n | 0 <= n < |dev| :: |dev[n]| == SECTOR
    ensures Slot(Stored(dev, slot, page), other) == Slot(dev, other)
  {
    forall i | 0 <= i < PGSIZE ensures Slot(Stored(dev, slot, page), other)[i] == Slot(dev, other)[i] {
      assert 0 <= i / SECTOR < SECTORS_PER_PAGE;
    }
  }

  lemma ToSwapSlots(s: Vm, k: Key, j: Key)
    requires Inv(s) && k in s.spt && !s.spt[k].mmap && s.spt[k].status.Memory?
    requires First(s.swapMap, false) < |s.swapMap| && j in s.spt && s.spt[j].status.Swap?
    requires Inv(ToSwap(s, k))
    ensures SlotSame(s, ToSwap(s, k), s.spt[j].status.slot)
  {
    hide TableOk, OwnersOk, NonePinned, DirectoryOk, SwapOk, BackedOk, ProtectedOk, Slot, Stored, Drop, First;
    NotSwapped(s, j);
    ResidentFrame(s, k);
    SwapOutSound(s, k);
    DropSwap(SwapOut(s, k), k);
    SlotElsewhere(s.swapDev, First(s.swapMap, false), s.mem[s.spt[k].status.kpage], s.spt[j].status.slot);
  }

  lemma DropSwap(s: Vm, k: Key)
    requires Sound(s) && k in s.spt && s.spt[k].status.Memory?
    ensures Drop(s, k).swapDev == s.swapDev && Drop(s, k).swapMap == s.swapMap
  {
  }

  lemma ToSwapOthers(s: Vm, k: Key, j: Key)
    requires Inv(s) && k in s.spt && !s.spt[k].mmap && s.spt[k].status.Memory?
    requires First(s.swapMap, false) < |s.swapMap|
    requires j in s.spt && j != k && Synced(s, j)
    ensures Inv(ToSwap(s, k)) && Kept(s, ToSwap(s, k), j)
  {
    hide PoolOk, TableOk, OwnersOk, NonePinned, DirectoryOk, SwapSized, SwapOk, BackedOk, ProtectedOk, Image, Slot,
      Stored, Drop, Dirty, First;
    ToSwapKeepsInv(s, k);
    SwapOutSound(s, k);
    var s1 := SwapOut(s, k);
    DropOthers(s1, k, j);
    EntryIsOk(s, j);
    SameBit(ToSwap(s, k), Drop(s1, k), j);
    SameBit(s1, s, j);
    if s.spt[j].status.Swap? {
      ToSwapSlots(s, k, j);
    }
    KeptByFields(s, ToSwap(s, k), j);
  }

  lemma ToSwapKept(s: Vm, k: Key)
    requires Inv(s) && k in s.spt && !s.spt[k].mmap && s.spt[k].status.Memory?
    requires First(s.swapMap, false) < |s.swapMap|
    ensures Inv(ToSwap(s, k)) && Kept(s, ToSwap(s, k), k)
  {
    hide TableOk, OwnersOk, NonePinned, DirectoryOk, SwapOk, BackedOk, ProtectedOk, Image, Slot, Stored, Drop, First;
    ToSwapKeepsInv(s, k);
    SwapOutSound(s, k);
    ResidentFrame(s, k);
    DropSwap(SwapOut(s, k), k);
    SlotHolds(s.swapDev, First(s.swapMap, false), s.mem[s.spt[k].status.kpage]);
  }
}
