/** What munmap is for: afterwards the file holds the mapped memory; and the same when the process
    ends, and for the write system call. */
module PagingPersistence {
  import opened Basics
  import opened Paging
  import opened PagingInvariant
  import opened PagingSteps
  import opened PagingViews
  import opened PagingTeardown
  import opened PagingFlat
  import opened PagingMachine

  /** The bytes of inode n that entry e covers are v. */
  ghost predicate Saved(s: Vm, n: nat, e: Spte, v: Bytes) {
    n in s.inodes && |v| == e.readBytes && e.offset + e.readBytes <= |s.inodes[n]|
    && s.inodes[n][e.offset..e.offset + e.readBytes] == v
  }

  /** Page k, mapped from inode n, contains v: in its frame, and in the file unless it is dirty. */
  ghost predicate Contains(s: Vm, n: nat, k: Key, v: Bytes) {
    && k in s.spt && s.spt[k].mmap && EntryOk(s.spt[k], s.files, s.inodes) && s.files[s.spt[k].file].inode == n
    && |v| == s.spt[k].readBytes
    && (s.spt[k].status.Memory? ==> s.spt[k].status.kpage < |s.mem| && v <= s.mem[s.spt[k].status.kpage])
    && ((s.spt[k].status.Memory? && Dirty(s, k)) || Saved(s, n, s.spt[k], v))
  }

  lemma ImageSlice(data: Bytes, ofs: nat, n: nat)
    requires n <= PGSIZE && ofs + n <= |data|
    ensures Image(data, ofs, n)[..n] == data[ofs..ofs + n]
  {
  }

  lemma OverlaySlice(data: Bytes, ofs: nat, buf: Bytes)
    requires ofs + |buf| <= |data|
    ensures Overlay(data, ofs, buf)[ofs..ofs + |buf|] == buf
  {
  }

  lemma OverlayBeside(data: Bytes, ofs: nat, buf: Bytes, o: nat, n: nat)
    requires o + n <= |data| && (o + n <= ofs || ofs + |buf| <= o)
    ensures Overlay(data, ofs, buf)[o..o + n] == data[o..o + n]
  {
  }

  lemma ShownContains(s: Vm, k: Key, v: Bytes)
    requires Inv(s) && Shows(s, k, v) && s.spt[k].mmap
    ensures s.spt[k].file in s.files && Contains(s, s.files[s.spt[k].file].inode, k, v)
  {
    hide PoolOk, TableOk, OwnersOk, NonePinned, DirectoryOk, SwapSized, SwapOk, BackedOk, ProtectedOk, Image, Slot;
    EntryIsOk(s, k);
    var e := s.spt[k];
    var n := s.files[e.file].inode;
    ImageSlice(s.inodes[n], e.offset, e.readBytes);
    if e.status.Memory? {
      ResidentFrame(s, k);
      PoolSizes(s);
    } else if e.status.Swap? {
      NotSwapped(s, k);
    }
  }

  lemma UnmappedSaves(s: Vm, n: nat, k: Key, v: Bytes)
    requires Core(s) && Contains(s, n, k, v) && !Denied(s.files, n)
    ensures Saved(Unmapped(s, k), n, s.spt[k], v)
  {
    hide PoolOk, TableOk, OwnersOk, NonePinned, DirectoryOk, SwapSized, SwapOk, Flush, Removed, Denied, Overlay;
    var e := s.spt[k];
    if e.status.Memory? {
      FlushKeepsCore(s, k);
      FlushEffect(s, k);
      RemovedFiles(Flush(s, k), k);
      OverlaySlice(s.inodes[n], e.offset, s.mem[e.status.kpage][..e.readBytes]);
    } else {
      RemovedFiles(s, k);
    }
  }

  /** Page i is mapped from bytes of inode n that entry e covers. */
  predicate Touches(s: Vm, i: Key, n: nat, e: Spte) {
    i in s.spt && s.spt[i].file in s.files && s.files[s.spt[i].file].inode == n && Overlaps(s.spt[i], e)
  }

  lemma TouchesStill(s: Vm, s': Vm, i: Key, n: nat, e: Spte)
    requires i in s.spt && i in s'.spt && s'.spt[i] == s.spt[i] && SameFiles(s.files, s'.files)
    ensures Touches(s', i, n, e) <==> Touches(s, i, n, e)
  {
    hide Overlaps;
  }

  /** Unmapping another page of the file, elsewhere in it, leaves saved bytes alone. */
  lemma SavedStays(s: Vm, n: nat, i: Key, e: Spte, v: Bytes)
    requires Core(s) && i in s.spt && s.spt[i].mmap && EntryOk(s.spt[i], s.files, s.inodes)
    requires Saved(s, n, e, v) && !Touches(s, i, n, e)
    ensures Saved(Unmapped(s, i), n, e, v)
  {
    hide PoolOk, TableOk, OwnersOk, NonePinned, DirectoryOk, SwapSized, SwapOk, Flush, Removed, Denied, Overlay;
    var x := s.spt[i];
    if x.status.Memory? {
      FlushKeepsCore(s, i);
      FlushEffect(s, i);
      RemovedFiles(Flush(s, i), i);
      if s.files[x.file].inode == n {
        OverlayBeside(s.inodes[n], x.offset, s.mem[x.status.kpage][..x.readBytes], e.offset, e.readBytes);
      }
    } else {
      RemovedFiles(s, i);
    }
  }

  lemma ContainsStays(s: Vm, n: nat, i: Key, k: Key, v: Bytes)
    requires Core(s) && i in s.spt && s.spt[i].mmap && EntryOk(s.spt[i], s.files, s.inodes)
    requires Contains(s, n, k, v) && i != k && !Touches(s, i, n, s.spt[k])
    ensures Contains(Unmapped(s, i), n, k, v)
  {
    hide PoolOk, TableOk, OwnersOk, NonePinned, DirectoryOk, SwapSized, SwapOk, Unmapped, Denied, Dirty, Saved, EntryOk;
    UnmappedKeeps(s, i);
    EntryStays(s.spt[k], s.files, s.inodes, Unmapped(s, i).files, Unmapped(s, i).inodes);
    EntryFile(s, k);
    UnmappedDirty(s, i, k);
    UnmappedFields(s, i, k);
    if Saved(s, n, s.spt[k], v) {
      SavedStays(s, n, i, s.spt[k], v);
    }
  }

  lemma EntryFile(s: Vm, k: Key)
    requires k in s.spt && s.spt[k].mmap && EntryOk(s.spt[k], s.files, s.inodes)
    ensures Guarded(s, k)
  {
  }

  lemma {:induction false} TornStays(s: Vm, n: nat, ks: seq<Key>, e: Spte, v: Bytes)
    requires Unmappable(s, ks) && Saved(s, n, e, v) && forall i | i in ks :: !Touches(s, i, n, e)
    ensures Saved(Torn(s, ks), n, e, v)
    decreases |ks|
  {
    hide Core, Unmapped, Torn, EntryOk, Saved, Touches, SameFiles;
    UnfoldTorn(s, ks);
    if ks != [] {
      UnmappableHead(s, ks);
      SavedStays(s, n, ks[0], e, v);
      UnmappedKeeps(s, ks[0]);
      forall i | i in ks[1..] ensures !Touches(Unmapped(s, ks[0]), i, n, e) {
        TouchesStill(s, Unmapped(s, ks[0]), i, n, e);
      }
      TornStays(Unmapped(s, ks[0]), n, ks[1..], e, v);
    }
  }

  lemma {:induction false} TornSaves(s: Vm, n: nat, ks: seq<Key>, k: Key, v: Bytes)
    requires Unmappable(s, ks) && k in ks && Contains(s, n, k, v) && !Denied(s.files, n)
    requires forall i | i in ks && i != k :: !Touches(s, i, n, s.spt[k])
    ensures Saved(Torn(s, ks), n, s.spt[k], v)
    decreases |ks|
  {
    hide Core, Unmapped, Torn, EntryOk, Saved, Contains, Touches, Denied, SameFiles;
    UnfoldTorn(s, ks);
    UnmappableHead(s, ks);
    var i := ks[0];
    var s' := Unmapped(s, i);
    UnmappedKeeps(s, i);
    forall j | j in ks[1..] && j != k ensures !Touches(s', j, n, s.spt[k]) {
      TouchesStill(s, s', j, n, s.spt[k]);
    }
    if i == k {
      UnmappedSaves(s, n, k, v);
      TornStays(s', n, ks[1..], s.spt[k], v);
    } else {
      ContainsStays(s, n, i, k, v);
      SameDenied(s.files, s'.files, n);
      TornSaves(s', n, ks[1..], k, v);
    }
  }

  /** After munmap, the file holds what each page of the mapping showed; only a file that is
      denied writes (a running executable) does not take it. */
  lemma UnmapPersists(m: Machine, flat: Flat, f: nat, ks: seq<Key>, k: Key)
    requires MachineOk(m) && Agrees(m.vm, flat) && PagesOf(m.vm, f, ks) && k in ks && k in flat
    requires f in m.vm.files && !Denied(m.vm.files, m.vm.files[f].inode)
    ensures var n := m.vm.files[f].inode; var e := m.vm.spt[k]; var data := Unmap(m.vm, f, ks).inodes;
            n in data && e.offset + |flat[k]| <= |data[n]| && data[n][e.offset..e.offset + |flat[k]|] == flat[k]
  {
    hide Inv, ExeOk, Torn, Denied, Synced, View, Contains;
    PagesUnmappable(m.vm, f, ks);
    ShownContains(m.vm, k, flat[k]);
    TornSaves(m.vm, m.vm.files[f].inode, ks, k, flat[k]);
  }

  /** When a process ends, the files hold what the pages of its mappings showed: page k's bytes,
      if no other page of the process is mapped from them, and if no process but the one that
      ends runs the file. */
  lemma ExitPersists(m: Machine, flat: Flat, t: nat, mapped: seq<Key>, rest: seq<Key>, k: Key)
    requires MachineOk(m) && Agrees(m.vm, flat) && t in m.exe && PagesOfThread(m.vm, t, mapped, rest)
    requires k in mapped && k in flat && m.vm.spt[k].file in m.vm.files
    requires !Denied(Closed(m, t).files, m.vm.files[m.vm.spt[k].file].inode)
    requires forall i | i in mapped && i != k :: !Touches(m.vm, i, m.vm.files[m.vm.spt[k].file].inode, m.vm.spt[k])
    ensures var e := m.vm.spt[k]; var n := m.vm.files[e.file].inode;
            var data := Exited(m, t, mapped, rest).vm.inodes;
            n in data && e.offset + |flat[k]| <= |data[n]| && data[n][e.offset..e.offset + |flat[k]|] == flat[k]
  {
    hide Inv, ExeOk, MapsOk, Torn, Destroyed, Denied, Synced, View, Contains, Core, Touches, Unmappable, Destroyable,
      NoDuplicates, FilesOf, EntriesWithout;
    var n := m.vm.files[m.vm.spt[k].file].inode;
    ExitProceeds(m, t, mapped, rest);
    ShownContains(m.vm, k, flat[k]);
    ClosedContains(m, t, mapped, rest, k, flat[k]);
    var s0 := Closed(m, t);
    forall i | i in mapped && i != k ensures !Touches(s0, i, n, m.vm.spt[k]) {
      ClosedTouches(m, t, i, n, m.vm.spt[k]);
    }
    TornSaves(s0, n, mapped, k, flat[k]);
    DestroyedKeeps(Flushed(m, t, mapped), rest);
  }

  lemma ClosedTouches(m: Machine, t: nat, i: Key, n: nat, e: Spte)
    requires t in m.exe && !Touches(m.vm, i, n, e)
    ensures !Touches(Closed(m, t), i, n, e)
  {
    hide Overlaps;
  }

  lemma ClosedContains(m: Machine, t: nat, mapped: seq<Key>, rest: seq<Key>, k: Key, v: Bytes)
    requires MachineOk(m) && t in m.exe && PagesOfThread(m.vm, t, mapped, rest) && k in mapped
    requires m.vm.spt[k].file in m.vm.files && Contains(m.vm, m.vm.files[m.vm.spt[k].file].inode, k, v)
    ensures k in m.vm.spt && Contains(Closed(m, t), m.vm.files[m.vm.spt[k].file].inode, k, v)
  {
    hide Inv, NoDuplicates, Overlaps;
    OthersExecutable(m, t, k);
    SameBit(m.vm, Closed(m, t), k);
  }
}
