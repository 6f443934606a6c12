/** The kernel's paging code as it is written, on mutable tables, proved against the
    state machine. */
module PagingKernel {
  import opened Basics
  import Arithmetic
  import opened Paging
  import opened PagingInvariant
  import opened PagingSteps
  import opened PagingClock
  import opened PagingViews
  import opened PagingAccess
  import opened PagingTeardown
  import opened PagingMachine

  /** The frame at each clock position is for a different page. */
  ghost predicate KeysDiffer(s: Vm)
    requires ClockReady(s)
  {
    forall d, d' | 0 <= d < d' < |s.table| :: s.frames[Around(s, d)].key != s.frames[Around(s, d')].key
  }

  /** The pages whose second chance is used up after d inspections. */
  ghost function Passed(s: Vm, d: nat): set<Key>
    requires ClockReady(s) && d <= |s.table|
  {
    set i | 0 <= i < d && Unpinned(s)[i] :: s.frames[Around(s, i)].key
  }

  /** The clock's state after i inspections that found no victim. */
  ghost predicate Sweeping(s: Vm, i: nat, pd: map<Key, Pte>)
    requires ClockReady(s)
  {
    var n := |s.table|;
    if i <= n then (forall d | 0 <= d < i :: !Cold(s)[d]) && pd == ClearAccessed(s.pd, Passed(s, i))
    else
      && i <= 2 * n
      && (forall d | 0 <= d < n :: !Cold(s)[d]) && pd == ClearAccessed(s.pd, Passed(s, n))
      && (forall d | 0 <= d < i - n :: !Unpinned(s)[d])
  }

  lemma SweepStarts(s: Vm)
    requires ClockReady(s)
    ensures Sweeping(s, 0, s.pd)
  {
    assert Passed(s, 0) == {};
  }

  lemma NextLap(start: nat, i: nat, n: nat)
    requires n > 0 && start < n
    ensures (start + (i + n)) % n == (start + i) % n
    ensures (start + i + 1) % n == if (start + i) % n + 1 < n then (start + i) % n + 1 else 0
  {
    ModStep(start + i, n);
    assert start + (i + n) == (start + i) + n;
  }

  lemma {:induction false} ModStep(x: nat, n: nat)
    requires n > 0
    ensures (x + n) % n == x % n
    ensures (x + 1) % n == if x % n + 1 < n then x % n + 1 else 0
  {
    var q, r := x / n, x % n;
    assert x == q * n + r;
    ModOf(q + 1, r, n);
    assert x + n == (q + 1) * n + r;
    if r + 1 < n {
      ModOf(q, r + 1, n);
    } else {
      ModOf(q + 1, 0, n);
      assert x + 1 == (q + 1) * n + 0;
    }
  }

  lemma ModOf(q: nat, r: nat, n: nat)
    requires r < n
    ensures (q * n + r) % n == r
  {
    Arithmetic.DivUnique(q * n + r, n, q);
  }

  lemma AroundAgain(s: Vm, i: nat)
    requires ClockReady(s)
    ensures Around(s, i + |s.table|) == Around(s, i)
  {
    hide Start;
    NextLap(Start(s), i, |s.table|);
  }

  /** list_next and the wrap at the end move one place round the clock. */
  lemma NextAround(s: Vm, i: nat)
    requires ClockReady(s) && NoDuplicates(s.table)
    ensures var next := NextNode(s.table, Around(s, i));
            Around(s, i + 1) == if next.On? then next.kpage else s.table[0]
  {
    hide Start;
    NextLap(Start(s), i, |s.table|);
  }

  lemma PassedOne(s: Vm, i: nat)
    requires ClockReady(s) && i < |s.table|
    ensures Passed(s, i + 1) == if Unpinned(s)[i] then Passed(s, i) + {s.frames[Around(s, i)].key} else Passed(s, i)
  {
    hide Around;
  }

  lemma NotPassed(s: Vm, i: nat)
    requires ClockReady(s) && KeysDiffer(s) && i < |s.table|
    ensures s.frames[Around(s, i)].key !in Passed(s, i)
  {
    hide Around, Unpinned;
  }

  lemma HasPassed(s: Vm, i: nat, n: nat)
    requires ClockReady(s) && i < n <= |s.table| && Unpinned(s)[i]
    ensures s.frames[Around(s, i)].key in Passed(s, n)
  {
    hide Around, Unpinned;
  }

  /** An inspection that finds no victim. */
  lemma SweepAdvances(s: Vm, i: nat, pd: map<Key, Pte>)
    requires ClockReady(s) && KeysDiffer(s) && i < 2 * |s.table| && Sweeping(s, i, pd)
    ensures var f := s.frames[Around(s, i)];
            if f.pinned then Sweeping(s, i + 1, pd)
            else f.key in pd && pd[f.key].accessed ==>
              i < |s.table| && Sweeping(s, i + 1, pd[f.key := pd[f.key].(accessed := false)])
  {
    hide Around, First;
    var n := |s.table|;
    if i < n {
      PassedOne(s, i);
      NotPassed(s, i);
    } else {
      AroundAgain(s, i - n);
      assert (i - n) + n == i;
      if !s.frames[Around(s, i)].pinned {
        HasPassed(s, i - n, n);
      }
    }
  }

  /** The inspection that finds the victim. */
  lemma SweepFinds(s: Vm, i: nat, pd: map<Key, Pte>)
    requires ClockReady(s) && KeysDiffer(s) && i < 2 * |s.table| && Sweeping(s, i, pd)
    requires var f := s.frames[Around(s, i)]; !f.pinned && !(f.key in pd && pd[f.key].accessed)
    ensures Around(s, i) == Around(s, VictimDistance(s)) && pd == ClearAccessed(s.pd, SecondChances(s))
  {
    hide Around, First;
    var n := |s.table|;
    if i < n {
      NotPassed(s, i);
      FirstIs(Cold(s), true, i);
      assert Passed(s, i) == SecondChances(s);
    } else {
      AroundAgain(s, i - n);
      assert (i - n) + n == i;
      if i == n {
        assert Sweeping(s, n, pd);
      }
      FirstIs(Cold(s), true, n);
      FirstIs(Unpinned(s), true, i - n);
      assert Passed(s, n) == SecondChances(s);
    }
  }

  class Kernel {
    var spt: map<Key, Spte>
    var pd: map<Key, Pte>
    var frames: map<nat, Frame>
    var table: seq<nat>
    var hand: Hand
    var used: seq<bool>
    var mem: seq<Bytes>
    var swapMap: seq<bool>
    var swapDev: seq<Bytes>
    var files: map<nat, OpenFile>
    var inodes: map<nat, Bytes>

    /** The tables as one value. */
    function S(): Vm
      reads this
    {
      Vm(spt, pd, frames, table, hand, used, mem, swapMap, swapDev, files, inodes)
    }

    /** The search loop of evict_frame.  It looks at no more than two laps of frames; the
        victim is the first unpinned frame from the hand on that was not accessed, or else
        the first unpinned one. */
    method ClockScan() returns (inspections: nat)
      requires ClockReady(S()) && NoDuplicates(table) && KeysDiffer(S())
      requires exists d | 0 <= d < |table| :: Unpinned(S())[d]
      modifies this`pd, this`hand
      ensures inspections <= 2 * |table|
      ensures hand == On(Around(old(S()), VictimDistance(old(S()))))
      ensures pd == ClearAccessed(old(pd), SecondChances(old(S())))
    {
      hide Around, First, Start, NextNode, Sweeping, KeysDiffer, ClearAccessed, SecondChances, VictimDistance;
      ghost var s := S();
      BeginsAt(s);
      if !hand.On? {
        hand := On(table[0]);
      }
      inspections := 0;
      SweepStarts(s);
      while true
        invariant inspections <= 2 * |table|
        invariant spt == s.spt && frames == s.frames && table == s.table
        invariant hand == On(Around(s, inspections))
        invariant Sweeping(s, inspections, pd)
        decreases 2 * |table| - inspections
      {
        SweepEnds(s, inspections, pd);
        var f := frames[hand.kpage];
        inspections := inspections + 1;
        SweepAdvances(s, inspections - 1, pd);
        if !f.pinned {
          if f.key in pd && pd[f.key].accessed {
            pd := pd[f.key := pd[f.key].(accessed := false)];
          } else {
            SweepFinds(s, inspections - 1, pd);
            return;
          }
        }
        NextAround(s, inspections - 1);
        var next := NextNode(table, hand.kpage);
        hand := if next.On? then next else On(table[0]);
      }
    }

    /** frame_free */
    method FreeFrame(p: nat)
      requires p in table && p < |used| == |mem|
      modifies this`used, this`mem, this`hand, this`table, this`frames
      ensures S() == FrameFree(old(S()), p)
    {
      hide NextNode, Without, Filled;
      used, mem := used[p := false], mem[p := Filled(POISON)];
      if hand == On(p) {
        hand := NextNode(table, p);
      }
      table := Without(table, p);
      frames := frames - {p};
    }

    /** file_write */
    method FileWrite(f: nat, buf: Bytes)
      requires f in files && files[f].inode in inodes
      modifies this`files, this`inodes
      ensures S() == WriteFile(old(S()), f, buf)
    {
      var file := files[f];
      if !Denied(files, file.inode) {
        var data := inodes[file.inode];
        inodes := inodes[file.inode := Overlay(data, file.pos, buf)];
        files := files[f := file.(pos := file.pos + Transfer(|data|, file.pos, |buf|))];
      }
    }

    /** swap_out: the page is written sector by sector to the first free slot.  Without one
        the kernel panics. */
    method SwapOut(p: nat) returns (ok: bool, slot: nat)
      requires p < |mem| && |mem[p]| == PGSIZE && SwapSized(swapMap, swapDev)
      modifies this`swapMap, this`swapDev
      ensures slot == First(old(swapMap), false) && (ok <==> slot < |old(swapMap)|)
      ensures ok ==> swapMap == old(swapMap)[slot := true] && swapDev == Stored(old(swapDev), slot, mem[p])
      ensures !ok ==> swapMap == old(swapMap) && swapDev == old(swapDev)
    {
      slot := First(swapMap, false);
      ok := slot < |swapMap|;
      if ok {
        swapMap := swapMap[slot := true];
        var i := 0;
        while i < SECTORS_PER_PAGE
          invariant 0 <= i <= SECTORS_PER_PAGE && |swapDev| == |old(swapDev)| && swapMap == old(swapMap)[slot := true]
          invariant forall n | 0 <= n < |swapDev| ::
                      swapDev[n] == if 0 <= n - SECTORS_PER_PAGE * slot < i then Stored(old(swapDev), slot, mem[p])[n]
                          else old(swapDev)[n]
        {
          swapDev := swapDev[SECTORS_PER_PAGE * slot + i := mem[p][i * SECTOR..i * SECTOR + SECTOR]];
          i := i + 1;
        }
        assert swapDev == Stored(old(swapDev), slot, mem[p]);
      }
    }

    /** swap_in: the slot is read sector by sector and then marked free. */
    method SwapIn(slot: nat, p: nat)
      requires p < |mem| && |mem[p]| == PGSIZE && SwapSized(swapMap, swapDev) && slot < |swapMap| && swapMap[slot]
      modifies this`swapMap, this`mem
      ensures swapMap == old(swapMap)[slot := false] && mem == old(mem)[p := Slot(swapDev, slot)]
    {
      hide Slot;
      var i := 0;
      while i < SECTORS_PER_PAGE
        invariant 0 <= i <= SECTORS_PER_PAGE && |mem| == |old(mem)| && |mem[p]| == PGSIZE && swapMap == old(swapMap)
        invariant forall q | 0 <= q < |mem| && q != p :: mem[q] == old(mem)[q]
        invariant mem[p][..i * SECTOR] == Slot(swapDev, slot)[..i * SECTOR]
      {
        var sector := swapDev[SECTORS_PER_PAGE * slot + i];
        SlotSector(swapDev, slot, i);
        SectorAppended(mem[p], Slot(swapDev, slot), i, sector);
        mem := mem[p := mem[p][..i * SECTOR] + sector + mem[p][i * SECTOR + SECTOR..]];
        i := i + 1;
      }
      assert mem[p] == mem[p][..PGSIZE] == Slot(swapDev, slot);
      swapMap := swapMap[slot := false];
    }

    /** spt_memory_to_lazy */
    method MemoryToLazy(k: Key)
      requires Inv(S()) && k in spt && spt[k].mmap && spt[k].status.Memory?
      modifies this
      ensures S() == ToLazy(old(S()), k)
    {
      hide PoolOk, TableOk, OwnersOk, NonePinned, DirectoryOk, SwapSized, SwapOk, BackedOk, ProtectedOk, FrameFree;
      var e := spt[k];
      EntryIsOk(S(), k);
      ResidentFrame(S(), k);
      PoolSizes(S());
      PageSize(S(), e.status.kpage);
      ghost var s := S();
      FlushKeepsInv(s, k);
      if k in pd && pd[k].dirty {
        files := Seek(files, e.file, e.offset);
        FileWrite(e.file, mem[e.status.kpage][..e.readBytes]);
      }
      assert S() == Flush(s, k);
      ghost var s1 := S();
      ResidentFrame(s1, k);
      PoolSizes(s1);
      pd := ClearPage(pd, k);
      FreeFrame(e.status.kpage);
      FreeFields(s1.(pd := pd), e.status.kpage);
      spt := spt[k := e.(status := Lazy)];
    }

    /** spt_memory_to_swap; swap_out panics when there is no free slot. */
    method MemoryToSwap(k: Key) returns (ok: bool)
      requires Inv(S()) && k in spt && spt[k].status.Memory?
      modifies this
      ensures ok <==> First(old(swapMap), false) < |old(swapMap)|
      ensures ok ==> S() == ToSwap(old(S()), k)
    {
      hide TableOk, OwnersOk, NonePinned, DirectoryOk, SwapOk, BackedOk, ProtectedOk, FrameFree, Stored, First;
      var e := spt[k];
      ResidentFrame(S(), k);
      ghost var s := S();
      var slot: nat;
      ok, slot := SwapOut(e.status.kpage);
      if ok {
        SwapOutSound(s, k);
        ghost var s1 := PagingSteps.SwapOut(s, k);
        assert S() == s1;
        pd := ClearPage(pd, k);
        FreeFrame(e.status.kpage);
        FreeFields(s1.(pd := pd), e.status.kpage);
        spt := spt[k := e.(status := Swap(slot))];
      }
    }

    /** evict_frame.  The victim's pinned flag, set while it is being written out, goes with
        its frame. */
    method EvictFrame() returns (ok: bool)
      requires Inv(S()) && !HasFreePage(S())
      modifies this
      ensures if ok then Evict(old(S())) == Resumed(S()) else Evict(old(S())).Panic?
    {
      hide PoolOk, TableOk, OwnersOk, NonePinned, DirectoryOk, SwapSized, SwapOk, BackedOk, ProtectedOk, First,
        ClearAccessed, SecondChances, ToLazy, ToSwap, Around, VictimDistance, KeysDiffer, Unpinned;
      ghost var s := S();
      ClockReadyWhenFull(s);
      FullScans(s);
      var _ := ClockScan();
      ScannedKeepsInv(s);
      assert S() == Scanned(s);
      var k := frames[hand.kpage].key;
      assert k == VictimKey(s);
      if spt[k].mmap {
        MemoryToLazy(k);
        ok := true;
      } else {
        ok := MemoryToSwap(k);
      }
    }

    /** frame_alloc: a pinned frame for page k in the first free page of the pool, after an
        eviction if there is none. */
    method AllocFrame(k: Key) returns (ok: bool, p: nat)
      requires Inv(S())
      modifies this
      ensures ok <==> MakeRoom(old(S())).Resumed?
      ensures ok ==>
                var s1 := MakeRoom(old(S())).vm;
                Inv(s1) && HasFreePage(s1) && p == First(s1.used, false) && S() == Framed(s1, k)
    {
      hide PoolOk, TableOk, OwnersOk, NonePinned, DirectoryOk, SwapSized, SwapOk, BackedOk, ProtectedOk, First, Evict;
      ghost var s := S();
      MakeRoomKeepsInv(s);
      p := First(used, false);
      ok := true;
      if p == |used| {
        ok := EvictFrame();
        p := First(used, false);
      }
      if ok {
        used := used[p := true];
        frames := frames[p := Frame(k, true)];
        table := table + [p];
      }
    }

    /** What the callers of frame_alloc do when the page's content is in place: install the
        page table entry, unpin the frame, and make the entry resident. */
    method Install(k: Key, p: nat, e: Spte)
      requires p in frames
      modifies this`pd, this`frames, this`spt
      ensures pd == old(pd)[k := Pte(p, true, e.writable, false, false)]
      ensures frames == old(frames)[p := Frame(old(frames)[p].key, false)]
      ensures spt == old(spt)[k := e.(status := Memory(p))]
    {
      pd := pd[k := Pte(p, true, e.writable, false, false)];
      frames := frames[p := frames[p].(pinned := false)];
      spt := spt[k := e.(status := Memory(p))];
    }

    /** spt_swap_to_memory */
    method SwapToMemory(k: Key) returns (ok: bool)
      requires Inv(S()) && k in spt && spt[k].status.Swap?
      modifies this
      ensures ok <==> PagingSteps.SwapToMemory(old(S()), k).Resumed?
      ensures ok ==> PagingSteps.SwapToMemory(old(S()), k) == Resumed(S())
    {
      hide PoolOk, TableOk, OwnersOk, NonePinned, DirectoryOk, SwapSized, SwapOk, BackedOk, ProtectedOk, First,
        MakeRoom, Slot;
      ghost var s := S();
      MakeRoomKeepsInv(s);
      MakeRoomKeepsOthers(s, k);
      var p: nat;
      ok, p := AllocFrame(k);
      if ok {
        ghost var s1 := MakeRoom(s).vm;
        NotSwapped(s1, k);
        PoolSizes(s1);
        PageSize(s1, p);
        SwapIn(spt[k].status.slot, p);
        Install(k, p, spt[k]);
        assert frames == s1.frames[p := Frame(k, false)];
        assert S() == PagingSteps.SwapIn(s1, k);
      }
    }

    /** spt_initialize_as_memory, with PAL_ZERO */
    method InitializeAsMemory(k: Key) returns (ok: bool)
      requires Inv(S()) && k !in spt
      modifies this
      ensures ok <==> FreshPage(old(S()), k).Resumed?
      ensures ok ==> FreshPage(old(S()), k) == Resumed(S())
    {
      hide PoolOk, TableOk, OwnersOk, NonePinned, DirectoryOk, SwapSized, SwapOk, BackedOk, ProtectedOk, First,
        MakeRoom, Filled;
      ghost var s := S();
      MakeRoomKeepsInv(s);
      var p: nat;
      ok, p := AllocFrame(k);
      if ok {
        ghost var s1 := MakeRoom(s).vm;
        PoolSizes(s1);
        mem := mem[p := Filled(0)];
        Install(k, p, ANONYMOUS);
        assert frames == s1.frames[p := Frame(k, false)];
        assert S() == Enter(s1, k, ANONYMOUS, Filled(0));
      }
    }

    /** load_page after frame_alloc: read from wherever the position is by then, and give the
        frame back if the read is short. */
    method ReadPage(k: Key, p: nat, ghost s: Vm) returns (v: Verdict)
      requires Inv(s) && HasFreePage(s) && k in s.spt && s.spt[k].status.Lazy?
      requires p == First(s.used, false) && S() == Framed(s, k)
      modifies this
      ensures Judged(v, ReadIn(s, k), S())
    {
      hide PoolOk, TableOk, OwnersOk, NonePinned, DirectoryOk, SwapSized, SwapOk, BackedOk, ProtectedOk, First, Image,
        Transfer, Enter, FrameFree;
      EntryIsOk(s, k);
      PoolSizes(s);
      var e := spt[k];
      var file := files[e.file];
      var data := inodes[file.inode];
      var n := Transfer(|data|, file.pos, e.readBytes);
      files := Seek(files, e.file, file.pos + n);
      ghost var s2 := s.(files := files);
      if n != e.readBytes {
        FreeFrame(p);
        FramedAndFreed(s2, k);
        v := Kill;
      } else {
        mem := mem[p := Image(data, file.pos, e.readBytes)];
        Install(k, p, e);
        assert frames == s.frames[p := Frame(k, false)];
        EnteredFields(s2, k, e, mem[p], S());
        v := Fine;
      }
    }

    /** spt_lazy_to_memory, with load_page: seek first, then allocate, then read. */
    method LazyToMemory(k: Key) returns (v: Verdict)
      requires Inv(S()) && k in spt && spt[k].status.Lazy?
      modifies this
      ensures Judged(v, PagingSteps.LazyToMemory(old(S()), k), S())
    {
      hide PoolOk, TableOk, OwnersOk, NonePinned, DirectoryOk, SwapSized, SwapOk, BackedOk, ProtectedOk, First,
        MakeRoom, ReadIn, Framed;
      ghost var s := S();
      EntryIsOk(s, k);
      SeekKeepsInv(s, spt[k].file, spt[k].offset);
      files := Seek(files, spt[k].file, spt[k].offset);
      ghost var s0 := S();
      assert s0 == Sought(s, k);
      MakeRoomKeepsInv(s0);
      MakeRoomKeepsOthers(s0, k);
      var ok, p := AllocFrame(k);
      if ok {
        v := ReadPage(k, p, MakeRoom(s0).vm);
      } else {
        v := Panicked;
      }
    }

    /** page_fault_handler */
    method HandlePageFault(t: nat, addr: nat, esp: nat, notPresent: bool) returns (v: Verdict)
      requires Inv(S())
      modifies this
      ensures Judged(v, PageFault(old(S()), t, addr, esp, notPresent), S())
    {
      hide PoolOk, TableOk, OwnersOk, NonePinned, DirectoryOk, SwapSized, SwapOk, BackedOk, ProtectedOk, FreshPage,
        PagingSteps.LazyToMemory, PagingSteps.SwapToMemory;
      var k := Key(t, addr / PGSIZE);
      if !notPresent {
        return Kill;
      }
      if k !in spt {
        if !StackAccess(addr, esp) {
          return Kill;
        }
        FreshEnds(S(), k);
        var ok := InitializeAsMemory(k);
        return if ok then Fine else Panicked;
      }
      match spt[k].status {
        case Memory(_) =>
          v := Kill;
        case Lazy =>
          v := LazyToMemory(k);
        case Swap(_) =>
          SwapToMemoryEnds(S(), k);
          var ok := SwapToMemory(k);
          v := if ok then Fine else Panicked;
      }
    }

    /** spt_destroy_entry */
    method DestroyEntry(k: Key)
      requires Core(S()) && k in spt
      modifies this
      ensures S() == Removed(old(S()), k)
    {
      hide PoolOk, TableOk, OwnersOk, NonePinned, DirectoryOk, SwapOk, FrameFree;
      ghost var s := S();
      match spt[k].status {
        case Memory(p) =>
          ResidentFrame(s, k);
          PoolSizes(s);
          pd := ClearPage(pd, k);
          FreeFrame(p);
          FreeFields(s.(pd := pd), p);
        case Swap(i) =>
          SlotInRange(s, k);
          swapMap := swapMap[i := false];
        case Lazy =>
      }
      spt := spt - {k};
    }

    /** mmap_unmap_and_flush: page after page of the mapping, then the file is closed. */
    method UnmapAndFlush(t: nat, base: nat, f: nat)
      requires Inv(S()) && f in files && files[f].inode in inodes
      requires PagesOf(S(), f, MappingKeys(t, base, PageCount(|inodes[files[f].inode]|)))
      modifies this
      ensures S() == Unmap(old(S()), f, MappingKeys(t, base, PageCount(|old(inodes)[old(files)[f].inode]|)))
    {
      hide Core, PagesOf, Unmapped, Inv, Torn, EntryOk, PageCount;
      ghost var s := S();
      var n := PageCount(|inodes[files[f].inode]|);
      ghost var ks := MappingKeys(t, base, n);
      PagesUnmappable(s, f, ks);
      var i := 0;
      while i < n
        invariant 0 <= i <= n && Unmappable(S(), ks[i..]) && Torn(S(), ks[i..]) == Torn(s, ks)
      {
        var k := Key(t, base + i);
        assert ks[i..][0] == k && ks[i..][1..] == ks[i + 1..];
        UnfoldTorn(S(), ks[i..]);
        UnmappableHead(S(), ks[i..]);
        UnmapPage(k);
        i := i + 1;
      }
      UnfoldTorn(S(), ks[n..]);
      files := files - {f};
    }

    /** The body of the loop in mmap_unmap_and_flush. */
    method UnmapPage(k: Key)
      requires Core(S()) && k in spt && spt[k].mmap && EntryOk(spt[k], files, inodes)
      modifies this
      ensures S() == Unmapped(old(S()), k)
    {
      hide PoolOk, TableOk, OwnersOk, NonePinned, DirectoryOk, SwapSized, SwapOk, Removed;
      ghost var s := S();
      var e := spt[k];
      if e.status.Memory? {
        ResidentFrame(s, k);
        PoolSizes(s);
        PageSize(s, e.status.kpage);
        FlushKeepsCore(s, k);
        if k in pd && pd[k].dirty {
          files := Seek(files, e.file, e.offset);
          FileWrite(e.file, mem[e.status.kpage][..e.readBytes]);
        }
        assert S() == Flush(s, k);
      }
      DestroyEntry(k);
    }
  }

  /** How a fault ends. */
  datatype Verdict = Fine | Kill | Panicked

  ghost predicate Judged(v: Verdict, r: Outcome, s: Vm) {
    match v
    case Fine => r == Resumed(s)
    case Kill => r == Killed(s)
    case Panicked => r.Panic?
  }

  /** The pages of a mapping in ascending order. */
  function MappingKeys(t: nat, base: nat, n: nat): (ks: seq<Key>)
    ensures |ks| == n && forall i | 0 <= i < n :: ks[i] == Key(t, base + i)
  {
    seq(n, i requires 0 <= i < n => Key(t, base + i))
  }

  lemma EnteredFields(s: Vm, k: Key, e: Spte, content: Bytes, s': Vm)
    requires HasFreePage(s) && |s.mem| == |s.used|
    requires var p := First(s.used, false);
             s' == s.(used := s.used[p := true], mem := s.mem[p := content], frames := s.frames[p := Frame(k, false)],
                      table := s.table + [p], pd := s.pd[k := Pte(p, true, e.writable, false, false)],
                      spt := s.spt[k := e.(status := Memory(p))])
    ensures s' == Enter(s, k, e, content)
  {
    hide First;
  }

  /** Taking a frame and giving it back leaves only a poisoned page behind. */
  lemma FramedAndFreed(s: Vm, k: Key)
    requires Sound(s) && HasFreePage(s)
    ensures var p := First(s.used, false); var f := Framed(s, k);
            p in f.table && p < |f.used| == |f.mem| && FrameFree(f, p) == s.(mem := s.mem[p := Filled(POISON)])
  {
    hide OwnersOk, SwapSized, First, IndexOf, Filled;
    var p, f := First(s.used, false), Framed(s, k);
    FreeIsUnframed(s, p);
    LastNode(s.table, p);
    assert f.frames - {p} == s.frames;
    assert f.used[p := false] == s.used;
  }

  lemma {:induction false} LastNode(t: seq<nat>, p: nat)
    requires p !in t
    ensures p in t + [p] && Without(t + [p], p) == t
  {
    var u := t + [p];
    assert u[|t|] == p && forall j | 0 <= j < |t| :: u[j] == t[j] != p;
  }

  /** A pinned frame for k has been taken from the pool. */
  function Framed(s: Vm, k: Key): Vm
    requires HasFreePage(s)
  {
    var p := First(s.used, false);
    s.(used := s.used[p := true], frames := s.frames[p := Frame(k, true)], table := s.table + [p])
  }

  /** In a good state with a full pool the clock can run. */
  lemma FullScans(s: Vm)
    requires Inv(s) && !HasFreePage(s)
    ensures ClockReady(s) && NoDuplicates(s.table) && KeysDiffer(s)
    ensures exists d | 0 <= d < |s.table| :: Unpinned(s)[d]
  {
    hide PoolOk, DirectoryOk, SwapSized, SwapOk, BackedOk, ProtectedOk, First, Around;
    ClockReadyWhenFull(s);
    assert Unpinned(s)[0];
    forall d, d' | 0 <= d < d' < |s.table| ensures s.frames[Around(s, d)].key != s.frames[Around(s, d')].key {
      PlacesDiffer(s, d, d');
    }
  }

  lemma PlacesDiffer(s: Vm, d: nat, d': nat)
    requires ClockReady(s) && NoDuplicates(s.table) && d < d' < |s.table|
    ensures Around(s, d) != Around(s, d')
  {
    hide Start;
    var n, i := |s.table|, Start(s);
    Remainder(i, d, n);
    Remainder(i, d', n);
  }

  lemma Remainder(i: nat, d: nat, n: nat)
    requires i < n && d < n
    ensures (i + d) % n == if i + d < n then i + d else i + d - n
  {
    if i + d < n {
      ModOf(0, i + d, n);
      assert 0 * n + (i + d) == i + d;
    } else {
      ModOf(1, i + d - n, n);
      assert 1 * n + (i + d - n) == i + d;
    }
  }

  /** Which fields frame_free leaves alone. */
  lemma FreeFields(s: Vm, p: nat)
    requires p in s.table && p < |s.used| == |s.mem|
    ensures FrameFree(s, p).spt == s.spt && FrameFree(s, p).pd == s.pd
  {
  }

  lemma SlotSector(dev: seq<Bytes>, slot: nat, i: nat)
    requires SECTORS_PER_PAGE * slot + SECTORS_PER_PAGE <= |dev| && i < SECTORS_PER_PAGE
    requires forall n | 0 <= n < |dev| :: |dev[n]| == SECTOR
    ensures Slot(dev, slot)[i * SECTOR..i * SECTOR + SECTOR] == dev[SECTORS_PER_PAGE * slot + i]
  {
    var bytes := Slot(dev, slot)[i * SECTOR..i * SECTOR + SECTOR];
    forall b | 0 <= b < SECTOR ensures bytes[b] == dev[SECTORS_PER_PAGE * slot + i][b] {
      assert (i * SECTOR + b) / SECTOR == i && (i * SECTOR + b) % SECTOR == b;
    }
  }

  lemma SectorAppended(page: Bytes, target: Bytes, i: nat, sector: Bytes)
    requires |page| == |target| == PGSIZE && i < SECTORS_PER_PAGE && |sector| == SECTOR
    requires page[..i * SECTOR] == target[..i * SECTOR] && target[i * SECTOR..i * SECTOR + SECTOR] == sector
    ensures var page' := page[..i * SECTOR] + sector + page[i * SECTOR + SECTOR..];
            |page'| == PGSIZE && page'[..(i + 1) * SECTOR] == target[..(i + 1) * SECTOR]
  {
    var page' := page[..i * SECTOR] + sector + page[i * SECTOR + SECTOR..];
    assert (i + 1) * SECTOR == i * SECTOR + SECTOR;
    assert page'[..i * SECTOR + SECTOR] == page[..i * SECTOR] + sector;
    assert target[..i * SECTOR + SECTOR] == target[..i * SECTOR] + target[i * SECTOR..i * SECTOR + SECTOR];
  }

  lemma BeginsAt(s: Vm)
    requires ClockReady(s)
    ensures Around(s, 0) == if s.hand.On? then s.hand.kpage else s.table[0]
  {
    hide IndexOf;
    ModOf(0, Start(s), |s.table|);
    assert Start(s) + 0 == 0 * |s.table| + Start(s);
  }

  /** Two laps are enough when some frame is not pinned. */
  lemma SweepEnds(s: Vm, i: nat, pd: map<Key, Pte>)
    requires ClockReady(s) && Sweeping(s, i, pd) && i <= 2 * |s.table|
    requires exists d | 0 <= d < |s.table| :: Unpinned(s)[d]
    ensures i < 2 * |s.table|
  {
    hide Around, Unpinned, Cold;
  }
}
