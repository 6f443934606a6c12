/** Flat memory, the reference the paging system is measured against: a map from pages to
    plain bytes that knows nothing of frames, swap slots or files. */
module PagingFlat {
  import opened Paging
  import opened PagingInvariant
  import opened PagingSteps
  import opened PagingViews
  import opened PagingTransparency
  import opened PagingAccess
  import opened PagingEvolution

  type Flat = map<Key, Bytes>

  /** Page k shows the bytes v as far as they are promised. */
  ghost predicate Shows(s: Vm, k: Key, v: Bytes)
    requires Inv(s)
  {
    k in s.spt && Synced(s, k) && |v| == Promised(s.spt[k]) && View(s, k)[..|v|] == v
  }

  /** The machine shows every page of the flat memory, and the flat memory has every page
      that no mapping made. */
  ghost predicate Agrees(s: Vm, flat: Flat)
    requires Inv(s)
  {
    && (forall k | k in flat :: Shows(s, k, flat[k]))
    && (forall k | k in s.spt && !s.spt[k].mmap :: k in flat)
  }

  lemma KeptShows(s: Vm, s': Vm, k: Key, v: Bytes)
    requires Inv(s) && Inv(s') && Shows(s, k, v) && Kept(s, s', k)
    ensures Shows(s', k, v)
  {
    hide Inv, View, Synced;
  }

  // ---- reading and writing --------------------------------------------------------------------

  /** The flat memory after the checks of an access: pages in danger are given up, and a new
      stack page is zero. */
  ghost function Checked(s: Vm, flat: Flat, t: nat, addr: nat, esp: nat, grows: bool): Flat
    requires Inv(s)
  {
    var safe := map j | j in flat && !AtRisk(s, t, addr, esp, j) :: flat[j];
    if grows then safe[Key(t, addr / PGSIZE) := Filled(0)] else safe
  }

  /** Does the access make a new stack page? */
  ghost predicate Grows(s: Vm, s': Vm, k: Key) {
    k !in s.spt && k in s'.spt
  }

  lemma ReadyAgrees(s: Vm, flat: Flat, t: nat, addr: nat, esp: nat, write: bool)
    requires Inv(s) && Agrees(s, flat)
    ensures var r := Ready(s, t, addr, esp, write); var k := Key(t, addr / PGSIZE);
            !r.Panic? ==> Inv(r.vm) && Agrees(r.vm, Checked(s, flat, t, addr, esp, Grows(s, r.vm, k)))
  {
    hide Inv, View, Synced, Ready, AtRisk, Kept, Present, Filled;
    var r := Ready(s, t, addr, esp, write);
    var k := Key(t, addr / PGSIZE);
    ReadyBringsIn(s, t, addr, esp, write);
    if !r.Panic? {
      var flat' := Checked(s, flat, t, addr, esp, Grows(s, r.vm, k));
      forall j | j in flat' ensures Shows(r.vm, j, flat'[j]) {
        if j == k && Grows(s, r.vm, k) {
          ZeroShows(r.vm, k);
        } else {
          ReadyKept(s, t, addr, esp, write, j);
          KeptShows(s, r.vm, j, flat[j]);
        }
      }
      forall j | j in r.vm.spt && !r.vm.spt[j].mmap ensures j in flat' {
        if j in s.spt {
          ReadyEvolves(s, t, addr, esp, write);
          if AtRisk(s, t, addr, esp, j) {
            RiskIsMapped(s, t, addr, esp, j);
          }
        }
      }
    }
  }

  lemma ZeroShows(s: Vm, k: Key)
    requires Inv(s) && k in s.spt && !s.spt[k].mmap && View(s, k) == Filled(0)
    ensures Shows(s, k, Filled(0))
  {
    hide PoolOk, TableOk, OwnersOk, NonePinned, DirectoryOk, SwapSized, SwapOk, BackedOk, ProtectedOk, View;
  }

  lemma RiskIsMapped(s: Vm, t: nat, addr: nat, esp: nat, j: Key)
    requires Inv(s) && j in s.spt && AtRisk(s, t, addr, esp, j)
    ensures s.spt[j].mmap
  {
    hide Inv, Danger;
    if !s.spt[j].mmap {
      AnonymousIsSafe(s, t, addr, esp, j);
    }
  }

  /** The byte a read returns, once the page is there. */
  function ByteAt(s: Vm, k: Key, i: nat): Byte
    requires Inv(s) && Present(s, k) && i < PGSIZE
  {
    PresentFrame(s, k);
    s.mem[s.pd[k].kpage][i]
  }

  lemma ReadsView(s: Vm, k: Key, i: nat, v: Bytes)
    requires Inv(s) && Present(s, k) && i < |v| <= PGSIZE && Shows(s, k, v)
    ensures ByteAt(s, k, i) == v[i]
  {
    hide PoolOk, TableOk, OwnersOk, NonePinned, DirectoryOk, SwapSized, SwapOk, BackedOk, ProtectedOk, Synced;
    PresentFrame(s, k);
    assert View(s, k)[..|v|][i] == v[i];
  }

  /** Marking the page accessed is invisible. */
  lemma MarkAgrees(s: Vm, flat: Flat, k: Key)
    requires Inv(s) && Agrees(s, flat) && Present(s, k)
    ensures Inv(Mark(s, k, false)) && Agrees(Mark(s, k, false), flat)
  {
    hide PoolOk, TableOk, OwnersOk, NonePinned, DirectoryOk, SwapSized, SwapOk, BackedOk, ProtectedOk, View, Synced,
      Kept;
    MarkKeepsInv(s, k, false);
    forall j | j in flat ensures Shows(Mark(s, k, false), j, flat[j]) {
      MarkKept(s, k, j);
      KeptShows(s, Mark(s, k, false), j, flat[j]);
    }
  }

  /** A store in flat memory; bytes of a mapped page past its file are not recorded. */
  function FlatStore(flat: Flat, k: Key, i: nat, b: Byte): Flat {
    if k in flat && i < |flat[k]| then flat[k := flat[k][i := b]] else flat
  }

  lemma StoreAgrees(s: Vm, flat: Flat, k: Key, i: nat, b: Byte)
    requires Inv(s) && Agrees(s, flat) && Present(s, k) && i < PGSIZE
    ensures Inv(Store(s, k, i, b)) && Agrees(Store(s, k, i, b), FlatStore(flat, k, i, b))
  {
    hide PoolOk, TableOk, OwnersOk, NonePinned, DirectoryOk, SwapSized, SwapOk, BackedOk, ProtectedOk, View, Synced,
      Kept, Present;
    StoredView(s, k, i, b);
    var s', flat' := Store(s, k, i, b), FlatStore(flat, k, i, b);
    forall j | j in flat' ensures Shows(s', j, flat'[j]) {
      if j == k {
        EntryIsOk(s, k);
        StoredShows(View(s, k), flat[k], i, b);
      } else {
        StoreOthers(s, k, i, b, j);
        KeptShows(s, s', j, flat[j]);
      }
    }
  }

  lemma StoredShows(v: Bytes, w: Bytes, i: nat, b: Byte)
    requires i < |v| && |w| <= |v| && v[..|w|] == w
    ensures v[i := b][..|w|] == if i < |w| then w[i := b] else w
  {
  }
}
