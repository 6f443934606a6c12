/** What the clock evicts. */
module PagingClock {
  import opened Basics
  import opened Paging
  import opened PagingInvariant
  import opened PagingSteps

  /** evict_frame starts at index h of the frame table: at the hand, or at the front. */
  predicate HandAt(s: Vm, h: nat) {
    h < |s.table| && if s.hand.On? then s.table[h] == s.hand.kpage else h == 0
  }

  /** The page in the frame d places further round the table. */
  function PageAt(s: Vm, h: nat, d: nat): Key
    requires Inv(s) && HandAt(s, h)
  {
    assert s.table[(h + d) % |s.table|] in s.table;
    s.frames[s.table[(h + d) % |s.table|]].key
  }

  lemma FirstIs(b: seq<bool>, v: bool, i: nat)
    requires i <= |b| && (forall j | 0 <= j < i :: b[j] != v) && (i < |b| ==> b[i] == v)
    ensures First(b, v) == i
  {
  }

  lemma HandIsStart(s: Vm, h: nat)
    requires Inv(s) && HandAt(s, h)
    ensures ClockReady(s) && Start(s) == h
  {
    hide PoolOk, OwnersOk, NonePinned, DirectoryOk, SwapSized, SwapOk, BackedOk, ProtectedOk;
    assert s.table[Start(s)] == s.table[h];
  }

  lemma ColdIs(s: Vm, h: nat, d: nat)
    requires Inv(s) && HandAt(s, h) && ClockReady(s) && Start(s) == h && d < |s.table|
    ensures Around(s, d) in s.frames && s.frames[Around(s, d)].key == PageAt(s, h, d)
    ensures Unpinned(s)[d] && Cold(s)[d] == !Accessed(s, PageAt(s, h, d))
  {
    hide PoolOk, OwnersOk, DirectoryOk, SwapSized, SwapOk, BackedOk, ProtectedOk, Accessed;
  }

  /** The pages in the first d frames from the hand. */
  function Before(s: Vm, h: nat, d: nat): set<Key>
    requires Inv(s) && HandAt(s, h)
  {
    set i | 0 <= i < d :: PageAt(s, h, i)
  }

  lemma PassedIs(s: Vm, h: nat, c: nat)
    requires Inv(s) && HandAt(s, h) && ClockReady(s) && First(Cold(s), true) == c <= |s.table|
    requires forall d | 0 <= d < |s.table| ::
               Unpinned(s)[d] && Around(s, d) in s.frames && s.frames[Around(s, d)].key == PageAt(s, h, d)
    ensures SecondChances(s) == Before(s, h, c)
  {
    hide Inv, HandAt, First, Cold, Unpinned, Around, PageAt;
  }

  /** The victim is the first page from the hand that has not been accessed, and the pages before
      it lose their accessed bits. If all have been accessed, all lose them and the page at the
      hand is the victim. */
  lemma VictimIs(s: Vm, h: nat, d: nat)
    requires Inv(s) && !HasFreePage(s) && HandAt(s, h) && d <= |s.table|
    requires forall i | 0 <= i < d :: Accessed(s, PageAt(s, h, i))
    requires d < |s.table| ==> !Accessed(s, PageAt(s, h, d))
    ensures ClockReady(s) && SecondChances(s) == Before(s, h, d)
    ensures VictimKey(s) == PageAt(s, h, if d < |s.table| then d else 0)
  {
    hide Inv, HandAt, First, Cold, Unpinned, Around, PageAt, Accessed, SecondChances;
    HandIsStart(s, h);
    forall i | 0 <= i < |s.table| ensures
      Around(s, i) in s.frames && s.frames[Around(s, i)].key == PageAt(s, h, i)
      && Unpinned(s)[i] && Cold(s)[i] == !Accessed(s, PageAt(s, h, i))
    {
      ColdIs(s, h, i);
    }
    FirstIs(Cold(s), true, d);
    FirstIs(Unpinned(s), true, 0);
    PassedIs(s, h, d);
  }

  /** Where the hand rests after the frame at index i has left the table. */
  predicate HandMoved(t: seq<nat>, i: nat, s': Vm)
    requires i < |t|
  {
    s'.table == t[..i] + t[i + 1..] && s'.hand == if i + 1 < |t| then On(t[i + 1]) else AtTail
  }

  lemma IndexIs(t: seq<nat>, i: nat)
    requires NoDuplicates(t) && i < |t|
    ensures IndexOf(t, t[i]) == i
  {
    assert t[IndexOf(t, t[i])] == t[i];
  }

  lemma DropMoves(s: Vm, k: Key, i: nat)
    requires Sound(s) && k in s.spt && s.spt[k].status.Memory?
    requires NoDuplicates(s.table) && i < |s.table| && s.table[i] == s.spt[k].status.kpage && s.hand == On(s.table[i])
    ensures HandMoved(s.table, i, Drop(s, k))
    ensures forall k' | k' != k :: Accessed(Drop(s, k), k') == Accessed(s, k')
  {
    hide PoolOk, OwnersOk, DirectoryOk;
    IndexIs(s.table, i);
  }

  lemma FlushMoves(s: Vm, k: Key)
    requires Sound(s) && k in s.spt && s.spt[k].mmap && s.spt[k].status.Memory? && EntryOk(s.spt[k], s.files, s.inodes)
    ensures var s' := Flush(s, k); s'.table == s.table && s'.hand == s.hand && s'.pd == s.pd && s'.spt == s.spt
  {
    hide Sound;
  }

  lemma SameBits(s: Vm, s': Vm)
    requires s'.pd == s.pd
    ensures forall k :: Accessed(s', k) == Accessed(s, k)
  {
  }

  /** Page k has left frame i of the table for its file or for swap. */
  predicate Gone(s: Vm, s': Vm, k: Key, i: nat)
    requires i < |s.table|
  {
    && HandMoved(s.table, i, s')
    && k in s'.spt && !s'.spt[k].status.Memory?
  }

  /** The other pages keep their entries and their accessed bits. */
  ghost predicate OthersKept(s: Vm, s': Vm, k: Key) {
    && (forall k' | k' != k && k' in s.spt :: k' in s'.spt && s'.spt[k'] == s.spt[k'])
    && (forall k' | k' != k :: Accessed(s', k') == Accessed(s, k'))
  }

  lemma LazyMoves(s: Vm, k: Key, i: nat)
    requires Inv(s) && k in s.spt && s.spt[k].mmap && s.spt[k].status.Memory?
    requires i < |s.table| && s.table[i] == s.spt[k].status.kpage && s.hand == On(s.table[i])
    ensures Gone(s, ToLazy(s, k), k, i) && OthersKept(s, ToLazy(s, k), k)
  {
    hide PoolOk, TableOk, OwnersOk, NonePinned, DirectoryOk, SwapSized, SwapOk, BackedOk, ProtectedOk, Drop, Flush,
      Accessed, EntryOk;
    TableIsSound(s);
    EntryIsOk(s, k);
    FlushMoves(s, k);
    FlushKeepsInv(s, k);
    TableIsSound(Flush(s, k));
    DropMoves(Flush(s, k), k, i);
    SameBits(s, Flush(s, k));
    SameBits(Drop(Flush(s, k), k), ToLazy(s, k));
  }

  lemma SwapMoves(s: Vm, k: Key, i: nat)
    requires Inv(s) && k in s.spt && s.spt[k].status.Memory? && First(s.swapMap, false) < |s.swapMap|
    requires i < |s.table| && s.table[i] == s.spt[k].status.kpage && s.hand == On(s.table[i])
    ensures Gone(s, ToSwap(s, k), k, i) && OthersKept(s, ToSwap(s, k), k)
  {
    hide PoolOk, TableOk, OwnersOk, NonePinned, DirectoryOk, SwapSized, SwapOk, BackedOk, ProtectedOk, Drop,
      Accessed, First;
    TableIsSound(s);
    SwapOutSound(s, k);
    DropMoves(SwapOut(s, k), k, i);
    SameBits(s, SwapOut(s, k));
    SameBits(Drop(SwapOut(s, k), k), ToSwap(s, k));
  }

  lemma TableIsSound(s: Vm)
    requires Inv(s)
    ensures Sound(s) && NoDuplicates(s.table)
  {
  }

  lemma VictimPlace(s: Vm, h: nat, n: nat)
    requires Inv(s) && !HasFreePage(s) && HandAt(s, h) && VictimKey(s) == PageAt(s, h, n)
    ensures (h + n) % |s.table| < |s.table| && s.table[(h + n) % |s.table|] == Victim(s)
  {
    hide PoolOk, NonePinned, DirectoryOk, SwapSized, SwapOk, BackedOk, ProtectedOk, First, Victim;
    assert s.table[(h + n) % |s.table|] in s.table;
  }

  lemma ScannedBits(s: Vm)
    requires Inv(s) && !HasFreePage(s) && ClockReady(s)
    ensures var s' := Scanned(s);
            && s'.(pd := s.pd, hand := s.hand) == s && s'.hand == On(Victim(s))
            && forall k :: Accessed(s', k) == (Accessed(s, k) && k !in SecondChances(s))
  {
    hide Inv, SecondChances;
  }

  /** Eviction takes the victim's frame out of the table, leaves the hand on the next node, and
      leaves an accessed bit set exactly on the accessed pages it did not pass. */
  lemma EvictIs(s: Vm, h: nat, d: nat)
    requires Inv(s) && !HasFreePage(s) && HandAt(s, h) && d <= |s.table| && Evict(s).Resumed?
    requires forall i | 0 <= i < d :: Accessed(s, PageAt(s, h, i))
    requires d < |s.table| ==> !Accessed(s, PageAt(s, h, d))
    ensures var s', n := Evict(s).vm, if d < |s.table| then d else 0;
            && HandMoved(s.table, (h + n) % |s.table|, s')
            && PageAt(s, h, n) in s'.spt && !s'.spt[PageAt(s, h, n)].status.Memory?
            && (forall k | k in s.spt && k != PageAt(s, h, n) ::
                 && k in s'.spt && s'.spt[k] == s.spt[k]
                 && Accessed(s', k) == (Accessed(s, k) && k !in Before(s, h, d)))
  {
    hide Inv, HandAt, First, PageAt, Accessed, SecondChances, HandMoved, Before, ToLazy, ToSwap, VictimKey, Victim,
      Scanned;
    var n, k := if d < |s.table| then d else 0, VictimKey(s);
    VictimIs(s, h, d);
    ScannedKeepsInv(s);
    var s1 := Scanned(s);
    VictimPlace(s, h, n);
    ScannedBits(s);
    if s.spt[k].mmap {
      LazyMoves(s1, k, (h + n) % |s.table|);
    } else {
      SwapMoves(s1, k, (h + n) % |s.table|);
    }
  }
}
