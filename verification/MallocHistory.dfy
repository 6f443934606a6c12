/** The heap as its callers see it: which addresses are live, and for how many bytes. */
module MallocHistory {
  import opened Basics
  import opened Bitmap
  import opened M = Malloc

  /** malloc has returned the address for n bytes, and it has not been freed. */
  ghost predicate LiveAt(h: Heap, x: nat, n: nat) {
    exists b :: SizedAt(h, b, x, n)
  }

  ghost predicate SizedAt(h: Heap, b: Block, x: nat, n: nat) {
    BlockAt(h, b, x) && h.live[b] == n
  }

  predicate SameKind(a: Arena, a': Arena) {
    if a.Small? then a'.Small? && a'.desc == a.desc else a' == a
  }

  /** The arenas of h that are left in h' are as they were, but for their counts. */
  ghost predicate SameArenas(h: Heap, h': Heap) {
    forall p | p in h.arenas && p in h'.arenas :: SameKind(h.arenas[p], h'.arenas[p])
  }

  lemma LiveBlock(h: Heap, b: Block)
    requires Inv(h) && b in h.live
    ensures b.page in h.arenas && var a := h.arenas[b.page];
            && (a.Small? ==> a.desc < DESC_CNT && b.idx < PerArena(a.desc)) && (a.Big? ==> b.idx == 0)
            && BlockAt(h, b, Address(a, b))
  {
    hide PagesOk, ListsOk, ArenasOk, BusyOk, Address;
  }

  lemma SameAddress(a: Arena, a': Arena, b: Block)
    requires SameKind(a, a') && (a.Small? ==> a.desc < DESC_CNT)
    ensures Address(a', b) == Address(a, b)
  {
  }

  /** An address leads to one block. */
  lemma OneBlock(h: Heap, b: Block, c: Block, x: nat)
    requires Inv(h) && BlockAt(h, b, x) && BlockAt(h, c, x)
    ensures b == c
  {
    hide Inv, Address, PageOf, IndexOf;
    LiveBlock(h, b);
    LiveBlock(h, c);
    AddressRoundTrip(h.arenas[b.page], b);
    AddressRoundTrip(h.arenas[c.page], c);
  }

  /** A block that is live before and after is at the same address. */
  lemma BlockStays(h: Heap, h': Heap, b: Block, x: nat)
    requires Inv(h) && Inv(h') && SameArenas(h, h') && b in h.live && b in h'.live
    ensures BlockAt(h, b, x) <==> BlockAt(h', b, x)
  {
    hide Inv, Address;
    LiveBlock(h, b);
    LiveBlock(h', b);
    SameAddress(h.arenas[b.page], h'.arenas[b.page], b);
  }

  // ---- malloc ------------------------------------------------------------------------------------------

  lemma MallocArenas(h: Heap, size: nat)
    requires Inv(h)
    ensures SameArenas(h, M.Malloc(h, size).0)
  {
    hide PagesOk, ListsOk, LiveOk, ArenasOk, SetRange, Scan, PageCnt, Pages, Blocks, Give, BusyOk;
    var d := DescFor(size);
    ListsShape(h.arenas, h.free);
    if size > 0 && d == DESC_CNT {
      if PallocGet(h.used, PageCnt(size)).At? {
        UnusedPage(h.used, h.arenas, h.owner, h.foreign, PallocGet(h.used, PageCnt(size)).idx);
      }
    } else if size > 0 && h.free[d] == [] {
      if PallocGet(h.used, 1).At? {
        var p := PallocGet(h.used, 1).idx;
        NewArenaSound(h, d, p);
        NewArenaNonempty(h, d, p);
        PopSound(NewArena(h, d, p), d, size);
      }
    } else if size > 0 {
      PopSound(h, d, size);
    }
  }

  /** malloc makes one address live that was not, for the bytes asked for, and leaves the others
      as they are; or it returns null and changes nothing. */
  lemma MallocLaw(h: Heap, size: nat)
    requires Inv(h) && size < WORD && (Reasonable(size) || false !in h.used)
    ensures var (h', r) := M.Malloc(h, size);
            && Inv(h') && (r == Null ==> h' == h)
            && (r.To? ==> !IsLive(h, r.address))
            && forall x: nat, n :: LiveAt(h', x, n) <==> LiveAt(h, x, n) || (r == To(x) && n == size)
  {
    hide Inv, M.Malloc, BlockAt, SameArenas, Reasonable;
    InvSound(h);
    MallocKeeps(h, size);
    MallocArenas(h, size);
    var b := MallocReturns(h, size);
    var (h', r) := M.Malloc(h, size);
    if r.To? {
      assert !IsLive(h, r.address) by {
        if c :| BlockAt(h, c, r.address) {
          BlockIsLive(h, c, r.address);
          BlockStays(h, h', c, r.address);
          OneBlock(h', b, c, r.address);
        }
      }
      forall x: nat, n ensures LiveAt(h', x, n) <==> LiveAt(h, x, n) || (r == To(x) && n == size) {
        if LiveAt(h', x, n) {
          var c :| SizedAt(h', c, x, n);
          BlockIsLive(h', c, x);
          if c == b {
            SameBlock(h', b, x, r.address);
          } else {
            BlockStays(h, h', c, x);
            assert SizedAt(h, c, x, n);
          }
        }
        if r == To(x) && n == size { assert SizedAt(h', b, x, n); }
        if LiveAt(h, x, n) {
          var c :| SizedAt(h, c, x, n);
          BlockIsLive(h, c, x);
          BlockStays(h, h', c, x);
          assert SizedAt(h', c, x, n);
        }
      }
    }
  }

  lemma InvSound(h: Heap)
    requires Inv(h)
    ensures Sound(h)
  {
  }

  lemma BlockIsLive(h: Heap, b: Block, x: nat)
    requires BlockAt(h, b, x)
    ensures b in h.live
  {
    hide Address;
  }

  lemma SameBlock(h: Heap, b: Block, x: nat, y: nat)
    requires BlockAt(h, b, x) && BlockAt(h, b, y)
    ensures x == y
  {
    hide Address;
  }

  /** malloc returns null for nothing, and otherwise only if there is no memory: no free block of
      the right kind and no page to make some, or no row of pages that is long enough. */
  lemma MallocFails(h: Heap, size: nat)
    requires Inv(h)
    ensures M.Malloc(h, size).1 == Null <==>
            || size == 0
            || (size <= 1024 && h.free[DescFor(size)] == [] && false !in h.used)
            || (size > 1024 && (PageCnt(size) == 0 || forall p: nat :: !AllAre(h.used, p, PageCnt(size), false)))
  {
    hide PagesOk, LiveOk, ArenasOk, BusyOk, ListsOk, SetRange, PageCnt, Pages, Blocks, Give, Scan, FirstGroup, AllAre;
    ListsShape(h.arenas, h.free);
    OneFreePage(h.used);
    if size > 1024 { RowOfPages(h.used, PageCnt(size)); }
  }

  lemma RowOfPages(used: seq<bool>, n: nat)
    ensures PallocGet(used, n) == Found.Error <==> n == 0 || forall p: nat :: !AllAre(used, p, n, false)
  {
    if n > 0 && PallocGet(used, n).Error? {
      forall p: nat ensures !AllAre(used, p, n, false) {
        if p + n <= |used| { assert FirstGroup(used, 0, n, false, Found.Error); }
      }
    }
  }

  // ---- free --------------------------------------------------------------------------------------------

  lemma FreeArenas(h: Heap, address: nat)
    requires Inv(h) && IsLive(h, address)
    ensures SameArenas(h, Free(h, address))
    ensures PageOf(address) in h.arenas && var a := h.arenas[PageOf(address)];
            (a.Small? ==> a.desc < DESC_CNT) && BlockAt(h, Block(PageOf(address), IndexOf(a, address)), address)
            && Free(h, address).live == h.live - {Block(PageOf(address), IndexOf(a, address))}
  {
    hide PagesOk, ListsOk, LiveOk, ArenasOk, BusyOk, SetRange, Pages, WithoutPage, PageOf, IsLive, Address;
    LiveDecodes(h, address);
    var p := PageOf(address);
    var a := h.arenas[p];
    if a.Small? { PushSound(h, Block(p, IndexOf(a, address))); }
  }

  /** free takes away exactly the address it is given. */
  lemma FreeLaw(h: Heap, address: nat)
    requires Inv(h) && IsLive(h, address)
    ensures Inv(Free(h, address))
    ensures forall x: nat, n :: LiveAt(Free(h, address), x, n) <==> LiveAt(h, x, n) && x != address
  {
    hide Inv, Free, BlockAt, SameArenas, PageOf, IndexOf, IsLive;
    FreeKeeps(h, address);
    FreeArenas(h, address);
    var h', b := Free(h, address), Block(PageOf(address), IndexOf(h.arenas[PageOf(address)], address));
    forall x: nat, n ensures LiveAt(h', x, n) <==> LiveAt(h, x, n) && x != address {
      if LiveAt(h', x, n) {
        var c :| SizedAt(h', c, x, n);
        BlockIsLive(h', c, x);
        BlockStays(h, h', c, x);
        assert SizedAt(h, c, x, n);
        if x == address { OneBlock(h, b, c, x); }
      }
      if LiveAt(h, x, n) && x != address {
        var c :| SizedAt(h, c, x, n);
        BlockIsLive(h, c, x);
        if c == b { SameBlock(h, b, x, address); }
        BlockStays(h, h', c, x);
        assert SizedAt(h', c, x, n);
      }
    }
  }

  // ---- pages for others --------------------------------------------------------------------------------

  /** The first row of n free pages. */
  ghost predicate FirstRow(used: seq<bool>, n: nat, p: nat) {
    AllAre(used, p, n, false) && forall q: nat | q < p :: !AllAre(used, q, n, false)
  }

  /** palloc hands out the first row of free pages that is long enough, if there is one; the heap
      does not notice. */
  lemma TakeLaw(h: Heap, n: nat)
    requires Inv(h)
    ensures var h' := Take(h, n);
            && h'.live == h.live && h'.arenas == h.arenas && h'.free == h.free
            && if n == 0 || (forall p: nat :: !AllAre(h.used, p, n, false)) then h' == h
               else exists p: nat ::
                      && FirstRow(h.used, n, p) && |h'.used| == |h.used|
                      && (forall x: nat | x < |h.used| :: h'.used[x] <==> h.used[x] || p <= x < p + n)
                      && (forall x: nat :: x in h'.foreign <==> x in h.foreign || p <= x < p + n)
  {
    hide Inv, Scan, Pages, AllAre;
    RowOfPages(h.used, n);
    if PallocGet(h.used, n).At? {
      var p := PallocGet(h.used, n).idx;
      assert FirstGroup(h.used, 0, n, false, Found.At(p));
      assert FirstRow(h.used, n, p);
    }
  }

  lemma GiveBackLaw(h: Heap, p: nat, n: nat)
    ensures var h' := GiveBack(h, p, n);
            && h'.live == h.live && h'.arenas == h.arenas && h'.free == h.free && |h'.used| == |h.used|
            && (forall x: nat | x < |h.used| :: h'.used[x] <==> h.used[x] && !(p <= x < p + n))
            && (forall x: nat :: x in h'.foreign <==> x in h.foreign && !(p <= x < p + n))
  {
    hide Pages;
  }

  // ---- runs ------------------------------------------------------------------------------------------------

  lemma SameLive(h: Heap, h': Heap, x: nat, n: nat)
    requires h'.live == h.live && h'.arenas == h.arenas
    ensures LiveAt(h, x, n) <==> LiveAt(h', x, n)
  {
    hide Address;
    if b :| SizedAt(h, b, x, n) { assert SizedAt(h', b, x, n); }
    if b :| SizedAt(h', b, x, n) { assert SizedAt(h, b, x, n); }
  }

  /** What a call returns to its caller. */
  function Reply(h: Heap, c: Call): Pointer
    requires Inv(h) && Enabled(h, c)
  {
    if c.DoMalloc? then InvSound(h); M.Malloc(h, c.size).1 else Null
  }

  /** What a call with this reply does to address x, live for n bytes or not. */
  predicate Touched(c: Call, reply: Pointer, x: nat, n: nat, was: bool) {
    match c
    case DoMalloc(size) => was || (reply == To(x) && n == size)
    case DoFree(address) => was && x != address
    case _ => was
  }

  /** malloc makes the address it returns live, free takes away the one it is given, and nothing
      else changes which addresses are live. */
  lemma LiveAfter(h: Heap, c: Call, x: nat, n: nat)
    requires Inv(h) && Enabled(h, c)
    ensures LiveAt(Next(h, c), x, n) <==> Touched(c, Reply(h, c), x, n, LiveAt(h, x, n))
  {
    hide Inv, M.Malloc, Free, Take, GiveBack, IsLive, LiveAt, Reasonable, AllAre;
    match c {
      case DoMalloc(size) => MallocLaw(h, size);
      case DoFree(address) => FreeLaw(h, address);
      case DoTake(k) => TakeLaw(h, k); SameLive(h, Take(h, k), x, n);
      case DoGiveBack(p, k) => GiveBackLaw(h, p, k); SameLive(h, GiveBack(h, p, k), x, n);
    }
  }

  /** Pages pass to other users of palloc in the first row that is long enough, and come back when
      they are freed; malloc and free leave them alone. */
  lemma ForeignAfter(h: Heap, c: Call, x: nat)
    requires Inv(h) && Enabled(h, c)
    ensures x in Next(h, c).foreign <==>
            match c
            case DoTake(n) => x in h.foreign || exists p: nat :: FirstRow(h.used, n, p) && p <= x < p + n
            case DoGiveBack(p, n) => x in h.foreign && !(p <= x < p + n)
            case _ => x in h.foreign
  {
    hide Inv, Reasonable, IsLive, AllAre, M.Malloc, Free, Take, GiveBack;
    match c {
      case DoMalloc(size) => InvSound(h); SameForeign(h, size);
      case DoFree(address) => StillForeign(h, address);
      case DoTake(n) => TakenPages(h, n, x);
      case DoGiveBack(p, n) => GiveBackLaw(h, p, n);
    }
  }

  lemma TakenPages(h: Heap, n: nat, x: nat)
    requires Inv(h)
    ensures x in Take(h, n).foreign <==>
            x in h.foreign || exists p: nat :: FirstRow(h.used, n, p) && p <= x < p + n
  {
    hide Inv, Take, AllAre;
    TakeLaw(h, n);
    if n > 0 {
      forall p: nat, q: nat | FirstRow(h.used, n, p) && FirstRow(h.used, n, q) ensures p == q {}
    }
  }

  lemma SameForeign(h: Heap, size: nat)
    requires Sound(h)
    ensures M.Malloc(h, size).0.foreign == h.foreign
  {
    hide PagesOk, ArenasOk, LiveOk, DescFor, PageCnt, PallocGet;
    var d := DescFor(size);
    if size > 0 && d < DESC_CNT && h.free[d] == [] && PallocGet(h.used, 1).At? {
      NewArenaSound(h, d, PallocGet(h.used, 1).idx);
      NewArenaNonempty(h, d, PallocGet(h.used, 1).idx);
    }
  }

  lemma StillForeign(h: Heap, address: nat)
    requires Inv(h) && IsLive(h, address)
    ensures Free(h, address).foreign == h.foreign
  {
    hide Inv, IsLive, PageOf, IndexOf, PerArena;
    LiveDecodes(h, address);
  }

  /** The replies to the calls of a run. */
  function Replies(h: Heap, calls: seq<Call>): (r: seq<Pointer>)
    requires Inv(h) && Possible(h, calls)
    ensures |r| == |calls|
    decreases |calls|
  {
    if calls == [] then [] else
    NextKeeps(h, calls[0]);
    [Reply(h, calls[0])] + Replies(Next(h, calls[0]), calls[1..])
  }

  /** Is x live for n bytes after these calls and replies? */
  function LiveBy(calls: seq<Call>, replies: seq<Pointer>, x: nat, n: nat, was: bool): bool
    requires |replies| == |calls|
  {
    if calls == [] then was
    else LiveBy(calls[1..], replies[1..], x, n, Touched(calls[0], replies[0], x, n, was))
  }

  /** Over every run: which addresses are live, and for how many bytes, is what the calls and
      the pointers they returned say. */
  lemma {:induction false} LiveIs(h: Heap, calls: seq<Call>, x: nat, n: nat)
    requires Inv(h) && Possible(h, calls)
    ensures LiveAt(After(h, calls), x, n) <==> LiveBy(calls, Replies(h, calls), x, n, LiveAt(h, x, n))
    decreases |calls|
  {
    hide Inv, Next, Enabled, LiveAt, Touched, Reply;
    if calls != [] {
      NextKeeps(h, calls[0]);
      LiveAfter(h, calls[0], x, n);
      LiveIs(Next(h, calls[0]), calls[1..], x, n);
      assert Replies(h, calls)[1..] == Replies(Next(h, calls[0]), calls[1..]);
    }
  }

  /** An address stays live, for the bytes asked for, until it is freed. */
  lemma {:induction false} LiveLasts(h: Heap, calls: seq<Call>, x: nat, n: nat)
    requires Inv(h) && Possible(h, calls) && LiveAt(h, x, n) && DoFree(x) !in calls
    ensures LiveAt(After(h, calls), x, n)
    decreases |calls|
  {
    hide Inv, Next, Enabled, LiveAt;
    if calls != [] {
      NextKeeps(h, calls[0]);
      LiveAfter(h, calls[0], x, n);
      LiveLasts(Next(h, calls[0]), calls[1..], x, n);
    }
  }
}
