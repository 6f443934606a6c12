/** malloc and free (src/threads/malloc.c) over the kernel page pool (src/threads/palloc.c).
    Addresses count from the base of the pool. */
module Malloc {
  import opened Basics
  import opened Bitmap
  import Arithmetic

  const PGSIZE: nat := 4096
  const WORD: nat := 0x1_0000_0000
  /** sizeof (struct arena) */
  const HEADER: nat := 12
  /** Descriptors for 16, 32, ... 1024 bytes. */
  const DESC_CNT: nat := 7

  function BlockSize(d: nat): (n: nat)
    requires d < DESC_CNT
    ensures 16 <= n <= 1024
  {
    [16, 32, 64, 128, 256, 512, 1024][d]
  }

  function PerArena(d: nat): (n: nat)
    requires d < DESC_CNT
    ensures 3 <= n <= 255 && HEADER + n * BlockSize(d) <= PGSIZE
  {
    [255, 127, 63, 31, 15, 7, 3][d]
  }

  /** blocks_per_arena is as many blocks as fit beside the header, and malloc_init stops
      below half a page. */
  lemma Descriptors(d: nat)
    requires d < DESC_CNT
    ensures PerArena(d) == (PGSIZE - HEADER) / BlockSize(d)
    ensures BlockSize(d) < PGSIZE / 2 && (d + 1 < DESC_CNT ==> BlockSize(d + 1) == 2 * BlockSize(d))
    ensures d + 1 == DESC_CNT ==> 2 * BlockSize(d) >= PGSIZE / 2
  {
  }

  /** A block: the page of its arena, and its index there. */
  datatype Block = Block(page: nat, idx: nat)

  /** An arena header: a page of blocks with the number of them that are free, or the first
      of the pages of a big block. */
  datatype Arena = Small(desc: nat, freeCnt: nat) | Big(pages: nat)

  /** The page pool and the descriptors' free lists.  foreign are pages that others have from
      palloc, live the blocks handed out with the sizes asked for, and owner says for the
      proofs which arena a page belongs to. */
  datatype Heap = Heap(
    used: seq<bool>,
    arenas: map<nat, Arena>,
    free: seq<seq<Block>>,
    foreign: set<nat>,
    live: map<Block, nat>,
    owner: map<nat, nat>)

  // ---- addresses ------------------------------------------------------------------------------

  /** arena_to_block, and for a big block the address after the header. */
  function Address(a: Arena, b: Block): nat
    requires a.Small? ==> a.desc < DESC_CNT
  {
    match a
    case Small(d, _) => PGSIZE * b.page + HEADER + b.idx * BlockSize(d)
    case Big(_) => PGSIZE * b.page + HEADER
  }

  /** The page number that block_to_arena rounds down to, and the index of the block in it. */
  function PageOf(address: nat): nat {
    address / PGSIZE
  }

  function IndexOf(a: Arena, address: nat): nat
    requires a.Small? ==> a.desc < DESC_CNT
  {
    match a
    case Small(d, _) => if address % PGSIZE < HEADER then 0 else (address % PGSIZE - HEADER) / BlockSize(d)
    case Big(_) => 0
  }

  lemma MulMono(a: nat, b: nat, c: nat)
    requires a <= b
    ensures a * c <= b * c
  {
  }

  /** The end of a block is still in its page. */
  lemma BlockFits(d: nat, i: nat)
    requires d < DESC_CNT && i < PerArena(d)
    ensures HEADER + i * BlockSize(d) + BlockSize(d) <= PGSIZE
  {
    MulMono(i + 1, PerArena(d), BlockSize(d));
    assert (i + 1) * BlockSize(d) == i * BlockSize(d) + BlockSize(d);
  }

  lemma InPage(page: nat, ofs: nat)
    requires ofs < PGSIZE
    ensures (PGSIZE * page + ofs) / PGSIZE == page && (PGSIZE * page + ofs) % PGSIZE == ofs
  {
  }

  /** block_to_arena undoes arena_to_block, and its assertions hold. */
  lemma AddressRoundTrip(a: Arena, b: Block)
    requires if a.Small? then a.desc < DESC_CNT && b.idx < PerArena(a.desc) else b.idx == 0
    ensures PageOf(Address(a, b)) == b.page && IndexOf(a, Address(a, b)) == b.idx
    ensures a.Small? ==> Address(a, b) % PGSIZE >= HEADER && (Address(a, b) % PGSIZE - HEADER) % BlockSize(a.desc) == 0
    ensures a.Big? ==> Address(a, b) % PGSIZE == HEADER
  {
    if a.Small? {
      var n := BlockSize(a.desc);
      BlockFits(a.desc, b.idx);
      InPage(b.page, HEADER + b.idx * n);
      Arithmetic.DivUnique(b.idx * n, n, b.idx);
    } else {
      InPage(b.page, HEADER);
    }
  }

  // ---- sizes ----------------------------------------------------------------------------------

  /** The descriptor malloc picks: the first whose blocks are large enough. */
  function DescFor(size: nat): (d: nat)
    ensures d <= DESC_CNT
    ensures d < DESC_CNT ==> size <= BlockSize(d) && (d > 0 ==> BlockSize(d - 1) < size)
    ensures d == DESC_CNT <==> size > 1024
  {
    if size <= 16 then 0 else if size <= 32 then 1 else if size <= 64 then 2 else if size <= 128 then 3
    else if size <= 256 then 4 else if size <= 512 then 5 else if size <= 1024 then 6 else 7
  }

  /** Pages for a big block, in 32-bit arithmetic. */
  function PageCnt(size: nat): nat {
    ((size + HEADER + PGSIZE - 1) % WORD) / PGSIZE
  }

  /** The pages hold the block and its header exactly if the sum does not wrap around. */
  lemma PagesSuffice(size: nat)
    requires 1024 < size < WORD
    ensures size + HEADER <= PGSIZE * PageCnt(size) <==> size + HEADER + PGSIZE - 1 < WORD
  {
  }

  /** Rounding up wraps to no page at all, or, for the last eleven sizes, to a single one. */
  lemma WrappedPages(size: nat)
    requires size < WORD && size + HEADER + PGSIZE - 1 >= WORD
    ensures PageCnt(size) == if size + HEADER <= WORD then 0 else 1
  {
  }

  // ---- the invariant --------------------------------------------------------------------------

  predicate InArena(p: nat, a: Arena, x: nat) {
    match a
    case Small(_, _) => x == p
    case Big(n) => p <= x < p + n
  }

  /** Arenas own their pages, every owned page is in an arena ... */
  ghost predicate OwnsOk(arenas: map<nat, Arena>, owner: map<nat, nat>) {
    && (forall p | p in arenas :: if arenas[p].Small? then arenas[p].desc < DESC_CNT else arenas[p].pages > 0)
    && (forall p, x: nat | p in arenas && InArena(p, arenas[p], x) :: x in owner && owner[x] == p)
    && (forall x | x in owner :: owner[x] in arenas && InArena(owner[x], arenas[owner[x]], x))
  }

  /** ... and palloc's bitmap marks owned and foreign pages and no others. */
  ghost predicate MarkedOk(used: seq<bool>, owner: map<nat, nat>, foreign: set<nat>) {
    && (forall x: nat | x < |used| :: used[x] <==> x in owner || x in foreign)
    && (forall x | x in owner :: x !in foreign && x < |used|)
    && (forall x | x in foreign :: x < |used|)
  }

  ghost predicate PagesOk(used: seq<bool>, arenas: map<nat, Arena>, owner: map<nat, nat>, foreign: set<nat>) {
    OwnsOk(arenas, owner) && MarkedOk(used, owner, foreign)
  }

  /** Every free list holds blocks of its descriptor's arenas, each once. */
  ghost predicate ListOk(arenas: map<nat, Arena>, d: nat, list: seq<Block>)
    requires d < DESC_CNT
  {
    && NoDuplicates(list)
    && (forall b | b in list ::
       b.page in arenas && arenas[b.page].Small? && arenas[b.page].desc == d && b.idx < PerArena(d))
  }

  ghost predicate ListsOk(arenas: map<nat, Arena>, free: seq<seq<Block>>) {
    |free| == DESC_CNT && forall d | 0 <= d < DESC_CNT :: ListOk(arenas, d, free[d])
  }

  /** The free blocks of an arena. */
  ghost function FreeIn(list: seq<Block>, p: nat, n: nat): set<nat> {
    set i | 0 <= i < n && Block(p, i) in list
  }

  /** free_cnt is the number of the arena's blocks on the free list. */
  ghost predicate CountOk(a: Arena, p: nat, free: seq<seq<Block>>) {
    a.Small? ==> a.desc < |free| && a.desc < DESC_CNT && a.freeCnt == |FreeIn(free[a.desc], p, PerArena(a.desc))|
  }

  /** Each block of an arena is either free or handed out, and is large enough for what was asked. */
  ghost predicate BlocksOk(a: Arena, p: nat, free: seq<seq<Block>>, live: map<Block, nat>) {
    match a
    case Small(d, _) =>
      d < DESC_CNT && d < |free| &&
      forall i {:trigger Block(p, i)} | 0 <= i < PerArena(d) ::
        (Block(p, i) in free[d] <==> Block(p, i) !in live)
            && (Block(p, i) in live ==> live[Block(p, i)] <= BlockSize(d))
    case Big(n) => Block(p, 0) in live && live[Block(p, 0)] + HEADER <= PGSIZE * n
  }

  ghost predicate ArenasOk(arenas: map<nat, Arena>, free: seq<seq<Block>>, live: map<Block, nat>) {
    forall p | p in arenas :: CountOk(arenas[p], p, free) && BlocksOk(arenas[p], p, free, live)
  }

  /** Live blocks are in arenas. */
  ghost predicate LiveOk(arenas: map<nat, Arena>, live: map<Block, nat>) {
    forall b | b in live :: b.page in arenas && match arenas[b.page]
      case Small(d, _) => d < DESC_CNT && b.idx < PerArena(d)
      case Big(_) => b.idx == 0
  }

  /** Inv but for wholly free arenas. */
  ghost predicate Sound(h: Heap) {
    && PagesOk(h.used, h.arenas, h.owner, h.foreign) && ListsOk(h.arenas, h.free)
    && ArenasOk(h.arenas, h.free, h.live) && LiveOk(h.arenas, h.live)
  }

  /** No page is kept for a wholly free arena. */
  ghost predicate BusyOk(arenas: map<nat, Arena>) {
    forall p | p in arenas && arenas[p].Small? ::
        arenas[p].desc < DESC_CNT && arenas[p].freeCnt < PerArena(arenas[p].desc)
  }

  ghost predicate Inv(h: Heap) {
    Sound(h) && BusyOk(h.arenas)
  }

  // ---- operations -----------------------------------------------------------------------------

  function Blocks(p: nat, n: nat): (s: seq<Block>)
    ensures |s| == n && forall i | 0 <= i < n :: s[i] == Block(p, i)
  {
    seq(n, i requires 0 <= i < n => Block(p, i))
  }

  /** A new arena in page p, all of its blocks free. */
  function NewArena(h: Heap, d: nat, p: nat): Heap
    requires d < DESC_CNT && d < |h.free|
  {
    h.(used := SetRange(h.used, p, 1, true), arenas := h.arenas[p := Small(d, PerArena(d))],
       free := h.free[d := h.free[d] + Blocks(p, PerArena(d))], owner := h.owner[p := p])
  }

  /** The first block of the free list is handed out. */
  function Pop(h: Heap, d: nat, size: nat): Heap
    requires d < |h.free| && h.free[d] != [] && h.free[d][0].page in h.arenas && h.arenas[h.free[d][0].page].Small?
  {
    var b := h.free[d][0];
    var a := h.arenas[b.page];
    h.(free := h.free[d := h.free[d][1..]],
       arenas := h.arenas[b.page := a.(freeCnt := if a.freeCnt == 0 then 0 else a.freeCnt - 1)],
       live := h.live[b := size])
  }

  // ---- arenas ---------------------------------------------------------------------------------

  lemma NewPage(used: seq<bool>, arenas: map<nat, Arena>, owner: map<nat, nat>, foreign: set<nat>, p: nat, d: nat,
      c: nat)
    requires PagesOk(used, arenas, owner, foreign) && AllAre(used, p, 1, false) && d < DESC_CNT
    ensures p !in arenas && PagesOk(SetRange(used, p, 1, true), arenas[p := Small(d, c)], owner[p := p], foreign)
  {
    assert !used[p];
    if p in arenas {
      assert InArena(p, arenas[p], p);
    }
    var arenas', owner' := arenas[p := Small(d, c)], owner[p := p];
    forall q, x: nat | q in arenas' && InArena(q, arenas'[q], x) ensures x in owner' && owner'[x] == q {
      if q != p {
        assert InArena(q, arenas[q], x);
      }
    }
  }

  function UpTo(n: nat): (s: set<nat>)
    ensures |s| == n && forall i: nat :: i in s <==> i < n
  {
    if n == 0 then {} else UpTo(n - 1) + {n - 1}
  }

  /** The count is full exactly if all blocks are free. */
  lemma AllFree(list: seq<Block>, p: nat, n: nat)
    ensures |FreeIn(list, p, n)| <= n
    ensures |FreeIn(list, p, n)| == n <==> forall i | 0 <= i < n :: Block(p, i) in list
  {
    SubsetSize(FreeIn(list, p, n), UpTo(n));
    if forall i | 0 <= i < n :: Block(p, i) in list {
      assert FreeIn(list, p, n) == UpTo(n);
    }
    if |FreeIn(list, p, n)| == n {
      forall i | 0 <= i < n ensures Block(p, i) in list {
        assert i in UpTo(n);
        assert i in FreeIn(list, p, n);
      }
    }
  }

  lemma SameFree(list: seq<Block>, list': seq<Block>, p: nat, n: nat)
    requires forall i | 0 <= i < n :: Block(p, i) in list <==> Block(p, i) in list'
    ensures FreeIn(list', p, n) == FreeIn(list, p, n)
  {
  }

  // ---- a new arena ----------------------------------------------------------------------------

  lemma NewList(arenas: map<nat, Arena>, free: seq<seq<Block>>, d: nat, p: nat, c: nat)
    requires ListsOk(arenas, free) && d < DESC_CNT && p !in arenas
    ensures ListsOk(arenas[p := Small(d, c)], free[d := free[d] + Blocks(p, PerArena(d))])
  {
    hide Blocks;
    var arenas', list := arenas[p := Small(d, c)], free[d] + Blocks(p, PerArena(d));
    assert ListOk(arenas, d, free[d]);
    assert ListOk(arenas', d, list) by {
      forall b | b in list ensures b.page in arenas' && arenas'[b.page].Small? && arenas'[b.page].desc == d
          && b.idx < PerArena(d) {
        if b !in free[d] {
          assert b in Blocks(p, PerArena(d));
        }
      }
      assert forall i | 0 <= i < |free[d]| :: free[d][i] in free[d];
    }
    forall e | 0 <= e < DESC_CNT && e != d ensures ListOk(arenas', e, free[e]) {
      assert ListOk(arenas, e, free[e]);
    }
  }

  lemma NewBlocks(arenas: map<nat, Arena>, free: seq<seq<Block>>, live: map<Block, nat>, d: nat, p: nat)
    requires ListsOk(arenas, free) && ArenasOk(arenas, free, live) && LiveOk(arenas, live) && d < DESC_CNT
             && p !in arenas
    ensures var arenas', free' := arenas[p := Small(d, PerArena(d))], free[d := free[d] + Blocks(p, PerArena(d))];
            ArenasOk(arenas', free', live) && LiveOk(arenas', live)
  {
    var arenas', free' := arenas[p := Small(d, PerArena(d))], free[d := free[d] + Blocks(p, PerArena(d))];
    forall q | q in arenas' ensures CountOk(arenas'[q], q, free') && BlocksOk(arenas'[q], q, free', live) {
      if q == p {
        NewArenaBlocks(arenas, free, live, d, p);
      } else {
        OtherArena(arenas[q], q, free, free', live, live);
      }
    }
  }

  lemma NewArenaBlocks(arenas: map<nat, Arena>, free: seq<seq<Block>>, live: map<Block, nat>, d: nat, p: nat)
    requires ListsOk(arenas, free) && LiveOk(arenas, live) && d < DESC_CNT && p !in arenas
    ensures var free' := free[d := free[d] + Blocks(p, PerArena(d))];
            CountOk(Small(d, PerArena(d)), p, free') && BlocksOk(Small(d, PerArena(d)), p, free', live)
  {
    hide Blocks;
    var n := PerArena(d);
    var new_ := Blocks(p, n);
    forall i | 0 <= i < n ensures Block(p, i) in free[d] + new_ {
      assert new_[i] == Block(p, i);
    }
    AllFree(free[d] + new_, p, n);
  }

  /** An arena whose blocks did not change hands. */
  lemma OtherArena(a: Arena, q: nat, free: seq<seq<Block>>, free': seq<seq<Block>>, live: map<Block, nat>,
      live': map<Block, nat>)
    requires CountOk(a, q, free) && BlocksOk(a, q, free, live) && |free'| == |free|
    requires a.Small? ==> forall i {:trigger Block(q, i)} | 0 <= i < PerArena(a.desc) ::
                            (Block(q, i) in free'[a.desc] <==> Block(q, i) in free[a.desc])
    requires forall i {:trigger Block(q, i)} :: Block(q, i) in live' <==> Block(q, i) in live
    requires forall i {:trigger Block(q, i)} | Block(q, i) in live :: live'[Block(q, i)] == live[Block(q, i)]
    ensures CountOk(a, q, free') && BlocksOk(a, q, free', live')
  {
    if a.Small? {
      SameFree(free[a.desc], free'[a.desc], q, PerArena(a.desc));
    }
  }

  lemma NewArenaSound(h: Heap, d: nat, p: nat)
    requires Sound(h) && d < DESC_CNT && AllAre(h.used, p, 1, false)
    ensures Sound(NewArena(h, d, p)) && p !in h.arenas
  {
    hide PagesOk, ListsOk, ArenasOk, LiveOk, SetRange, Blocks;
    NewPage(h.used, h.arenas, h.owner, h.foreign, p, d, PerArena(d));
    NewList(h.arenas, h.free, d, p, PerArena(d));
    NewBlocks(h.arenas, h.free, h.live, d, p);
    ListsShape(h.arenas, h.free);
  }

  lemma ListsShape(arenas: map<nat, Arena>, free: seq<seq<Block>>)
    requires ListsOk(arenas, free)
    ensures |free| == DESC_CNT
  {
  }

  // ---- handing out a block ------------------------------------------------------------------------

  lemma Front(s: seq<Block>)
    requires NoDuplicates(s) && s != []
    ensures s[0] in s && s[0] !in s[1..] && NoDuplicates(s[1..])
    ensures forall b :: b in s[1..] <==> b in s && b != s[0]
  {
    assert forall b | b in s :: b == s[0] || b in s[1..];
  }

  lemma PopCount(list: seq<Block>, p: nat, n: nat)
    requires NoDuplicates(list) && list != [] && list[0].page == p && list[0].idx < n
    ensures |FreeIn(list[1..], p, n)| == |FreeIn(list, p, n)| - 1
  {
    hide NoDuplicates;
    Front(list);
    assert FreeIn(list[1..], p, n) == FreeIn(list, p, n) - {list[0].idx};
  }

  lemma PopArena(a: Arena, free: seq<seq<Block>>, live: map<Block, nat>, d: nat, size: nat)
    requires d < DESC_CNT == |free| && free[d] != [] && NoDuplicates(free[d]) && a.Small? && a.desc == d
    requires free[d][0].idx < PerArena(d) && size <= BlockSize(d)
    requires CountOk(a, free[d][0].page, free) && BlocksOk(a, free[d][0].page, free, live)
    ensures a.freeCnt > 0
    ensures var b := free[d][0]; var free' := free[d := free[d][1..]];
            CountOk(a.(freeCnt := a.freeCnt - 1), b.page, free')
                && BlocksOk(a.(freeCnt := a.freeCnt - 1), b.page, free', live[b := size])
  {
    hide NoDuplicates;
    var b := free[d][0];
    PopCount(free[d], b.page, PerArena(d));
    Front(free[d]);
  }

  lemma PopOthers(arenas: map<nat, Arena>, free: seq<seq<Block>>, live: map<Block, nat>, d: nat, size: nat, q: nat)
    requires ListsOk(arenas, free) && ArenasOk(arenas, free, live) && d < DESC_CNT && free[d] != [] && q in arenas
             && q != free[d][0].page
    ensures var b := free[d][0]; var free' := free[d := free[d][1..]];
            CountOk(arenas[q], q, free') && BlocksOk(arenas[q], q, free', live[b := size])
  {
    hide NoDuplicates;
    assert ListOk(arenas, d, free[d]);
    Front(free[d]);
    OtherArena(arenas[q], q, free, free[d := free[d][1..]], live, live[free[d][0] := size]);
  }

  lemma ListAt(arenas: map<nat, Arena>, free: seq<seq<Block>>, d: nat)
    requires ListsOk(arenas, free) && d < DESC_CNT
    ensures ListOk(arenas, d, free[d]) && (free[d] != [] ==> free[d][0] in free[d])
  {
  }

  lemma PopLists(arenas: map<nat, Arena>, free: seq<seq<Block>>, d: nat, c: nat)
    requires ListsOk(arenas, free) && d < DESC_CNT && free[d] != []
    ensures free[d][0].page in arenas
    ensures ListsOk(arenas[free[d][0].page := Small(d, c)], free[d := free[d][1..]])
  {
    hide NoDuplicates;
    ListAt(arenas, free, d);
    Front(free[d]);
    var arenas', free' := arenas[free[d][0].page := Small(d, c)], free[d := free[d][1..]];
    forall e | 0 <= e < DESC_CNT ensures ListOk(arenas', e, free'[e]) {
      assert ListOk(arenas, e, free[e]);
    }
  }

  /** free_cnt does not concern the pages. */
  lemma Recount(used: seq<bool>, arenas: map<nat, Arena>, owner: map<nat, nat>, foreign: set<nat>, p: nat, c: nat)
    requires PagesOk(used, arenas, owner, foreign) && p in arenas && arenas[p].Small?
    ensures PagesOk(used, arenas[p := arenas[p].(freeCnt := c)], owner, foreign)
  {
    var arenas' := arenas[p := arenas[p].(freeCnt := c)];
    forall q, x: nat | q in arenas' && InArena(q, arenas'[q], x) ensures x in owner && owner[x] == q {
      assert InArena(q, arenas[q], x);
    }
  }

  lemma PopSound(h: Heap, d: nat, size: nat)
    requires Sound(h) && d < DESC_CNT && h.free[d] != [] && size <= BlockSize(d)
    ensures h.free[d][0].page in h.arenas && h.arenas[h.free[d][0].page].Small? && h.arenas[h.free[d][0].page].desc == d
    ensures h.free[d][0] !in h.live && h.arenas[h.free[d][0].page].freeCnt > 0
    ensures Sound(Pop(h, d, size))
  {
    hide PagesOk, ListsOk, NoDuplicates, BlocksOk, CountOk;
    ListAt(h.arenas, h.free, d);
    ListsShape(h.arenas, h.free);
    var b := h.free[d][0];
    var a := h.arenas[b.page];
    PopArena(a, h.free, h.live, d, size);
    FreeNotLive(a, b, h.free, h.live);
    PopLists(h.arenas, h.free, d, a.freeCnt - 1);
    Recount(h.used, h.arenas, h.owner, h.foreign, b.page, a.freeCnt - 1);
    forall q | q in h.arenas && q != b.page
      ensures var h' := Pop(h, d, size); CountOk(h.arenas[q], q, h'.free) && BlocksOk(h.arenas[q], q, h'.free, h'.live)
    {
      PopOthers(h.arenas, h.free, h.live, d, size, q);
    }
  }

  lemma FreeNotLive(a: Arena, b: Block, free: seq<seq<Block>>, live: map<Block, nat>)
    requires a.Small? && BlocksOk(a, b.page, free, live) && a.desc < |free| && b in free[a.desc]
             && b.idx < PerArena(a.desc)
    ensures b !in live
  {
    assert b == Block(b.page, b.idx);
  }

  // ---- big blocks -----------------------------------------------------------------------------------

  function Pages(p: nat, n: nat): (s: set<nat>)
    ensures forall x: nat :: x in s <==> p <= x < p + n
  {
    if n == 0 then {} else Pages(p, n - 1) + {p + n - 1}
  }

  function NewBig(h: Heap, p: nat, n: nat, size: nat): Heap {
    h.(used := SetRange(h.used, p, n, true), arenas := h.arenas[p := Big(n)], live := h.live[Block(p, 0) := size],
       owner := Give(h.owner, p, n))
  }

  function Give(owner: map<nat, nat>, p: nat, n: nat): map<nat, nat> {
    map x | x in owner.Keys + Pages(p, n) :: if x in Pages(p, n) then p else owner[x]
  }

  lemma UnusedPage(used: seq<bool>, arenas: map<nat, Arena>, owner: map<nat, nat>, foreign: set<nat>, p: nat)
    requires PagesOk(used, arenas, owner, foreign) && p < |used| && !used[p]
    ensures p !in arenas && p !in owner && p !in foreign
  {
    if p in arenas {
      assert InArena(p, arenas[p], p);
    }
  }

  lemma BigOwns(arenas: map<nat, Arena>, owner: map<nat, nat>, p: nat, n: nat)
    requires OwnsOk(arenas, owner) && n > 0 && p !in arenas && forall x: nat | p <= x < p + n :: x !in owner
    ensures OwnsOk(arenas[p := Big(n)], Give(owner, p, n))
  {
    hide Pages;
    var arenas', owner' := arenas[p := Big(n)], Give(owner, p, n);
    forall q, x: nat | q in arenas' && InArena(q, arenas'[q], x) ensures x in owner' && owner'[x] == q {
      if q != p {
        assert InArena(q, arenas[q], x);
      }
    }
    forall x | x in owner' ensures owner'[x] in arenas' && InArena(owner'[x], arenas'[owner'[x]], x) {
      if !(p <= x < p + n) {
        assert InArena(owner[x], arenas[owner[x]], x) && owner[x] != p;
      }
    }
  }

  lemma BigMarked(used: seq<bool>, owner: map<nat, nat>, foreign: set<nat>, p: nat, n: nat)
    requires MarkedOk(used, owner, foreign) && AllAre(used, p, n, false)
    ensures MarkedOk(SetRange(used, p, n, true), Give(owner, p, n), foreign)
  {
    hide Pages;
  }

  lemma BigPages(used: seq<bool>, arenas: map<nat, Arena>, owner: map<nat, nat>, foreign: set<nat>, p: nat, n: nat)
    requires PagesOk(used, arenas, owner, foreign) && AllAre(used, p, n, false) && n > 0
    ensures p !in arenas && PagesOk(SetRange(used, p, n, true), arenas[p := Big(n)], Give(owner, p, n), foreign)
  {
    hide Pages, OwnsOk, MarkedOk, Give;
    UnusedPage(used, arenas, owner, foreign, p);
    forall x: nat | p <= x < p + n ensures x !in owner {
      UnusedPage(used, arenas, owner, foreign, x);
    }
    BigOwns(arenas, owner, p, n);
    BigMarked(used, owner, foreign, p, n);
  }

  lemma BigLists(arenas: map<nat, Arena>, free: seq<seq<Block>>, p: nat, n: nat)
    requires ListsOk(arenas, free) && p !in arenas
    ensures ListsOk(arenas[p := Big(n)], free)
  {
    forall e | 0 <= e < DESC_CNT ensures ListOk(arenas[p := Big(n)], e, free[e]) {
      assert ListOk(arenas, e, free[e]);
    }
  }

  lemma NewBigSound(h: Heap, p: nat, n: nat, size: nat)
    requires Sound(h) && AllAre(h.used, p, n, false) && n > 0 && size + HEADER <= PGSIZE * n
    ensures p !in h.arenas && Block(p, 0) !in h.live && Sound(NewBig(h, p, n, size))
  {
    hide PagesOk, ListsOk, SetRange, Give, CountOk, BlocksOk;
    BigPages(h.used, h.arenas, h.owner, h.foreign, p, n);
    BigLists(h.arenas, h.free, p, n);
    assert BlocksOk(Big(n), p, h.free, h.live[Block(p, 0) := size])
        && CountOk(Big(n), p, h.free) by { BigBlock(h.free, h.live, p, n, size); }
    forall q | q in h.arenas ensures BlocksOk(h.arenas[q], q, h.free, h.live[Block(p, 0) := size]) {
      OtherArena(h.arenas[q], q, h.free, h.free, h.live, h.live[Block(p, 0) := size]);
    }
  }

  lemma BigBlock(free: seq<seq<Block>>, live: map<Block, nat>, p: nat, n: nat, size: nat)
    requires size + HEADER <= PGSIZE * n
    ensures BlocksOk(Big(n), p, free, live[Block(p, 0) := size]) && CountOk(Big(n), p, free)
  {
  }

  // ---- malloc ---------------------------------------------------------------------------------------

  datatype Pointer = Null | To(address: nat)

  /** malloc */
  function Malloc(h: Heap, size: nat): (Heap, Pointer)
    requires Sound(h)
  {
    var d := DescFor(size);
    if size == 0 then (h, Null)
    else if d == DESC_CNT then
      match PallocGet(h.used, PageCnt(size))
      case Error => (h, Null)
      case At(p) => (NewBig(h, p, PageCnt(size), size), To(Address(Big(PageCnt(size)), Block(p, 0))))
    else if h.free[d] == [] then
      match PallocGet(h.used, 1)
      case Error => (h, Null)
      case At(p) => NewArenaSound(h, d, p); NewArenaNonempty(h, d, p); Hand(NewArena(h, d, p), d, size)
    else Hand(h, d, size)
  }

  /** palloc_get_multiple */
  function PallocGet(used: seq<bool>, n: nat): (r: Found)
    ensures r.At? ==> n > 0 && AllAre(used, r.idx, n, false)
  {
    if n == 0 then Error else Scan(used, 0, n, false)
  }

  lemma NewArenaNonempty(h: Heap, d: nat, p: nat)
    requires Sound(h) && d < DESC_CNT
    ensures d < |h.free| && NewArena(h, d, p).free[d] != []
  {
  }

  function Hand(h: Heap, d: nat, size: nat): (Heap, Pointer)
    requires Sound(h) && d < DESC_CNT && h.free[d] != [] && size <= BlockSize(d)
  {
    PopSound(h, d, size);
    (Pop(h, d, size), To(Address(h.arenas[h.free[d][0].page], h.free[d][0])))
  }

  /** A request that 32-bit arithmetic can handle: its pages suffice, or there are none. */
  predicate Reasonable(size: nat) {
    size + HEADER <= WORD
  }

  lemma ReasonablePages(size: nat)
    requires 1024 < size && Reasonable(size) && PageCnt(size) > 0
    ensures size + HEADER <= PGSIZE * PageCnt(size)
  {
    if size + HEADER + PGSIZE - 1 >= WORD { WrappedPages(size); } else { PagesSuffice(size); }
  }

  lemma PopBusy(h: Heap, d: nat, size: nat)
    requires Sound(h) && d < DESC_CNT && h.free[d] != [] && size <= BlockSize(d)
    requires forall p | p in h.arenas && h.arenas[p].Small? && p != h.free[d][0].page ::
               h.arenas[p].desc < DESC_CNT && h.arenas[p].freeCnt < PerArena(h.arenas[p].desc)
    ensures Inv(Hand(h, d, size).0)
  {
    hide PagesOk, ListsOk, LiveOk, NoDuplicates, BlocksOk;
    PopSound(h, d, size);
    var b := h.free[d][0];
    var a := h.arenas[b.page];
    assert CountOk(a, b.page, h.free);
    AllFree(h.free[d], b.page, PerArena(d));
  }

  lemma ReasonableKeeps(h: Heap, size: nat)
    requires Inv(h) && Reasonable(size)
    ensures Inv(Malloc(h, size).0)
  {
    hide PagesOk, ListsOk, LiveOk, ArenasOk, SetRange, Scan, NewArena, NewBig, Hand, PageCnt;
    var d := DescFor(size);
    ListsShape(h.arenas, h.free);
    if size > 0 && d == DESC_CNT {
      if PallocGet(h.used, PageCnt(size)).At? {
        ReasonablePages(size);
        NewBigSound(h, PallocGet(h.used, PageCnt(size)).idx, PageCnt(size), size);
        BigBusy(h, PallocGet(h.used, PageCnt(size)).idx, PageCnt(size), size);
      }
    } else if size > 0 && h.free[d] == [] {
      if PallocGet(h.used, 1).At? {
        var p := PallocGet(h.used, 1).idx;
        NewArenaSound(h, d, p);
        NewArenaNonempty(h, d, p);
        NewArenaFront(h, d, p);
        PopBusy(NewArena(h, d, p), d, size);
      }
    } else if size > 0 {
      PopBusy(h, d, size);
    }
  }

  lemma OneFreePage(used: seq<bool>)
    ensures PallocGet(used, 1).At? <==> false in used
  {
    hide Scan;
    if false in used {
      var i :| 0 <= i < |used| && used[i] == false;
      assert AllAre(used, i, 1, false);
    }
    if PallocGet(used, 1).At? {
      assert used[PallocGet(used, 1).idx] == false;
    }
  }

  /** A block in a single page cannot hold one of the last eleven sizes. */
  lemma WrappedBreaks(h: Heap, size: nat)
    requires Inv(h) && size < WORD && !Reasonable(size)
    ensures Inv(Malloc(h, size).0) <==> false !in h.used
  {
    hide PagesOk, ListsOk, LiveOk, CountOk, SetRange, Scan, PageCnt, Give, BusyOk;
    WrappedPages(size);
    OneFreePage(h.used);
    if PallocGet(h.used, 1).At? {
      var p := PallocGet(h.used, 1).idx;
      var h' := NewBig(h, p, 1, size);
      assert !BlocksOk(h'.arenas[p], p, h'.free, h'.live);
    }
  }

  /** malloc keeps the invariant for all sizes but the last eleven, and for those if and only if
      there is no free page. */
  lemma MallocKeeps(h: Heap, size: nat)
    requires Inv(h) && size < WORD
    ensures Inv(Malloc(h, size).0) <==> Reasonable(size) || false !in h.used
  {
    hide Inv, Malloc, Reasonable;
    if Reasonable(size) { ReasonableKeeps(h, size); } else { WrappedBreaks(h, size); }
  }

  lemma NotLive(arenas: map<nat, Arena>, live: map<Block, nat>, b: Block)
    requires LiveOk(arenas, live) && b.page !in arenas
    ensures b !in live
  {
  }

  /** What malloc returns: the address of a block that was not live before and is now, with
      the size asked for; without such a block it returns null and changes nothing. */
  lemma MallocReturns(h: Heap, size: nat) returns (b: Block)
    requires Inv(h)
    ensures Malloc(h, size).1 == Null ==> Malloc(h, size).0 == h
    ensures Malloc(h, size).1.To? ==>
              var h' := Malloc(h, size).0;
              b !in h.live && h'.live == h.live[b := size] && BlockAt(h', b, Malloc(h, size).1.address)
  {
    hide PagesOk, ListsOk, LiveOk, ArenasOk, SetRange, Scan, PageCnt, Pages, Blocks, BlocksOk, CountOk;
    var d := DescFor(size);
    b := Block(0, 0);
    ListsShape(h.arenas, h.free);
    if size > 0 && d == DESC_CNT {
      if PallocGet(h.used, PageCnt(size)).At? {
        b := Block(PallocGet(h.used, PageCnt(size)).idx, 0);
        UnusedPage(h.used, h.arenas, h.owner, h.foreign, b.page);
        NotLive(h.arenas, h.live, b);
      }
    } else if size > 0 && h.free[d] == [] {
      if PallocGet(h.used, 1).At? {
        var p := PallocGet(h.used, 1).idx;
        NewArenaSound(h, d, p);
        NewArenaNonempty(h, d, p);
        b := NewArena(h, d, p).free[d][0];
        PopSound(NewArena(h, d, p), d, size);
      }
    } else if size > 0 {
      b := h.free[d][0];
      PopSound(h, d, size);
    }
  }

  /** The bytes an arena has for a block. */
  function Capacity(a: Arena): int {
    match a
    case Small(d, _) => if d < DESC_CNT then BlockSize(d) else 0
    case Big(n) => PGSIZE * n - HEADER
  }

  /** malloc returns null, or a block with room for the request. */
  predicate LargeEnough(r: (Heap, Pointer), size: nat) {
    r.1.To? ==> PageOf(r.1.address) in r.0.arenas && size <= Capacity(r.0.arenas[PageOf(r.1.address)])
  }

  lemma SmallIsEnough(h: Heap, size: nat)
    requires Inv(h) && 0 < size && DescFor(size) < DESC_CNT
    ensures LargeEnough(Malloc(h, size), size)
  {
    hide PagesOk, LiveOk, ArenasOk, SetRange, Scan, PageCnt, Blocks, PageOf, Address;
    var d := DescFor(size);
    ListsShape(h.arenas, h.free);
    if h.free[d] != [] {
      HandIsEnough(h, d, size);
    } else if PallocGet(h.used, 1).At? {
      var p := PallocGet(h.used, 1).idx;
      NewArenaSound(h, d, p);
      NewArenaNonempty(h, d, p);
      HandIsEnough(NewArena(h, d, p), d, size);
    }
  }

  lemma HandIsEnough(h: Heap, d: nat, size: nat)
    requires Sound(h) && d < DESC_CNT && h.free[d] != [] && size <= BlockSize(d)
    ensures LargeEnough(Hand(h, d, size), size)
  {
    hide PagesOk, LiveOk, ArenasOk, NoDuplicates, PageOf, Address;
    var b := h.free[d][0];
    assert ListOk(h.arenas, d, h.free[d]) && b in h.free[d];
    AddressRoundTrip(h.arenas[b.page], b);
  }

  lemma BigIsEnough(h: Heap, size: nat)
    requires Inv(h) && 1024 < size
    ensures var n := PageCnt(size);
            LargeEnough(Malloc(h, size), size) <==> PallocGet(h.used, n).Error? || size + HEADER <= PGSIZE * n
  {
    hide PagesOk, LiveOk, ArenasOk, SetRange, Scan, PageCnt, Pages, Give;
    if PallocGet(h.used, PageCnt(size)).At? {
      AddressRoundTrip(Big(PageCnt(size)), Block(PallocGet(h.used, PageCnt(size)).idx, 0));
    }
  }

  /** Exactly when malloc is right: for every size up to the wrap-around of size and header, and
      for the eleven sizes beyond it only if there is no page at all. */
  lemma MallocServes(h: Heap, size: nat)
    requires Inv(h) && size < WORD
    ensures LargeEnough(Malloc(h, size), size) <==> size + HEADER <= WORD || false !in h.used
  {
    hide Inv, Malloc, LargeEnough, PageCnt, PallocGet;
    if size == 0 {
      NothingIsEnough(h);
    } else if DescFor(size) < DESC_CNT {
      SmallIsEnough(h, size);
    } else {
      BigIsEnough(h, size);
      if size + HEADER + PGSIZE - 1 < WORD {
        PagesSuffice(size);
      } else {
        WrappedPages(size);
        NoPages(h.used);
        OneFreePage(h.used);
      }
    }
  }

  lemma NothingIsEnough(h: Heap)
    requires Inv(h)
    ensures LargeEnough(Malloc(h, 0), 0)
  {
    hide Sound;
  }

  lemma NoPages(used: seq<bool>)
    ensures PallocGet(used, 0).Error?
  {
  }

  /** On a fresh pool of one page, a request for all but one of the bytes of the address space
      gets that page, with 4084 bytes beside the header. */
  lemma WrappedRequest()
    ensures var r := Malloc(Fresh(1), 0xFFFF_FFFF);
            r.1 == To(HEADER) && 0 in r.0.arenas && r.0.arenas[0] == Big(1) && Capacity(Big(1)) == 4084
            && Block(0, 0) in r.0.live && r.0.live[Block(0, 0)] == 0xFFFF_FFFF
  {
    hide Inv, Scan, SetRange, Give;
    WrappedPages(0xFFFF_FFFF);
    OneFreePage(Fresh(1).used);
    assert false in Fresh(1).used by { assert Fresh(1).used[0] == false; }
  }

  lemma BigBusy(h: Heap, p: nat, n: nat, size: nat)
    requires BusyOk(h.arenas)
    ensures BusyOk(NewBig(h, p, n, size).arenas)
  {
    hide Pages;
  }

  lemma NewArenaFront(h: Heap, d: nat, p: nat)
    requires Sound(h) && BusyOk(h.arenas) && d < DESC_CNT && h.free[d] == []
    ensures NewArena(h, d, p).free[d][0].page == p
    ensures forall q | q in NewArena(h, d, p).arenas && NewArena(h, d, p).arenas[q].Small? && q != p ::
              NewArena(h, d, p).arenas[q].desc < DESC_CNT
                  && NewArena(h, d, p).arenas[q].freeCnt < PerArena(NewArena(h, d, p).arenas[q].desc)
  {
    hide PagesOk, ArenasOk, LiveOk;
  }

  // ---- giving a block back ----------------------------------------------------------------------------

  function Push(h: Heap, b: Block): Heap
    requires b.page in h.arenas && h.arenas[b.page].Small? && h.arenas[b.page].desc < |h.free|
  {
    var a := h.arenas[b.page];
    h.(free := h.free[a.desc := [b] + h.free[a.desc]], arenas := h.arenas[b.page := a.(freeCnt := a.freeCnt + 1)],
        live := h.live - {b})
  }

  lemma PushArena(a: Arena, b: Block, free: seq<seq<Block>>, live: map<Block, nat>)
    requires a.Small? && a.desc < DESC_CNT == |free| && b.idx < PerArena(a.desc) && b in live
    requires CountOk(a, b.page, free) && BlocksOk(a, b.page, free, live)
    ensures b !in free[a.desc] && a.freeCnt < PerArena(a.desc)
    ensures var a', free' := a.(freeCnt := a.freeCnt + 1), free[a.desc := [b] + free[a.desc]];
            CountOk(a', b.page, free') && BlocksOk(a', b.page, free', live - {b})
  {
    var n, list := PerArena(a.desc), free[a.desc];
    assert b == Block(b.page, b.idx);
    AllFree(list, b.page, n);
    assert FreeIn([b] + list, b.page, n) == FreeIn(list, b.page, n) + {b.idx};
  }

  lemma PushLists(arenas: map<nat, Arena>, free: seq<seq<Block>>, d: nat, b: Block, c: nat)
    requires ListsOk(arenas, free) && d < DESC_CNT && b.page in arenas && arenas[b.page].Small?
             && arenas[b.page].desc == d
    requires b.idx < PerArena(d) && b !in free[d]
    ensures ListsOk(arenas[b.page := Small(d, c)], free[d := [b] + free[d]])
  {
    var arenas', free' := arenas[b.page := Small(d, c)], free[d := [b] + free[d]];
    forall e | 0 <= e < DESC_CNT ensures ListOk(arenas', e, free'[e]) {
      assert ListOk(arenas, e, free[e]);
    }
  }

  lemma PushOthers(x: Arena, free: seq<seq<Block>>, live: map<Block, nat>, d: nat, b: Block, q: nat)
    requires CountOk(x, q, free) && BlocksOk(x, q, free, live) && d < |free| && q != b.page
    ensures CountOk(x, q, free[d := [b] + free[d]]) && BlocksOk(x, q, free[d := [b] + free[d]], live - {b})
  {
    OtherArena(x, q, free, free[d := [b] + free[d]], live, live - {b});
  }

  lemma PushSound(h: Heap, b: Block)
    requires Sound(h) && b in h.live && b.page in h.arenas && h.arenas[b.page].Small?
    ensures h.arenas[b.page].desc < DESC_CNT == |h.free| && Sound(Push(h, b))
    ensures h.arenas[b.page].freeCnt < PerArena(h.arenas[b.page].desc)
  {
    hide PagesOk, ListsOk, NoDuplicates, BlocksOk, CountOk;
    ListsShape(h.arenas, h.free);
    var a := h.arenas[b.page];
    PushArena(a, b, h.free, h.live);
    PushLists(h.arenas, h.free, a.desc, b, a.freeCnt + 1);
    Recount(h.used, h.arenas, h.owner, h.foreign, b.page, a.freeCnt + 1);
    var h' := Push(h, b);
    forall q | q in h.arenas && q != b.page ensures CountOk(h.arenas[q], q, h'.free)
        && BlocksOk(h.arenas[q], q, h'.free, h'.live) {
      PushOthers(h.arenas[q], h.free, h.live, a.desc, b, q);
    }
  }

  /** The free list without an arena's blocks. */
  function WithoutPage(list: seq<Block>, p: nat): (r: seq<Block>)
    ensures forall b :: b in r <==> b in list && b.page != p
  {
    if list == [] then []
    else
      assert forall b | b in list :: b == list[0] || b in list[1..];
      (if list[0].page == p then [] else [list[0]]) + WithoutPage(list[1..], p)
  }

  lemma {:induction false} WithoutPageDistinct(list: seq<Block>, p: nat)
    requires NoDuplicates(list)
    ensures NoDuplicates(WithoutPage(list, p))
  {
    if list != [] {
      assert list[0] !in list[1..];
      WithoutPageDistinct(list[1..], p);
    }
  }

  /** A wholly free arena goes back to palloc. */
  function Reclaim(h: Heap, p: nat): Heap
    requires p in h.arenas && h.arenas[p].Small? && h.arenas[p].desc < |h.free|
  {
    var d := h.arenas[p].desc;
    h.(used := SetRange(h.used, p, 1, false), arenas := h.arenas - {p}, free := h.free[d := WithoutPage(h.free[d], p)],
        owner := h.owner - {p})
  }

  /** The page stays with its arena when another arena is given up. */
  lemma LoseOther(arenas: map<nat, Arena>, owner: map<nat, nat>, p: nat, n: nat, x: nat)
    requires OwnsOk(arenas, owner) && p in arenas && n == if arenas[p].Small? then 1 else arenas[p].pages
    requires x in owner
    ensures owner[x] in arenas && InArena(owner[x], arenas[owner[x]], x)
    ensures owner[x] == p <==> p <= x < p + n
  {
    assert InArena(owner[x], arenas[owner[x]], x);
    if p <= x < p + n { assert InArena(p, arenas[p], x); }
  }

  lemma LoseOwns(arenas: map<nat, Arena>, owner: map<nat, nat>, p: nat, n: nat)
    requires OwnsOk(arenas, owner) && p in arenas && n == if arenas[p].Small? then 1 else arenas[p].pages
    ensures forall x: nat | p <= x < p + n :: x in owner && owner[x] == p
    ensures OwnsOk(arenas - {p}, owner - Pages(p, n))
  {
    hide Pages;
    forall x: nat | p <= x < p + n ensures x in owner && owner[x] == p {
      assert InArena(p, arenas[p], x);
    }
    var arenas', owner' := arenas - {p}, owner - Pages(p, n);
    forall x | x in owner' ensures owner'[x] in arenas' && InArena(owner'[x], arenas'[owner'[x]], x) {
      LoseOther(arenas, owner, p, n, x);
    }
    forall q, x: nat | q in arenas' && InArena(q, arenas'[q], x) ensures x in owner' && owner'[x] == q {
      assert InArena(q, arenas[q], x);
      LoseOther(arenas, owner, p, n, x);
    }
  }

  /** Pages of an arena are given up. */
  lemma LosePages(used: seq<bool>, arenas: map<nat, Arena>, owner: map<nat, nat>, foreign: set<nat>, p: nat, n: nat)
    requires PagesOk(used, arenas, owner, foreign) && p in arenas && n == if arenas[p].Small? then 1
             else arenas[p].pages
    ensures AllAre(used, p, n, true)
    ensures PagesOk(SetRange(used, p, n, false), arenas - {p}, owner - Pages(p, n), foreign)
  {
    hide Pages;
    assert n > 0;
    hide OwnsOk;
    LoseOwns(arenas, owner, p, n);
    assert p + n - 1 in owner;
  }

  lemma ReclaimLists(arenas: map<nat, Arena>, free: seq<seq<Block>>, p: nat)
    requires ListsOk(arenas, free) && p in arenas && arenas[p].Small? && arenas[p].desc < DESC_CNT
    ensures var d := arenas[p].desc; ListsOk(arenas - {p}, free[d := WithoutPage(free[d], p)])
  {
    hide WithoutPage;
    var d := arenas[p].desc;
    var arenas', free' := arenas - {p}, free[d := WithoutPage(free[d], p)];
    forall e | 0 <= e < DESC_CNT ensures ListOk(arenas', e, free'[e]) {
      assert ListOk(arenas, e, free[e]);
      if e == d {
        WithoutPageDistinct(free[d], p);
      }
    }
  }

  lemma ReclaimOthers(x: Arena, free: seq<seq<Block>>, live: map<Block, nat>, d: nat, p: nat, q: nat)
    requires CountOk(x, q, free) && BlocksOk(x, q, free, live) && d < |free| && q != p
    ensures CountOk(x, q, free[d := WithoutPage(free[d], p)])
            && BlocksOk(x, q, free[d := WithoutPage(free[d], p)], live)
  {
    OtherArena(x, q, free, free[d := WithoutPage(free[d], p)], live, live);
  }

  lemma ReclaimSound(h: Heap, p: nat)
    requires Sound(h) && p in h.arenas && h.arenas[p].Small? && h.arenas[p].desc < DESC_CNT == |h.free|
    requires h.arenas[p].freeCnt == PerArena(h.arenas[p].desc)
    ensures AllAre(h.used, p, 1, true) && Sound(Reclaim(h, p))
  {
    hide PagesOk, ListsOk, NoDuplicates, BlocksOk, CountOk, SetRange, WithoutPage, AllAre;
    var a := h.arenas[p];
    LosePages(h.used, h.arenas, h.owner, h.foreign, p, 1);
    OnePage(p);
    ReclaimLists(h.arenas, h.free, p);
    var h' := Reclaim(h, p);
    forall q | q in h'.arenas ensures CountOk(h'.arenas[q], q, h'.free) && BlocksOk(h'.arenas[q], q, h'.free, h'.live) {
      ReclaimOthers(h.arenas[q], h.free, h.live, a.desc, p, q);
    }
    forall b | b in h.live ensures b.page != p {
      if b.page == p {
        WhollyFree(a, p, h.free, h.live, b);
      }
    }
  }

  lemma OnePage(p: nat)
    ensures Pages(p, 1) == {p}
  {
  }

  lemma WhollyFree(a: Arena, p: nat, free: seq<seq<Block>>, live: map<Block, nat>, b: Block)
    requires a.Small? && CountOk(a, p, free) && BlocksOk(a, p, free, live) && a.freeCnt == PerArena(a.desc)
    requires b.page == p && b.idx < PerArena(a.desc)
    ensures b !in live
  {
    AllFree(free[a.desc], p, PerArena(a.desc));
    assert b == Block(p, b.idx);
  }

  function FreeBig(h: Heap, p: nat): Heap
    requires p in h.arenas && h.arenas[p].Big?
  {
    h.(used := SetRange(h.used, p, h.arenas[p].pages, false), arenas := h.arenas - {p},
       live := h.live - {Block(p, 0)}, owner := h.owner - Pages(p, h.arenas[p].pages))
  }

  lemma FreeBigSound(h: Heap, p: nat)
    requires Sound(h) && p in h.arenas && h.arenas[p].Big?
    ensures AllAre(h.used, p, h.arenas[p].pages, true) && Sound(FreeBig(h, p))
  {
    hide PagesOk, ListsOk, BlocksOk, CountOk, SetRange, Pages, AllAre;
    LosePages(h.used, h.arenas, h.owner, h.foreign, p, h.arenas[p].pages);
    BigLeaves(h.arenas, h.free, p);
    var h' := FreeBig(h, p);
    forall q | q in h'.arenas ensures CountOk(h'.arenas[q], q, h'.free) && BlocksOk(h'.arenas[q], q, h'.free, h'.live) {
      OtherArena(h.arenas[q], q, h.free, h.free, h.live, h'.live);
    }
  }

  lemma BigLeaves(arenas: map<nat, Arena>, free: seq<seq<Block>>, p: nat)
    requires ListsOk(arenas, free) && p in arenas && arenas[p].Big?
    ensures ListsOk(arenas - {p}, free)
  {
    forall e | 0 <= e < DESC_CNT ensures ListOk(arenas - {p}, e, free[e]) {
      assert ListOk(arenas, e, free[e]);
    }
  }

  /** free of an address that malloc returned and that has not been freed since. */
  function Free(h: Heap, address: nat): Heap
    requires Inv(h) && IsLive(h, address)
  {
    var p := PageOf(address);
    LiveDecodes(h, address);
    var a := h.arenas[p];
    if a.Big? then FreeBig(h, p)
    else
      var b := Block(p, IndexOf(a, address));
      PushSound(h, b);
      var h1 := Push(h, b);
      if h1.arenas[p].freeCnt >= PerArena(a.desc) then Reclaim(h1, p) else h1
  }

  ghost predicate BlockAt(h: Heap, b: Block, address: nat) {
    b in h.live && b.page in h.arenas && (h.arenas[b.page].Small? ==> h.arenas[b.page].desc < DESC_CNT)
    && address == Address(h.arenas[b.page], b)
  }

  ghost predicate IsLive(h: Heap, address: nat) {
    exists b :: BlockAt(h, b, address)
  }

  lemma LiveDecodes(h: Heap, address: nat)
    requires Inv(h) && IsLive(h, address)
    ensures PageOf(address) in h.arenas
    ensures h.arenas[PageOf(address)].Small? ==> h.arenas[PageOf(address)].desc < DESC_CNT
    ensures BlockAt(h, Block(PageOf(address), IndexOf(h.arenas[PageOf(address)], address)), address)
  {
    hide PagesOk, ListsOk, ArenasOk, Address, PageOf, IndexOf;
    var b :| BlockAt(h, b, address);
    AddressRoundTrip(h.arenas[b.page], b);
  }

  /** Freeing keeps the invariant, and a page goes back to palloc exactly when its arena has
      become wholly free. */
  lemma FreeKeeps(h: Heap, address: nat)
    requires Inv(h) && IsLive(h, address)
    ensures Inv(Free(h, address)) && PageOf(address) in h.arenas
    ensures var p := PageOf(address); var a := h.arenas[p];
            a.Small? ==> (p !in Free(h, address).arenas <==> a.desc < DESC_CNT && a.freeCnt + 1 == PerArena(a.desc))
  {
    hide PagesOk, ListsOk, ArenasOk, SetRange, WithoutPage, Pages, LiveOk, PageOf, IndexOf, IsLive;
    LiveDecodes(h, address);
    var p := PageOf(address);
    var a := h.arenas[p];
    if a.Big? {
      FreeBigSound(h, p);
      BusyLess(h, FreeBig(h, p), p);
    } else {
      var b := Block(p, IndexOf(a, address));
      PushSound(h, b);
      var h1 := Push(h, b);
      if h1.arenas[p].freeCnt >= PerArena(a.desc) {
        ReclaimSound(h1, p);
        BusyLess(h, Reclaim(h1, p), p);
      }
    }
  }

  lemma BusyLess(h: Heap, h': Heap, p: nat)
    requires BusyOk(h.arenas) && forall q | q in h'.arenas :: q != p && q in h.arenas && h'.arenas[q] == h.arenas[q]
    ensures BusyOk(h'.arenas)
  {
  }

  // ---- other users of the pool --------------------------------------------------------------------------

  /** Someone else takes pages from the pool, or gives them back. */
  function Take(h: Heap, n: nat): Heap {
    match PallocGet(h.used, n)
    case Error => h
    case At(p) => h.(used := SetRange(h.used, p, n, true), foreign := h.foreign + Pages(p, n))
  }

  function GiveBack(h: Heap, p: nat, n: nat): Heap {
    h.(used := SetRange(h.used, p, n, false), foreign := h.foreign - Pages(p, n))
  }

  lemma TakeKeeps(h: Heap, n: nat)
    requires Inv(h)
    ensures Inv(Take(h, n))
  {
    hide OwnsOk, ListsOk, ArenasOk, LiveOk, BusyOk, Scan, Pages;
  }

  lemma GiveBackKeeps(h: Heap, p: nat, n: nat)
    requires Inv(h) && forall x: nat | p <= x < p + n :: x in h.foreign
    ensures Inv(GiveBack(h, p, n))
  {
    hide OwnsOk, ListsOk, ArenasOk, LiveOk, BusyOk, Pages;
  }

  // ---- runs ---------------------------------------------------------------------------------------------

  datatype Call = DoMalloc(size: nat) | DoFree(address: nat) | DoTake(n: nat) | DoGiveBack(page: nat, n: nat)

  /** Sizes that malloc can serve or refuse, as in MallocKeeps; only live blocks are freed, and only
      foreign pages are given back by others. */
  ghost predicate Enabled(h: Heap, c: Call) {
    match c
    case DoMalloc(size) => size < WORD && (Reasonable(size) || false !in h.used)
    case DoFree(address) => IsLive(h, address)
    case DoTake(n) => true
    case DoGiveBack(p, n) => forall x: nat | p <= x < p + n :: x in h.foreign
  }

  function Next(h: Heap, c: Call): Heap
    requires Inv(h) && Enabled(h, c)
  {
    match c
    case DoMalloc(size) => Malloc(h, size).0
    case DoFree(address) => Free(h, address)
    case DoTake(n) => Take(h, n)
    case DoGiveBack(p, n) => GiveBack(h, p, n)
  }

  lemma NextKeeps(h: Heap, c: Call)
    requires Inv(h) && Enabled(h, c)
    ensures Inv(Next(h, c))
  {
    hide Inv, Malloc, Free, Take, GiveBack, IsLive, Reasonable;
    match c {
      case DoMalloc(size) => MallocKeeps(h, size);
      case DoFree(address) => FreeKeeps(h, address);
      case DoTake(n) => TakeKeeps(h, n);
      case DoGiveBack(p, n) => GiveBackKeeps(h, p, n);
    }
  }

  ghost predicate Possible(h: Heap, calls: seq<Call>)
    requires Inv(h)
    decreases |calls|
  {
    calls != [] ==> Enabled(h, calls[0]) && (NextKeeps(h, calls[0]); Possible(Next(h, calls[0]), calls[1..]))
  }

  function After(h: Heap, calls: seq<Call>): (end: Heap)
    requires Inv(h) && Possible(h, calls)
    ensures Inv(end)
    decreases |calls|
  {
    if calls == [] then h
    else
      NextKeeps(h, calls[0]);
      After(Next(h, calls[0]), calls[1..])
  }

  /** malloc_init: an unused pool and empty free lists. */
  function Fresh(pages: nat): (h: Heap)
    ensures Inv(h)
  {
    Heap(seq(pages, _ => false), map[], [[], [], [], [], [], [], []], {}, map[], map[])
  }

  function Reached(pages: nat, calls: seq<Call>): (end: Heap)
    requires Possible(Fresh(pages), calls)
    ensures Inv(end)
  {
    After(Fresh(pages), calls)
  }

  /** Byte y is one of the bytes that were asked for when block b was handed out. */
  ghost predicate InBlock(h: Heap, b: Block, y: nat) {
    exists address: nat :: BlockAt(h, b, address) && address <= y < address + h.live[b]
  }

  /** Byte y is in an arena header. */
  predicate InHeader(h: Heap, y: nat) {
    PageOf(y) in h.arenas && y % PGSIZE < HEADER
  }

  lemma SmallByte(d: nat, b: Block, size: nat, y: nat)
    requires d < DESC_CNT && b.idx < PerArena(d) && size <= BlockSize(d)
    requires var a := PGSIZE * b.page + HEADER + b.idx * BlockSize(d); a <= y < a + size
    ensures PageOf(y) == b.page && y % PGSIZE >= HEADER && (y % PGSIZE - HEADER) / BlockSize(d) == b.idx
  {
    var n := BlockSize(d);
    BlockFits(d, b.idx);
    InPage(b.page, y - PGSIZE * b.page);
    Arithmetic.DivUnique(y % PGSIZE - HEADER, n, b.idx);
  }

  lemma BigByte(n: nat, p: nat, size: nat, y: nat)
    requires size + HEADER <= PGSIZE * n && PGSIZE * p + HEADER <= y < PGSIZE * p + HEADER + size
    ensures p <= PageOf(y) < p + n && (PageOf(y) == p ==> y % PGSIZE >= HEADER)
  {
  }

  /** The page of a block's byte belongs to the block's arena. */
  lemma ByteInPage(h: Heap, b: Block, y: nat)
    requires Inv(h) && InBlock(h, b, y)
    ensures b in h.live && b.page in h.arenas && InArena(b.page, h.arenas[b.page], PageOf(y))
    ensures PageOf(y) == b.page ==> y % PGSIZE >= HEADER
    ensures h.arenas[b.page].Small? ==>
              h.arenas[b.page].desc < DESC_CNT && y % PGSIZE >= HEADER
              && (y % PGSIZE - HEADER) / BlockSize(h.arenas[b.page].desc) == b.idx
    ensures h.arenas[b.page].Big? ==> b.idx == 0
  {
    hide PagesOk, ListsOk, BusyOk, CountOk, PageOf;
    var a := h.arenas[b.page];
    assert BlocksOk(a, b.page, h.free, h.live) && b == Block(b.page, b.idx);
    if a.Small? {
      SmallByte(a.desc, b, h.live[b], y);
    } else {
      BigByte(a.pages, b.page, h.live[b], y);
    }
  }

  /** Over every run of malloc and free: a byte of a live block is a byte of no other live
      block and of no arena header, and its page is marked used. */
  lemma BlocksDisjoint(pages: nat, calls: seq<Call>, b: Block, c: Block, y: nat)
    requires Possible(Fresh(pages), calls) && InBlock(Reached(pages, calls), b, y)
    ensures var h := Reached(pages, calls);
            && (InBlock(h, c, y) ==> c == b) && !InHeader(h, y) && PageOf(y) < |h.used| && h.used[PageOf(y)]
  {
    hide Possible, Reached, Fresh, InBlock, ListsOk, ArenasOk, LiveOk, BusyOk, PageOf;
    var h := Reached(pages, calls);
    ByteInPage(h, b, y);
    OwnerOf(h.arenas, h.owner, b.page, PageOf(y));
    if InBlock(h, c, y) {
      ByteInPage(h, c, y);
      OwnerOf(h.arenas, h.owner, c.page, PageOf(y));
    }
    if InHeader(h, y) {
      OwnerOf(h.arenas, h.owner, PageOf(y), PageOf(y));
    }
  }

  lemma OwnerOf(arenas: map<nat, Arena>, owner: map<nat, nat>, p: nat, x: nat)
    requires OwnsOk(arenas, owner) && p in arenas && (x == p || InArena(p, arenas[p], x))
    ensures x in owner && owner[x] == p
  {
    assert InArena(p, arenas[p], x);
  }

  /** free_cnt counts the arena's blocks on its descriptor's free list, and no page is held
      for a wholly free arena. */
  lemma CountsAreTrue(pages: nat, calls: seq<Call>, p: nat)
    requires Possible(Fresh(pages), calls) && p in Reached(pages, calls).arenas
             && Reached(pages, calls).arenas[p].Small?
    ensures var h := Reached(pages, calls); var a := h.arenas[p];
            a.desc < DESC_CNT == |h.free|
                && a.freeCnt == |FreeIn(h.free[a.desc], p, PerArena(a.desc))| < PerArena(a.desc)
  {
    hide Possible, Reached, Fresh, PagesOk, LiveOk, BlocksOk;
    var h := Reached(pages, calls);
    assert CountOk(h.arenas[p], p, h.free);
  }
}
