/** malloc and free on mutable lists, with the page pool as a bitmap, proved against the
    heap model. */
module MallocCode {
  import opened Basics
  import opened Bitmap
  import opened Malloc

  lemma DescIs(size: nat, d: nat)
    requires d <= DESC_CNT && (d < DESC_CNT ==> size <= BlockSize(d)) && forall e: nat | e < d :: BlockSize(e) < size
    ensures d == DescFor(size)
  {
    if d < DescFor(size) < DESC_CNT {
      Ascending(d, DescFor(size));
    }
  }

  lemma Ascending(d: nat, f: nat)
    requires d < f < DESC_CNT
    ensures BlockSize(d) <= BlockSize(f - 1)
  {
  }

  /** The list without the first n blocks of an arena. */
  function WithoutFirst(list: seq<Block>, p: nat, n: nat): (r: seq<Block>)
    ensures forall b :: b in r <==> b in list && !(b.page == p && b.idx < n)
  {
    if list == [] then []
    else
      assert forall b | b in list :: b == list[0] || b in list[1..];
      (if list[0].page == p && list[0].idx < n then [] else [list[0]]) + WithoutFirst(list[1..], p, n)
  }

  /** list_remove of a block. */
  function Unlisted(list: seq<Block>, b: Block): seq<Block> {
    if list == [] then [] else if list[0] == b then list[1..] else [list[0]] + Unlisted(list[1..], b)
  }

  lemma {:induction false} NoneYet(list: seq<Block>, p: nat)
    ensures WithoutFirst(list, p, 0) == list
  {
    if list != [] {
      NoneYet(list[1..], p);
    }
  }

  lemma WithoutCons(list: seq<Block>, p: nat, n: nat)
    requires list != []
    ensures var rest := WithoutFirst(list[1..], p, n);
            WithoutFirst(list, p, n) == if list[0].page == p && list[0].idx < n then rest else [list[0]] + rest
  {
  }

  lemma UnlistedCons(h: Block, rest: seq<Block>, b: Block)
    ensures Unlisted([h] + rest, b) == if h == b then rest else [h] + Unlisted(rest, b)
  {
    assert ([h] + rest)[1..] == rest;
  }

  lemma {:induction false} OneMore(list: seq<Block>, p: nat, n: nat)
    requires NoDuplicates(list)
    ensures Unlisted(WithoutFirst(list, p, n), Block(p, n)) == WithoutFirst(list, p, n + 1)
  {
    if list != [] {
      assert list[0] !in list[1..];
      OneMore(list[1..], p, n);
      hide WithoutFirst, Unlisted;
      WithoutCons(list, p, n);
      WithoutCons(list, p, n + 1);
      UnlistedCons(list[0], WithoutFirst(list[1..], p, n), Block(p, n));
      if list[0] == Block(p, n) {
        Absent(list[1..], p, n);
      }
    }
  }

  lemma {:induction false} Absent(list: seq<Block>, p: nat, n: nat)
    requires Block(p, n) !in list
    ensures WithoutFirst(list, p, n + 1) == WithoutFirst(list, p, n)
  {
    if list != [] {
      assert list[0] in list;
      Absent(list[1..], p, n);
    }
  }

  lemma {:induction false} AllGone(list: seq<Block>, p: nat, n: nat)
    requires forall b | b in list && b.page == p :: b.idx < n
    ensures WithoutFirst(list, p, n) == WithoutPage(list, p)
  {
    if list != [] {
      assert list[0] in list;
      AllGone(list[1..], p, n);
    }
  }

  class Allocator {
    const pool: Bitmap
    var arenas: map<nat, Arena>
    var free: seq<seq<Block>>
    ghost var foreign: set<nat>
    ghost var live: map<Block, nat>
    ghost var owner: map<nat, nat>

    ghost predicate Valid()
      reads this, pool
    {
      pool.Valid()
    }

    ghost function S(): Heap
      requires Valid()
      reads this, pool, pool.words
    {
      Heap(pool.Bits(), arenas, free, foreign, live, owner)
    }

    /** malloc_init, over a pool of the given number of pages. */
    constructor (pages: nat)
      ensures Valid() && S() == Fresh(pages)
    {
      pool := new Bitmap(pages);
      arenas, free := map[], [[], [], [], [], [], [], []];
      foreign, live, owner := {}, map[], map[];
      new;
      assert pool.Bits() == seq(pages, _ => false);
    }

    /** The search for a descriptor in malloc. */
    static method FindDesc(size: nat) returns (d: nat)
      ensures d == DescFor(size)
    {
      d := 0;
      while d < DESC_CNT && BlockSize(d) < size
        invariant 0 <= d <= DESC_CNT && forall e: nat | e < d :: BlockSize(e) < size
      {
        d := d + 1;
      }
      DescIs(size, d);
    }

    /** palloc_get_multiple from the kernel pool. */
    method GetPages(n: nat) returns (r: Found)
      requires Valid()
      modifies pool.words
      ensures r == PallocGet(old(pool.Bits()), n)
      ensures pool.Bits() == if r.At? then SetRange(old(pool.Bits()), r.idx, n, true) else old(pool.Bits())
    {
      if n == 0 {
        return Error;
      }
      r := pool.ScanAndFlip(0, n, false);
    }

    /** A new arena for descriptor d in page p, its blocks appended to the free list one by one. */
    method MakeArena(d: nat, p: nat)
      requires d < DESC_CNT && d < |free|
      modifies this
      ensures arenas == old(arenas)[p := Small(d, PerArena(d))]
              && free == old(free)[d := old(free)[d] + Blocks(p, PerArena(d))]
      ensures foreign == old(foreign) && live == old(live) && owner == old(owner)[p := p]
    {
      arenas := arenas[p := Small(d, PerArena(d))];
      owner := owner[p := p];
      var i := 0;
      while i < PerArena(d)
        invariant 0 <= i <= PerArena(d) && |free| == |old(free)|
                  && free[d] == old(free)[d] + Blocks(p, PerArena(d))[..i]
        invariant forall e | 0 <= e < |free| && e != d :: free[e] == old(free)[e]
        modifies this`free
      {
        free := free[d := free[d] + [Block(p, i)]];
        assert Blocks(p, PerArena(d))[..i + 1] == Blocks(p, PerArena(d))[..i] + [Block(p, i)];
        i := i + 1;
      }
      assert Blocks(p, PerArena(d))[..i] == Blocks(p, PerArena(d));
      assert free == old(free)[d := free[d]];
    }

    /** malloc */
    method Allocate(size: nat) returns (r: Pointer)
      requires Valid() && Inv(S())
      modifies this, pool.words
      ensures Valid() && (S(), r) == Malloc.Malloc(old(S()), size)
    {
      hide Inv, PageCnt, Scan, SetRange, BitsOf, Blocks, Pages, PallocGet;
      ghost var h := S();
      ListsThere(h);
      if size == 0 {
        return Null;
      }
      var d := FindDesc(size);
      if d == DESC_CNT {
        var n := PageCnt(size);
        var a := GetPages(n);
        if a.Error? {
          return Null;
        }
        arenas := arenas[a.idx := Big(n)];
        live := live[Block(a.idx, 0) := size];
        owner := Give(owner, a.idx, n);
        return To(Address(Big(n), Block(a.idx, 0)));
      }
      if free[d] == [] {
        var a := GetPages(1);
        if a.Error? {
          return Null;
        }
        MakeArena(d, a.idx);
        NewArenaSound(h, d, a.idx);
        NewArenaNonempty(h, d, a.idx);
        assert S() == NewArena(h, d, a.idx);
      }
      ghost var h1 := S();
      PopSound(h1, d, size);
      var b := free[d][0];
      free := free[d := free[d][1..]];
      r := To(Address(arenas[b.page], b));
      arenas := arenas[b.page := arenas[b.page].(freeCnt := arenas[b.page].freeCnt - 1)];
      live := live[b := size];
      assert S() == Pop(h1, d, size);
    }

    /** palloc_free_multiple, whose assertion is the requirement. */
    method FreePages(p: nat, n: nat)
      requires Valid() && AllAre(pool.Bits(), p, n, true)
      modifies pool.words
      ensures pool.Bits() == SetRange(old(pool.Bits()), p, n, false)
    {
      pool.SetMultiple(p, n, false);
    }

    /** free */
    method Release(address: nat)
      requires Valid() && Inv(S()) && IsLive(S(), address)
      modifies this, pool.words
      ensures Valid() && S() == Free(old(S()), address)
    {
      hide Sound, BusyOk, SetRange, BitsOf, Pages, WithoutPage, IsLive, PageOf, IndexOf, AllAre;
      ghost var h := S();
      LiveDecodes(h, address);
      var p := PageOf(address);
      var a := arenas[p];
      if a.Big? {
        FreeBigSound(h, p);
        FreePages(p, a.pages);
        arenas := arenas - {p};
        live := live - {Block(p, 0)};
        owner := owner - Pages(p, a.pages);
      } else {
        var b := Block(p, IndexOf(a, address));
        PushSound(h, b);
        free := free[a.desc := [b] + free[a.desc]];
        arenas := arenas[p := a.(freeCnt := a.freeCnt + 1)];
        live := live - {b};
        ghost var h1 := S();
        assert h1 == Push(h, b);
        if a.freeCnt + 1 >= PerArena(a.desc) {
          ReclaimSound(h1, p);
          RemoveBlocks(p, a.desc);
          FreePages(p, 1);
          arenas := arenas - {p};
          owner := owner - {p};
        }
      }
    }

    /** free's loop that takes a wholly free arena's blocks off the free list. */
    method RemoveBlocks(p: nat, d: nat)
      requires Valid() && Sound(S()) && d < DESC_CNT
      modifies this`free
      ensures |old(free)| == DESC_CNT && free == old(free)[d := WithoutPage(old(free)[d], p)]
    {
      hide PagesOk, ArenasOk, LiveOk, BitsOf, WithoutFirst, WithoutPage, Unlisted;
      ListAt(arenas, free, d);
      ListsShape(arenas, free);
      ghost var list := free[d];
      NoneYet(list, p);
      var i := 0;
      while i < PerArena(d)
        invariant 0 <= i <= PerArena(d) && free == old(free)[d := WithoutFirst(list, p, i)]
      {
        OneMore(list, p, i);
        free := free[d := Unlisted(free[d], Block(p, i))];
        i := i + 1;
      }
      AllGone(list, p, i);
    }
  }

  lemma ListsThere(h: Heap)
    requires Inv(h)
    ensures |h.free| == DESC_CNT && Sound(h)
  {
    hide PagesOk, ArenasOk, LiveOk;
  }
}
