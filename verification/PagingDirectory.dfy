/** The paging model's map of page table entries is what the two-level page directories of
    src/userprog/pagedir.c hold: each change that the virtual memory code makes to the map is
    what the calls on the directory do. */
module PagingDirectory {
  import opened Basics
  import opened Paging
  import opened PagingSteps
  import opened PagingMachine
  import opened PagingRuns
  import opened PagingMappings
  import D = PageDirectory
  import H = HashTable

  /** The n pages of the user pool have addresses of their own. */
  ghost predicate Placed(at: nat -> D.Word, n: nat) {
    && (forall p: nat | p < n :: D.Aligned(at(p)))
    && (forall p: nat, q: nat | p < n && q < n && at(p) == at(q) :: p == q)
  }

  function Digit(n: nat): bv4 {
    (n % 16) as bv4
  }

  lemma DigitIs(n: nat, k: nat)
    requires Digit(n) == Digit(k)
    ensures n % 16 == k % 16
  {
    assert Digit(n) as nat == n % 16 && Digit(k) as nat == k % 16;
  }

  /** The address of a physical page by the five digits of its number. */
  function PageAddress(a: bv4, b: bv4, c: bv4, d: bv4, e: bv4): D.Word {
    ((a as D.Word) << 28) | ((b as D.Word) << 24) | ((c as D.Word) << 20) | ((d as D.Word) << 16)
      | ((e as D.Word) << 12)
  }

  lemma PageAligned(a: bv4, b: bv4, c: bv4, d: bv4, e: bv4)
    ensures D.Aligned(PageAddress(a, b, c, d, e))
  {
  }

  lemma PageDigits(a: bv4, b: bv4, c: bv4, d: bv4, e: bv4, a': bv4, b': bv4, c': bv4, d': bv4, e': bv4)
    requires PageAddress(a, b, c, d, e) == PageAddress(a', b', c', d', e')
    ensures a == a' && b == b' && c == c' && d == d' && e == e'
  {
  }

  /** palloc's addresses: page p of a pool is p pages above its first. */
  function PoolAddress(first: nat, p: nat): D.Word {
    var n := first + p;
    PageAddress(Digit(n / 0x1_0000), Digit(n / 0x1000), Digit(n / 0x100), Digit(n / 0x10), Digit(n))
  }

  lemma PoolAddresses(first: nat, p: nat, q: nat)
    requires first + p < 0x10_0000 && first + q < 0x10_0000 && PoolAddress(first, p) == PoolAddress(first, q)
    ensures p == q
  {
    hide PageAddress, Digit;
    var n, k := first + p, first + q;
    PageDigits(Digit(n / 0x1_0000), Digit(n / 0x1000), Digit(n / 0x100), Digit(n / 0x10), Digit(n),
               Digit(k / 0x1_0000), Digit(k / 0x1000), Digit(k / 0x100), Digit(k / 0x10), Digit(k));
    DigitIs(n / 0x1_0000, k / 0x1_0000);
    DigitIs(n / 0x1000, k / 0x1000);
    DigitIs(n / 0x100, k / 0x100);
    DigitIs(n / 0x10, k / 0x10);
    DigitIs(n, k);
    SameNumber(n, k);
  }

  lemma SameNumber(n: nat, k: nat)
    requires n < 0x10_0000 && k < 0x10_0000 && n / 0x1_0000 % 16 == k / 0x1_0000 % 16
    requires n / 0x1000 % 16 == k / 0x1000 % 16 && n / 0x100 % 16 == k / 0x100 % 16
             && n / 0x10 % 16 == k / 0x10 % 16 && n % 16 == k % 16
    ensures n == k
  {
    assert n / 0x1_0000 == k / 0x1_0000;
    NextDigit(n, k, 0x1000);
    NextDigit(n, k, 0x100);
    NextDigit(n, k, 0x10);
    NextDigit(n, k, 1);
  }

  lemma NextDigit(n: nat, k: nat, u: nat)
    requires u == 0x1000 || u == 0x100 || u == 0x10 || u == 1
    requires n / (16 * u) == k / (16 * u) && n / u % 16 == k / u % 16
    ensures n / u == k / u
  {
    assert n / u / 16 == n / (16 * u) && k / u / 16 == k / (16 * u);
  }

  /** Every pool that physical memory can hold is placed. */
  lemma PoolIsPlaced(first: nat, n: nat)
    requires first + n <= 0x10_0000
    ensures Placed((p: nat) => PoolAddress(first, p), n)
  {
    hide PageAddress, D.Aligned, Digit;
    forall p: nat | p < n ensures D.Aligned(PoolAddress(first, p)) {
      var n := first + p;
      PageAligned(Digit(n / 0x1_0000), Digit(n / 0x1000), Digit(n / 0x100), Digit(n / 0x10), Digit(n));
    }
    forall p: nat, q: nat | p < n && q < n && PoolAddress(first, p) == PoolAddress(first, q) ensures p == q {
      PoolAddresses(first, p, q);
    }
  }

  /** Entry w is page k's entry of the map; a page without one has an entry of zeros. */
  ghost predicate Matches(w: D.Word, pd: map<Key, Pte>, k: Key, at: nat -> D.Word) {
    D.Decode(w) ==
    if k in pd then D.Entry(at(pd[k].kpage), pd[k].present, pd[k].writable, true, pd[k].accessed, pd[k].dirty)
    else D.Entry(0, false, false, false, false, false)
  }

  /** The directory holds what the map has for the pages of thread t. */
  ghost predicate Holds(words: seq<D.Word>, tables: map<D.Addr, seq<D.Word>>, t: nat, pd: map<Key, Pte>,
      at: nat -> D.Word)
    requires D.WellFormed(words, tables)
  {
    forall va: nat | va < PHYS_BASE :: Matches(D.PteAt(words, tables, va), pd, Key(t, va / PGSIZE), at)
  }

  lemma {:induction false} OneMatches(words: seq<D.Word>, tables: map<D.Addr, seq<D.Word>>,
                                      words': seq<D.Word>, tables': map<D.Addr, seq<D.Word>>,
                                      t: nat, pd: map<Key, Pte>, pd': map<Key, Pte>, va: nat, at: nat -> D.Word)
    requires D.WellFormed(words, tables) && D.WellFormed(words', tables') && va < PHYS_BASE
    requires Holds(words, tables, t, pd, at) && D.OthersSame(words, tables, words', tables', va)
    requires Matches(D.PteAt(words', tables', va), pd', Key(t, va / PGSIZE), at)
    requires forall k | k != Key(t, va / PGSIZE) :: (k in pd <==> k in pd') && (k in pd ==> pd'[k] == pd[k])
    ensures Holds(words', tables', t, pd', at)
  {
    hide Matches, D.PteAt, D.WellFormed;
    forall vb: nat | vb < PHYS_BASE ensures Matches(D.PteAt(words', tables', vb), pd', Key(t, vb / PGSIZE), at) {
      if vb / PGSIZE == va / PGSIZE {
        SamePage(words', tables', va, vb);
      } else {
        assert D.PteAt(words', tables', vb) == D.PteAt(words, tables, vb);
        SameMatch(D.PteAt(words, tables, vb), pd, pd', Key(t, vb / PGSIZE), at);
      }
    }
  }

  lemma SameMatch(w: D.Word, pd: map<Key, Pte>, pd': map<Key, Pte>, k: Key, at: nat -> D.Word)
    requires Matches(w, pd, k, at) && (k in pd <==> k in pd') && (k in pd ==> pd'[k] == pd[k])
    ensures Matches(w, pd', k, at)
  {
    hide D.Decode;
  }

  /** Addresses in one page have one entry. */
  lemma SamePage(words: seq<D.Word>, tables: map<D.Addr, seq<D.Word>>, va: nat, vb: nat)
    requires D.WellFormed(words, tables) && va < PHYS_BASE && vb < PHYS_BASE && va / PGSIZE == vb / PGSIZE
    ensures D.PteAt(words, tables, vb) == D.PteAt(words, tables, va)
  {
    hide D.And, H.BitAnd;
    D.PtNoIs(va);
    D.PtNoIs(vb);
  }

  // ---- the calls --------------------------------------------------------------------------------------

  lemma MatchesPage(words: seq<D.Word>, tables: map<D.Addr, seq<D.Word>>, t: nat, pd: map<Key, Pte>, va: nat,
      at: nat -> D.Word)
    requires D.WellFormed(words, tables) && va < PHYS_BASE && Holds(words, tables, t, pd, at)
    ensures Matches(D.PteAt(words, tables, va), pd, Key(t, va / PGSIZE), at)
  {
    hide D.WellFormed, Matches, D.PteAt;
  }

  /** A new directory holds the map of a process without page table entries ... */
  lemma CreatedHolds(words: seq<D.Word>, tables: map<D.Addr, seq<D.Word>>, t: nat, pd: map<Key, Pte>, at: nat -> D.Word)
    requires D.WellFormed(words, tables) && forall va: nat | va < PHYS_BASE :: D.PteAt(words, tables, va) == 0
    requires forall k | k in pd :: k.owner != t
    ensures Holds(words, tables, t, pd, at)
  {
    hide D.WellFormed, D.PteAt, D.Decode;
    D.ZeroEntry();
  }

  /** ... and so does the new directory of a program that is started after any run. */
  lemma StartHolds(m: Machine, evs: seq<Event>, t: nat, f: nat, inode: nat, pos: nat, image: map<nat, Segment>,
                   words: seq<D.Word>, tables: map<D.Addr, seq<D.Word>>, at: nat -> D.Word)
    requires RunFromBoot(m, evs) && Enabled(Reached(m, evs), Exec(t, f, inode, pos, image))
    requires D.WellFormed(words, tables) && forall va: nat | va < PHYS_BASE :: D.PteAt(words, tables, va) == 0
    ensures Holds(words, tables, t, Reached(m, evs).vm.pd, at)
  {
    hide RunFromBoot, Reached, Whole, D.WellFormed, D.PteAt, Holds;
    ReachedKeeps(m, evs);
    CreatedHolds(words, tables, t, Reached(m, evs).vm.pd, at);
  }

  /** pagedir_install_page with a frame of the user pool: Kernel.Install's change of the map. */
  method InstallPage(dir: D.PageDir, t: nat, va: nat, p: nat, writable: bool, memory: Option<D.Word>, at: nat -> D.Word,
                     ghost n: nat, ghost pd: map<Key, Pte>)
    returns (ok: bool)
    requires dir.Valid() && va < PHYS_BASE && Placed(at, n) && p < n && Holds(dir.pd, dir.tables, t, pd, at)
    requires memory.Some? ==> dir.Unused(memory.value)
    requires Key(t, va / PGSIZE) in pd ==> !pd[Key(t, va / PGSIZE)].present
    modifies dir
    ensures dir.Valid() && (Key(t, va / PGSIZE) in pd || memory.Some? ==> ok)
    ensures var pd' := if ok then pd[Key(t, va / PGSIZE) := Pte(p, true, writable, false, false)] else pd;
            Holds(dir.pd, dir.tables, t, pd', at)
  {
    hide D.And, D.Decode, D.PteAt, D.WellFormed, Holds;
    ghost var words, tables := dir.pd, dir.tables;
    MatchesPage(words, tables, t, pd, va, at);
    if Key(t, va / PGSIZE) in pd { HasTable(words, tables, pd, Key(t, va / PGSIZE), va, at); }
    ok := dir.SetPage(va, at(p), writable, memory);
    ghost var pd' := if ok then pd[Key(t, va / PGSIZE) := Pte(p, true, writable, false, false)] else pd;
    OneMatches(words, tables, dir.pd, dir.tables, t, pd, pd', va, at);
  }

  lemma HasTable(words: seq<D.Word>, tables: map<D.Addr, seq<D.Word>>, pd: map<Key, Pte>, k: Key, va: nat,
      at: nat -> D.Word)
    requires D.WellFormed(words, tables) && va < PHYS_BASE && Matches(D.PteAt(words, tables, va), pd, k, at) && k in pd
    ensures D.PdNo(va) < |words| && words[D.PdNo(va)] != 0
  {
    hide D.And;
    D.PagesApart(va, va);
    D.ZeroEntry();
  }

  /** pagedir_clear_page: the map's ClearPage. */
  method RemovePage(dir: D.PageDir, t: nat, va: nat, ghost at: nat -> D.Word, ghost pd: map<Key, Pte>)
    requires dir.Valid() && va < PHYS_BASE && Holds(dir.pd, dir.tables, t, pd, at)
    modifies dir
    ensures dir.Valid() && Holds(dir.pd, dir.tables, t, ClearPage(pd, Key(t, va / PGSIZE)), at)
  {
    hide D.And, D.Decode, D.PteAt, D.WellFormed, Holds;
    ghost var words, tables := dir.pd, dir.tables;
    MatchesPage(words, tables, t, pd, va, at);
    dir.ClearPage(va);
    OneMatches(words, tables, dir.pd, dir.tables, t, pd, ClearPage(pd, Key(t, va / PGSIZE)), va, at);
  }

  /** pagedir_set_accessed to false, as evict_frame calls it: the map's ClearAccessed for one page. */
  method GiveSecondChance(dir: D.PageDir, t: nat, va: nat, ghost at: nat -> D.Word, ghost pd: map<Key, Pte>)
    requires dir.Valid() && va < PHYS_BASE && Holds(dir.pd, dir.tables, t, pd, at)
    modifies dir
    ensures dir.Valid() && Holds(dir.pd, dir.tables, t, ClearAccessed(pd, {Key(t, va / PGSIZE)}), at)
  {
    hide D.And, D.Decode, D.PteAt, D.WellFormed, Holds;
    ghost var words, tables := dir.pd, dir.tables;
    MatchesPage(words, tables, t, pd, va, at);
    if Key(t, va / PGSIZE) in pd { HasTable(words, tables, pd, Key(t, va / PGSIZE), va, at); }
    dir.SetAccessed(va, false);
    OneMatches(words, tables, dir.pd, dir.tables, t, pd, ClearAccessed(pd, {Key(t, va / PGSIZE)}), va, at);
  }

  /** pagedir_is_dirty and pagedir_is_accessed: what the paging transitions look at. */
  method LookAt(dir: D.PageDir, t: nat, va: nat, ghost at: nat -> D.Word, ghost s: Vm) returns (dirty: bool,
      accessed: bool)
    requires dir.Valid() && va < PHYS_BASE && Holds(dir.pd, dir.tables, t, s.pd, at)
    ensures dirty == Dirty(s, Key(t, va / PGSIZE)) && accessed == Accessed(s, Key(t, va / PGSIZE))
  {
    hide D.And, D.Decode, D.PteAt, D.WellFormed, Holds;
    MatchesPage(dir.pd, dir.tables, t, s.pd, va, at);
    dirty := dir.IsDirty(va);
    accessed := dir.IsAccessed(va);
  }

  // ---- destroying -------------------------------------------------------------------------------------

  /** The address that an entry is for. */
  function AddressFor(i: nat, j: nat): nat {
    0x40_0000 * i + PGSIZE * j
  }

  lemma EntryFor(i: nat, j: nat)
    requires i < D.USER_ENTRIES && j < D.ENTRIES
    ensures AddressFor(i, j) < PHYS_BASE && D.PdNo(AddressFor(i, j)) == i && D.PtNo(AddressFor(i, j)) == j
  {
    hide H.BitAnd, D.PtNo;
    D.PtNoIs(AddressFor(i, j));
    PageFor(i, j);
  }

  lemma PageFor(i: nat, j: nat)
    requires i < D.USER_ENTRIES && j < D.ENTRIES
    ensures AddressFor(i, j) / 0x1000 == 0x400 * i + j && AddressFor(i, j) / 0x40_0000 == i
    ensures AddressFor(i, j) < PHYS_BASE && (0x400 * i + j) % 0x400 == j
  {
  }

  lemma MappedIsPresent(words: seq<D.Word>, tables: map<D.Addr, seq<D.Word>>, t: nat, pd: map<Key, Pte>,
      at: nat -> D.Word,
                        i: nat, j: nat, f: D.Addr)
    requires D.WellFormed(words, tables) && Holds(words, tables, t, pd, at) && D.Maps(words, tables, i, j, f)
    ensures var k := Key(t, AddressFor(i, j) / PGSIZE); k in pd && pd[k].present && f == D.Addr(at(pd[k].kpage))
  {
    hide Holds;
    EntryFor(i, j);
    MatchesPage(words, tables, t, pd, AddressFor(i, j), at);
    hide D.And, D.PtNo, D.PdNo;
  }

  /** A present entry is for a page of the pool. */
  lemma InPool(m: Machine, k: Key)
    requires MachineOk(m) && k in m.vm.pd && m.vm.pd[k].present
    ensures m.vm.pd[k].kpage < |m.vm.used|
  {
    hide MachineOk;
    Directory(m, k);
    MachineIsGood(m);
    PoolHasFrames(m.vm, m.vm.pd[k].kpage);
  }

  lemma PoolHasFrames(s: Vm, p: nat)
    requires Inv(s) && p in s.frames
    ensures p < |s.used|
  {
  }

  /** In every good state of the machine, destroying a process's directory frees each page once. */
  lemma DestroyFreesOnce(m: Machine, t: nat, words: seq<D.Word>, tables: map<D.Addr, seq<D.Word>>, directory: D.Addr,
                         at: nat -> D.Word)
    requires MachineOk(m) && D.TablesOk(words, tables) && directory !in tables && Placed(at, |m.vm.used|)
    requires Holds(words, tables, t, m.vm.pd, at)
    requires forall p: nat | p < |m.vm.used| :: D.Addr(at(p)) !in tables && D.Addr(at(p)) != directory
    ensures NoDuplicates(D.Destroyed(words, tables, directory))
  {
    hide MachineOk, Holds, D.Maps, D.Destroyed, D.And, AddressFor;
    forall i: nat, j: nat, k: nat, l: nat, f | D.Maps(words, tables, i, j, f)
        && D.Maps(words, tables, k, l, f) ensures i == k && j == l {
      MappedInPool(m, t, words, tables, at, i, j, f);
      MappedInPool(m, t, words, tables, at, k, l, f);
      Directory(m, Key(t, AddressFor(i, j) / PGSIZE));
      Directory(m, Key(t, AddressFor(k, l) / PGSIZE));
      SameEntryFor(words, tables, i, j, k, l, f);
    }
    forall i: nat, j: nat, f | D.Maps(words, tables, i, j, f) ensures f != directory && f !in tables {
      MappedInPool(m, t, words, tables, at, i, j, f);
    }
    assert D.FramesApart(words, tables, directory);
    D.FreedOnce(words, tables, directory);
  }

  lemma MappedInPool(m: Machine, t: nat, words: seq<D.Word>, tables: map<D.Addr, seq<D.Word>>, at: nat -> D.Word,
                     i: nat, j: nat, f: D.Addr)
    requires MachineOk(m) && D.WellFormed(words, tables) && Holds(words, tables, t, m.vm.pd, at)
             && D.Maps(words, tables, i, j, f)
    ensures var k, pd := Key(t, AddressFor(i, j) / PGSIZE), m.vm.pd;
            k in pd && pd[k].present && pd[k].kpage < |m.vm.used| && f == D.Addr(at(pd[k].kpage))
  {
    hide MachineOk, Holds, D.Maps, AddressFor;
    MappedIsPresent(words, tables, t, m.vm.pd, at, i, j, f);
    InPool(m, Key(t, AddressFor(i, j) / PGSIZE));
  }

  /** When a process has ended, pagedir_destroy frees the page tables and the directory, each
      once, and none of the frames: those frame_free has given back already. */
  lemma ExitFreesTables(m: Machine, t: nat, mapped: seq<Key>, rest: seq<Key>, words: seq<D.Word>,
                        tables: map<D.Addr, seq<D.Word>>, directory: D.Addr, at: nat -> D.Word)
    requires MachineOk(m) && t in m.exe && PagesOfThread(m.vm, t, mapped, rest)
    requires D.TablesOk(words, tables) && directory !in tables
    requires Holds(words, tables, t, Vacated(m, t, mapped, rest).pd, at)
    ensures forall p :: p in D.Destroyed(words, tables, directory) <==>
              p == directory || exists i: nat :: D.IsTable(words, i, p)
    ensures NoDuplicates(D.Destroyed(words, tables, directory))
  {
    hide MachineOk, PagesOfThread, Vacated, Holds, D.Maps, D.IsTable, D.Destroyed, D.And, AddressFor;
    forall i: nat, j: nat, f ensures !D.Maps(words, tables, i, j, f) {
      if D.Maps(words, tables, i, j, f) {
        MappedIsPresent(words, tables, t, Vacated(m, t, mapped, rest).pd, at, i, j, f);
        NoEntries(m, t, mapped, rest, Key(t, AddressFor(i, j) / PGSIZE));
      }
    }
    assert D.FramesApart(words, tables, directory);
    D.FreedOnce(words, tables, directory);
  }

  /** A process that has ended has no page present. */
  lemma NoEntries(m: Machine, t: nat, mapped: seq<Key>, rest: seq<Key>, k: Key)
    requires MachineOk(m) && t in m.exe && PagesOfThread(m.vm, t, mapped, rest) && k.owner == t
    ensures k in Vacated(m, t, mapped, rest).pd ==> !Vacated(m, t, mapped, rest).pd[k].present
  {
    hide Inv, ExeOk, MapsOk, PagesOfThread, Vacated, FilesLeft, PoolOk, TableOk, OwnersOk, SwapOk, SwapSized;
    VacatedKeeps(m, t, mapped, rest);
  }

  lemma SameEntryFor(words: seq<D.Word>, tables: map<D.Addr, seq<D.Word>>, i: nat, j: nat, k: nat, l: nat, f: D.Addr)
    requires D.WellFormed(words, tables) && D.Maps(words, tables, i, j, f) && D.Maps(words, tables, k, l, f)
    requires AddressFor(i, j) / PGSIZE == AddressFor(k, l) / PGSIZE
    ensures i == k && j == l
  {
    hide D.And, D.PageOf;
  }
}
