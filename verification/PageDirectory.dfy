/** Two-level page tables (src/userprog/pagedir.c) with the entry format of src/threads/pte.h,
    which is that of section 3.7.6 of the IA-32 manual, volume 3A.  Frames and page tables are
    named by their physical addresses. */
module PageDirectory {
  import opened Basics
  import opened Arithmetic
  import opened HashTable

  type Word = bv32

  /** The physical address of a page. */
  datatype Addr = Addr(bits: Word)

  /** An address in a frame. */
  datatype Place = Place(frame: Addr, offset: nat)

  const ENTRIES: nat := 1024
  /** pd_no (PHYS_BASE): the entries below are the user's. */
  const USER_ENTRIES: nat := 768
  const PHYS_BASE: nat := 0xC000_0000
  const PGSIZE: nat := 4096

  const PTE_ADDR: Word := 0xffff_f000
  const PTE_P: Word := 0x1
  const PTE_W: Word := 0x2
  const PTE_U: Word := 0x4
  const PTE_A: Word := 0x20
  const PTE_D: Word := 0x40

  // ---- addresses ------------------------------------------------------------------------------

  /** pd_no: the address shifted right by 22. */
  function PdNo(va: nat): nat {
    va / 0x40_0000
  }

  /** pt_no: the page table bits of the address, shifted right by 12. */
  function PtNo(va: nat): nat {
    BitAnd(va, 0x3f_f000) / 0x1000
  }

  lemma BitAndStep(a: nat, b: nat, c: nat, d: nat)
    requires a / 2 == c && b / 2 == d && b % 2 == 0
    ensures BitAnd(a, b) == 2 * BitAnd(c, d)
  {
  }

  lemma MaskDouble(a: nat, m: nat, c: nat, n: nat)
    requires a / 2 == c && n == 2 * m
    ensures BitAnd(a, n) == 2 * BitAnd(c, m)
  {
    hide BitAnd;
    BitAndStep(a, n, c, m);
  }

  lemma MaskHigher(a: nat, m: nat, c: nat, n: nat)
    requires a / 16 == c && n == 16 * m
    ensures BitAnd(a, n) == 16 * BitAnd(c, m)
  {
    hide BitAnd;
    var a1, a2, a3 := a / 2, a / 4, a / 8;
    MaskDouble(a, 8 * m, a1, n);
    MaskDouble(a1, 4 * m, a2, 8 * m);
    MaskDouble(a2, 2 * m, a3, 4 * m);
    MaskDouble(a3, m, c, 2 * m);
  }

  /** The page table index is the page number modulo 1024. */
  lemma PtNoIs(va: nat)
    ensures PtNo(va) == va / 0x1000 % 0x400
  {
    hide BitAnd;
    Pow2Values();
    Pow2Sum(8, 2);
    MaskHigher(va, 0x3_ff00, va / 0x10, 0x3f_f000);
    MaskHigher(va / 0x10, 0x3ff0, va / 0x100, 0x3_ff00);
    MaskHigher(va / 0x100, 0x3ff, va / 0x1000, 0x3ff0);
    MaskIsRemainder(va / 0x1000, 10);
  }

  /** Different pages have different indices, and user pages lie in the user's entries. */
  lemma PagesApart(va: nat, vb: nat)
    ensures PtNo(va) < ENTRIES
    ensures va / PGSIZE != vb / PGSIZE ==> PdNo(va) != PdNo(vb) || PtNo(va) != PtNo(vb)
    ensures va < PHYS_BASE ==> PdNo(va) < USER_ENTRIES
  {
    hide BitAnd, PtNo;
    PtNoIs(va);
    PtNoIs(vb);
    PageNumber(va);
    PageNumber(vb);
  }

  /** A page number is its directory index and its table index. */
  lemma PageNumber(va: nat)
    ensures va / 0x1000 == 0x400 * PdNo(va) + va / 0x1000 % 0x400
  {
    assert va / 0x1000 / 0x400 == va / 0x40_0000;
  }

  // ---- entries --------------------------------------------------------------------------------

  /** What an entry says. */
  datatype Entry = Entry(frame: Word, present: bool, writable: bool, user: bool, accessed: bool, dirty: bool)

  function And(w: Word, m: Word): Word {
    w & m
  }

  function Or(w: Word, m: Word): Word {
    w | m
  }

  function AndNot(w: Word, m: Word): Word {
    w & !m
  }

  function Decode(w: Word): Entry {
    Entry(And(w, PTE_ADDR), And(w, PTE_P) != 0, And(w, PTE_W) != 0, And(w, PTE_U) != 0, And(w, PTE_A) != 0,
        And(w, PTE_D) != 0)
  }

  predicate Aligned(frame: Word) {
    And(frame, PTE_ADDR) == frame
  }

  /** pde_get_pt and pte_get_page: the page that an entry points to. */
  function PageOf(w: Word): Addr {
    Addr(And(w, PTE_ADDR))
  }

  /** pte_create_user */
  function PteCreateUser(frame: Word, writable: bool): Word {
    Or(Or(Or(frame, PTE_P), if writable then PTE_W else 0), PTE_U)
  }

  /** pde_create */
  function PdeCreate(table: Word): Word {
    Or(Or(Or(table, PTE_U), PTE_P), PTE_W)
  }

  /** A new entry names its frame, is present and for the user, and is neither accessed nor dirty. */
  lemma CreatedEntry(frame: Word, writable: bool)
    requires Aligned(frame)
    ensures Decode(PteCreateUser(frame, writable)) == Entry(frame, true, writable, true, false, false)
  {
  }

  lemma CreatedPdeBits(table: Word)
    requires Aligned(table)
    ensures And(PdeCreate(table), PTE_ADDR) == table && And(PdeCreate(table), PTE_P) != 0 && PdeCreate(table) != 0
  {
  }

  lemma CreatedPde(table: Word)
    requires Aligned(table)
    ensures PageOf(PdeCreate(table)) == Addr(table) && And(PdeCreate(table), PTE_P) != 0 && PdeCreate(table) != 0
  {
    hide And, PdeCreate, Aligned;
    CreatedPdeBits(table);
  }

  lemma ClearedEntry(w: Word)
    ensures Decode(AndNot(w, PTE_P)) == Decode(w).(present := false)
  {
  }

  lemma AccessedEntry(w: Word, on: bool)
    ensures Decode(if on then Or(w, PTE_A) else AndNot(w, PTE_A)) == Decode(w).(accessed := on)
  {
  }

  lemma DirtyEntry(w: Word, on: bool)
    ensures Decode(if on then Or(w, PTE_D) else AndNot(w, PTE_D)) == Decode(w).(dirty := on)
  {
  }

  // ---- destroying -----------------------------------------------------------------------------

  /** A page that pagedir_destroy frees: the one entry j of table i maps, or table i itself. */
  datatype Freed = Page(i: nat, j: nat, frame: Word) | Table(i: nat, table: Addr)

  function FreedPages(t: seq<Word>, i: nat, n: nat): seq<Freed>
    requires n <= |t|
  {
    if n == 0 then []
    else FreedPages(t, i, n - 1) + (if And(t[n - 1], PTE_P) != 0 then [Page(i, n - 1, And(t[n - 1], PTE_ADDR))] else [])
  }

  predicate WellFormed(pd: seq<Word>, tables: map<Addr, seq<Word>>) {
    && |pd| == ENTRIES
    && (forall i | 0 <= i < USER_ENTRIES && pd[i] != 0 ::
          And(pd[i], PTE_P) != 0 && PageOf(pd[i]) in tables && |tables[PageOf(pd[i])]| == ENTRIES)
  }

  function FreedBy(pd: seq<Word>, tables: map<Addr, seq<Word>>, n: nat): seq<Freed>
    requires WellFormed(pd, tables) && n <= USER_ENTRIES
  {
    if n == 0 then []
    else
      var t := PageOf(pd[n - 1]);
      FreedBy(pd, tables, n - 1) + if pd[n - 1] == 0 then []
          else FreedPages(tables[t], n - 1, ENTRIES) + [Table(n - 1, t)]
  }

  lemma {:induction false} PagesFreed(t: seq<Word>, i: nat, n: nat)
    requires n <= |t|
    ensures forall x | x in FreedPages(t, i, n) :: x.Page? && x.i == i && x.j < n
    ensures forall j: nat, f | Page(i, j, f) in FreedPages(t, i, n) :: And(t[j], PTE_P) != 0 && f == And(t[j], PTE_ADDR)
    ensures forall j: nat | j < n && And(t[j], PTE_P) != 0 :: Page(i, j, And(t[j], PTE_ADDR)) in FreedPages(t, i, n)
    ensures NoDuplicates(FreedPages(t, i, n))
  {
    hide And;
    if n > 0 {
      PagesFreed(t, i, n - 1);
    }
  }

  /** The entry that says an item is to be freed. */
  predicate ToFree(pd: seq<Word>, tables: map<Addr, seq<Word>>, n: nat, x: Freed)
    requires WellFormed(pd, tables) && n <= USER_ENTRIES
  {
    x.i < n && pd[x.i] != 0 &&
    var t := PageOf(pd[x.i]);
    match x
    case Page(_, j, f) => j < ENTRIES && And(tables[t][j], PTE_P) != 0 && f == And(tables[t][j], PTE_ADDR)
    case Table(_, f) => f == t
  }

  /** pagedir_destroy visits exactly the present entries and tables, each once. */
  lemma {:induction false} VisitedOnce(pd: seq<Word>, tables: map<Addr, seq<Word>>, n: nat)
    requires WellFormed(pd, tables) && n <= USER_ENTRIES
    ensures forall x :: x in FreedBy(pd, tables, n) <==> ToFree(pd, tables, n, x)
    ensures NoDuplicates(FreedBy(pd, tables, n))
  {
    hide And, FreedPages;
    if n > 0 {
      VisitedOnce(pd, tables, n - 1);
      if pd[n - 1] != 0 {
        var t := PageOf(pd[n - 1]);
        PagesFreed(tables[t], n - 1, ENTRIES);
        var before, last := FreedBy(pd, tables, n - 1), FreedPages(tables[t], n - 1, ENTRIES) + [Table(n - 1, t)];
        assert FreedBy(pd, tables, n) == before + last;
        Joins(before, last);
        forall x ensures x in FreedBy(pd, tables, n) <==> ToFree(pd, tables, n, x) {
          assert x in before + last <==> x in before || x in last;
        }
      }
    }
  }

  lemma Joins(a: seq<Freed>, b: seq<Freed>)
    requires NoDuplicates(a) && NoDuplicates(b) && forall x | x in a :: x !in b
    ensures NoDuplicates(a + b)
  {
    var c := a + b;
    forall p, q | 0 <= p < q < |c| ensures c[p] != c[q] {
      if p < |a| <= q {
        assert a[p] in a && b[q - |a|] in b;
      }
    }
  }

  /** The address that palloc_free_page gets. */
  function AddressOf(x: Freed): Addr {
    match x
    case Page(_, _, f) => Addr(f)
    case Table(_, t) => t
  }

  function AddressesOf(s: seq<Freed>): seq<Addr> {
    seq(|s|, i requires 0 <= i < |s| => AddressOf(s[i]))
  }

  /** All addresses that pagedir_destroy frees, in order: pages and tables, and last the
      directory itself. */
  function Destroyed(pd: seq<Word>, tables: map<Addr, seq<Word>>, directory: Addr): seq<Addr>
    requires WellFormed(pd, tables)
  {
    AddressesOf(FreedBy(pd, tables, USER_ENTRIES)) + [directory]
  }

  /** Entry j of table i is present and maps frame f. */
  predicate Maps(pd: seq<Word>, tables: map<Addr, seq<Word>>, i: nat, j: nat, f: Addr)
    requires WellFormed(pd, tables)
  {
    && i < USER_ENTRIES && j < ENTRIES && pd[i] != 0
    && var w := tables[PageOf(pd[i])][j]; And(w, PTE_P) != 0 && Addr(And(w, PTE_ADDR)) == f
  }

  predicate IsTable(pd: seq<Word>, i: nat, t: Addr)
    requires |pd| == ENTRIES
  {
    i < USER_ENTRIES && pd[i] != 0 && PageOf(pd[i]) == t
  }

  /** No frame is mapped twice, and none is a page table or the directory. */
  ghost predicate FramesApart(pd: seq<Word>, tables: map<Addr, seq<Word>>, directory: Addr)
    requires WellFormed(pd, tables)
  {
    && (forall i: nat, j: nat, k: nat, l: nat, f | Maps(pd, tables, i, j, f) && Maps(pd, tables, k, l, f) ::
       i == k && j == l)
    && (forall i: nat, j: nat, f | Maps(pd, tables, i, j, f) :: f != directory)
    && (forall i: nat, j: nat, k: nat, f | Maps(pd, tables, i, j, f) :: !IsTable(pd, k, f))
  }

  lemma DistinctAddresses(s: seq<Freed>, directory: Addr)
    requires NoDuplicates(s)
    ensures NoDuplicates(AddressesOf(s) + [directory]) <==>
            && (forall x, y | x in s && y in s && x != y :: AddressOf(x) != AddressOf(y))
            && (forall x | x in s :: AddressOf(x) != directory)
  {
    hide AddressOf;
    var a := AddressesOf(s) + [directory];
    if NoDuplicates(a) {
      forall x, y | x in s && y in s && x != y ensures AddressOf(x) != AddressOf(y) {
        var i :| 0 <= i < |s| && s[i] == x;
        var j :| 0 <= j < |s| && s[j] == y;
        assert a[i] == AddressOf(x) && a[j] == AddressOf(y);
      }
      forall x | x in s ensures AddressOf(x) != directory {
        var i :| 0 <= i < |s| && s[i] == x;
        assert a[i] == AddressOf(x) && a[|s|] == directory;
      }
    }
  }

  lemma VisitedPage(pd: seq<Word>, tables: map<Addr, seq<Word>>, x: Freed)
    requires WellFormed(pd, tables) && ToFree(pd, tables, USER_ENTRIES, x)
    ensures if x.Page? then Maps(pd, tables, x.i, x.j, AddressOf(x)) else IsTable(pd, x.i, AddressOf(x))
  {
    hide And;
  }

  lemma MappedIsVisited(pd: seq<Word>, tables: map<Addr, seq<Word>>, i: nat, j: nat, f: Addr)
    requires WellFormed(pd, tables) && Maps(pd, tables, i, j, f)
    ensures ToFree(pd, tables, USER_ENTRIES, Page(i, j, f.bits)) && AddressOf(Page(i, j, f.bits)) == f
  {
    hide And;
  }

  lemma TableIsVisited(pd: seq<Word>, tables: map<Addr, seq<Word>>, i: nat, t: Addr)
    requires WellFormed(pd, tables) && IsTable(pd, i, t)
    ensures ToFree(pd, tables, USER_ENTRIES, Table(i, t)) && AddressOf(Table(i, t)) == t
  {
    hide And;
  }

  /** Two visited items that are one page: then a frame is mapped twice or is a table. */
  lemma ItemsApart(pd: seq<Word>, tables: map<Addr, seq<Word>>, directory: Addr, x: Freed, y: Freed)
    requires TablesOk(pd, tables) && FramesApart(pd, tables, directory) && x != y
    requires ToFree(pd, tables, USER_ENTRIES, x) && ToFree(pd, tables, USER_ENTRIES, y)
    ensures AddressOf(x) != AddressOf(y)
  {
    VisitedPage(pd, tables, x);
    VisitedPage(pd, tables, y);
    hide And, PageOf, Maps;
  }

  /** What pagedir_destroy frees is exactly the mapped frames, the page tables and the directory;
      and it frees nothing twice if and only if no frame is mapped twice, and none is itself a
      page table or the directory. */
  lemma FreedOnce(pd: seq<Word>, tables: map<Addr, seq<Word>>, directory: Addr)
    requires TablesOk(pd, tables) && directory !in tables
    ensures forall p :: p in Destroyed(pd, tables, directory) <==>
              || p == directory
              || (exists i: nat :: IsTable(pd, i, p))
              || (exists i: nat, j: nat :: Maps(pd, tables, i, j, p))
    ensures NoDuplicates(Destroyed(pd, tables, directory)) <==> FramesApart(pd, tables, directory)
  {
    hide And, PageOf, FreedBy, Maps, IsTable, AddressOf, ToFree;
    VisitedOnce(pd, tables, USER_ENTRIES);
    var s := FreedBy(pd, tables, USER_ENTRIES);
    forall p ensures p in Destroyed(pd, tables, directory) <==>
        || p == directory || (exists i: nat :: IsTable(pd, i, p))
           || (exists i: nat, j: nat :: Maps(pd, tables, i, j, p))
    {
      FreedIs(pd, tables, directory, p);
    }
    DistinctAddresses(s, directory);
    if FramesApart(pd, tables, directory) {
      forall x, y | x in s && y in s && x != y ensures AddressOf(x) != AddressOf(y) {
        ItemsApart(pd, tables, directory, x, y);
      }
      forall x | x in s ensures AddressOf(x) != directory {
        NotDirectory(pd, tables, directory, x);
      }
    }
    if NoDuplicates(Destroyed(pd, tables, directory)) {
      OnceIsApart(pd, tables, directory);
    }
  }

  lemma FreedIs(pd: seq<Word>, tables: map<Addr, seq<Word>>, directory: Addr, p: Addr)
    requires WellFormed(pd, tables)
    ensures p in Destroyed(pd, tables, directory) <==>
            || p == directory
            || (exists i: nat :: IsTable(pd, i, p))
            || (exists i: nat, j: nat :: Maps(pd, tables, i, j, p))
  {
    hide And, PageOf, FreedBy, Maps, IsTable, AddressOf, ToFree;
    VisitedOnce(pd, tables, USER_ENTRIES);
    var s := FreedBy(pd, tables, USER_ENTRIES);
    var a := AddressesOf(s);
    if p in a {
      var n :| 0 <= n < |a| && a[n] == p;
      assert s[n] in s;
      VisitedPage(pd, tables, s[n]);
    }
    if i: nat :| IsTable(pd, i, p) {
      TableIsVisited(pd, tables, i, p);
      Visited(s, Table(i, p));
    }
    if i: nat, j: nat :| Maps(pd, tables, i, j, p) {
      MappedIsVisited(pd, tables, i, j, p);
      Visited(s, Page(i, j, p.bits));
    }
  }

  lemma Visited(s: seq<Freed>, x: Freed)
    requires x in s
    ensures AddressOf(x) in AddressesOf(s)
  {
    var n :| 0 <= n < |s| && s[n] == x;
    assert AddressesOf(s)[n] == AddressOf(x);
  }

  lemma NotDirectory(pd: seq<Word>, tables: map<Addr, seq<Word>>, directory: Addr, x: Freed)
    requires WellFormed(pd, tables) && FramesApart(pd, tables, directory) && directory !in tables
    requires ToFree(pd, tables, USER_ENTRIES, x)
    ensures AddressOf(x) != directory
  {
    VisitedPage(pd, tables, x);
    hide And, PageOf, Maps;
  }

  lemma OnceIsApart(pd: seq<Word>, tables: map<Addr, seq<Word>>, directory: Addr)
    requires WellFormed(pd, tables) && NoDuplicates(Destroyed(pd, tables, directory))
    ensures FramesApart(pd, tables, directory)
  {
    hide And, PageOf, FreedBy, Maps, IsTable, AddressOf, ToFree;
    VisitedOnce(pd, tables, USER_ENTRIES);
    var s := FreedBy(pd, tables, USER_ENTRIES);
    DistinctAddresses(s, directory);
    forall i: nat, j: nat, f | Maps(pd, tables, i, j, f) ensures f != directory && Page(i, j, f.bits) in s {
      MappedIsVisited(pd, tables, i, j, f);
    }
    forall i: nat, j: nat, k: nat, l: nat, f | Maps(pd, tables, i, j, f) && Maps(pd, tables, k, l, f) ensures i == k
        && j == l {
      MappedIsVisited(pd, tables, i, j, f);
      MappedIsVisited(pd, tables, k, l, f);
    }
    forall i: nat, j: nat, k: nat, f | Maps(pd, tables, i, j, f) ensures !IsTable(pd, k, f) {
      MappedIsVisited(pd, tables, i, j, f);
      if IsTable(pd, k, f) {
        TableIsVisited(pd, tables, k, f);
      }
    }
  }

  // ---- the code -------------------------------------------------------------------------------

  /** Every user entry of the directory has a table of its own. */
  ghost predicate TablesOk(pd: seq<Word>, tables: map<Addr, seq<Word>>) {
    && WellFormed(pd, tables)
    && (forall i, j | 0 <= i < j < USER_ENTRIES && pd[i] != 0 && pd[j] != 0 :: PageOf(pd[i]) != PageOf(pd[j]))
  }

  /** The page table entry for an address; without a table, zero. */
  ghost function PteAt(pd: seq<Word>, tables: map<Addr, seq<Word>>, va: nat): Word
    requires WellFormed(pd, tables) && va < PHYS_BASE
  {
    PagesApart(va, va);
    if pd[PdNo(va)] == 0 then 0 else tables[PageOf(pd[PdNo(va)])][PtNo(va)]
  }

  function EmptyTable(): (t: seq<Word>)
    ensures |t| == ENTRIES && forall i | 0 <= i < ENTRIES :: t[i] == 0
  {
    seq(ENTRIES, _ => 0)
  }

  /** A new empty table changes no entry. */
  lemma NewTable(pd: seq<Word>, tables: map<Addr, seq<Word>>, i: nat, t: Word)
    requires TablesOk(pd, tables) && i < USER_ENTRIES && pd[i] == 0 && Aligned(t) && Addr(t) !in tables
    ensures var pd', tables' := pd[i := PdeCreate(t)], tables[Addr(t) := EmptyTable()];
            && TablesOk(pd', tables') && pd'[i] != 0
            && forall va: nat | va < PHYS_BASE :: PteAt(pd', tables', va) == PteAt(pd, tables, va)
  {
    hide And, PdeCreate, Aligned, EmptyTable;
    CreatedPde(t);
    var pd', tables' := pd[i := PdeCreate(t)], tables[Addr(t) := EmptyTable()];
    assert PageOf(pd'[i]) == Addr(t);
    forall k | 0 <= k < USER_ENTRIES && pd'[k] != 0
      ensures And(pd'[k], PTE_P) != 0 && PageOf(pd'[k]) in tables' && |tables'[PageOf(pd'[k])]| == ENTRIES
    {
      if k != i {
        var a := PageOf(pd[k]);
        assert a in tables && a != Addr(t);
      }
    }
    forall a, b | 0 <= a < b < USER_ENTRIES && pd'[a] != 0 && pd'[b] != 0 ensures PageOf(pd'[a]) != PageOf(pd'[b]) {
      assert a != i ==> PageOf(pd[a]) in tables;
      assert b != i ==> PageOf(pd[b]) in tables;
    }
    forall va: nat | va < PHYS_BASE ensures PteAt(pd', tables', va) == PteAt(pd, tables, va) {
      PagesApart(va, va);
      if PdNo(va) != i && pd[PdNo(va)] != 0 {
        var a := PageOf(pd[PdNo(va)]);
        assert a in tables && a != Addr(t);
      }
    }
  }

  /** Writing one entry changes that page's and no other's. */
  lemma OneEntry(pd: seq<Word>, tables: map<Addr, seq<Word>>, va: nat, w: Word)
    requires TablesOk(pd, tables) && va < PHYS_BASE && PdNo(va) < |pd| && pd[PdNo(va)] != 0 && PtNo(va) < ENTRIES
    ensures PdNo(va) < USER_ENTRIES
    ensures var t := PageOf(pd[PdNo(va)]); var tables' := tables[t := tables[t][PtNo(va) := w]];
            && TablesOk(pd, tables') && PteAt(pd, tables', va) == w
            && forall vb: nat | vb < PHYS_BASE && vb / PGSIZE != va / PGSIZE ::
               PteAt(pd, tables', vb) == PteAt(pd, tables, vb)
  {
    hide And, PdNo, PtNo;
    PagesApart(va, va);
    var t := PageOf(pd[PdNo(va)]);
    var tables' := tables[t := tables[t][PtNo(va) := w]];
    assert WellFormed(pd, tables');
    forall vb: nat | vb < PHYS_BASE
        && vb / PGSIZE != va / PGSIZE ensures PteAt(pd, tables', vb) == PteAt(pd, tables, vb) {
      PagesApart(va, vb);
      PagesApart(vb, vb);
      if pd[PdNo(vb)] != 0 {
        if PdNo(vb) == PdNo(va) {
          assert PtNo(vb) != PtNo(va);
        } else {
          var a := PageOf(pd[PdNo(vb)]);
          assert a in tables && a != t && tables'[a] == tables[a];
        }
      }
    }
  }

  /** Between two states, all pages but va's have kept their entries. */
  ghost predicate OthersSame(pd: seq<Word>, tables: map<Addr, seq<Word>>, pd': seq<Word>, tables': map<Addr,
      seq<Word>>, va: nat)
    requires WellFormed(pd, tables) && WellFormed(pd', tables')
  {
    forall vb: nat | vb < PHYS_BASE && vb / PGSIZE != va / PGSIZE :: PteAt(pd', tables', vb) == PteAt(pd, tables, vb)
  }

  ghost predicate AllSame(pd: seq<Word>, tables: map<Addr, seq<Word>>, pd': seq<Word>, tables': map<Addr, seq<Word>>)
    requires WellFormed(pd, tables) && WellFormed(pd', tables')
  {
    forall vb: nat | vb < PHYS_BASE :: PteAt(pd', tables', vb) == PteAt(pd, tables, vb)
  }

  class PageDir {
    /** Where the directory itself is. */
    const self: Addr
    var pd: seq<Word>
    var tables: map<Addr, seq<Word>>

    ghost predicate Valid()
      reads this
    {
      TablesOk(pd, tables) && self !in tables
    }

    /** An unused page that palloc gives. */
    predicate Unused(page: Word)
      reads this
    {
      Aligned(page) && Addr(page) !in tables && Addr(page) != self
    }

    ghost function Pte(va: nat): Word
      requires Valid() && va < PHYS_BASE
      reads this
    {
      PteAt(pd, tables, va)
    }

    /** pagedir_create: kernel mappings, and none for the user. */
    constructor (page: Addr, kernel: seq<Word>)
      requires |kernel| == ENTRIES && forall i | 0 <= i < USER_ENTRIES :: kernel[i] == 0
      ensures Valid() && self == page && forall va: nat | va < PHYS_BASE :: Pte(va) == 0
    {
      self, pd, tables := page, kernel, map[];
      new;
      forall va: nat | va < PHYS_BASE ensures Pte(va) == 0 {
        PagesApart(va, va);
      }
    }

    /** lookup_page; memory is the zeroed page that palloc would give. */
    method LookupPage(va: nat, create: bool, memory: Option<Word>) returns (found: bool)
      requires Valid() && va < PHYS_BASE && (memory.Some? ==> Unused(memory.value))
      modifies this
      ensures Valid() && AllSame(old(pd), old(tables), pd, tables)
      ensures PdNo(va) < USER_ENTRIES && PtNo(va) < ENTRIES
      ensures found <==> pd[PdNo(va)] != 0
      ensures found <==> old(pd)[PdNo(va)] != 0 || (create && memory.Some?)
      ensures !create ==> pd == old(pd) && tables == old(tables)
    {
      hide And, PdNo, PtNo, PteAt, Aligned, PdeCreate, TablesOk;
      PagesApart(va, va);
      var i := PdNo(va);
      EntryCount(pd, tables);
      if pd[i] == 0 {
        if create && memory.Some? {
          NewTable(pd, tables, i, memory.value);
          pd, tables := pd[i := PdeCreate(memory.value)], tables[Addr(memory.value) := EmptyTable()];
        } else {
          return false;
        }
      }
      found := true;
    }

    /** Stores an entry in a table that exists. */
    method StorePte(va: nat, w: Word)
      requires Valid() && va < PHYS_BASE && PdNo(va) < |pd| && pd[PdNo(va)] != 0 && PtNo(va) < ENTRIES
      modifies this`tables
      ensures Valid() && Pte(va) == w && OthersSame(old(pd), old(tables), pd, tables, va)
    {
      hide And, PdNo, PtNo, PteAt;
      OneEntry(pd, tables, va, w);
      var t := PageOf(pd[PdNo(va)]);
      tables := tables[t := tables[t][PtNo(va) := w]];
    }

    /** pagedir_set_page.  It fails only if the page needs a new table and there is no memory. */
    method SetPage(va: nat, frame: Word, writable: bool, memory: Option<Word>) returns (ok: bool)
      requires Valid() && va < PHYS_BASE && Aligned(frame) && (memory.Some? ==> Unused(memory.value))
      requires !Decode(Pte(va)).present
      modifies this
      ensures Valid() && PdNo(va) < USER_ENTRIES && (ok <==> old(pd)[PdNo(va)] != 0 || memory.Some?)
      ensures ok ==> Decode(Pte(va)) == Entry(frame, true, writable, true, false, false)
      ensures !ok ==> Pte(va) == old(Pte(va))
      ensures OthersSame(old(pd), old(tables), pd, tables, va)
    {
      hide And, PdNo, PtNo, PteAt, Aligned, Decode, PteCreateUser, TablesOk;
      ok := LookupPage(va, true, memory);
      EntryCount(pd, tables);
      if ok {
        CreatedEntry(frame, writable);
        StorePte(va, PteCreateUser(frame, writable));
      }
    }

    /** pagedir_get_page: the frame and the offset in it. */
    method GetPage(va: nat) returns (r: Option<Place>)
      requires Valid() && va < PHYS_BASE
      ensures r == if Decode(Pte(va)).present then Some(Place(Addr(Decode(Pte(va)).frame), va % PGSIZE)) else None
    {
      hide PdNo, PtNo;
      var w := FetchPte(va);
      r := if And(w, PTE_P) != 0 then Some(Place(PageOf(w), va % PGSIZE)) else None;
    }

    /** The entry for an address, or zero when there is no table. */
    method FetchPte(va: nat) returns (w: Word)
      requires Valid() && va < PHYS_BASE
      ensures w == Pte(va)
    {
      hide And, PdNo, PtNo;
      PagesApart(va, va);
      w := if pd[PdNo(va)] == 0 then 0 else tables[PageOf(pd[PdNo(va)])][PtNo(va)];
    }

    /** pagedir_clear_page: the other bits of the entry stay. */
    method ClearPage(va: nat)
      requires Valid() && va < PHYS_BASE
      modifies this
      ensures Valid() && OthersSame(old(pd), old(tables), pd, tables, va) && pd == old(pd)
      ensures Decode(Pte(va)) == old(Decode(Pte(va))).(present := false)
    {
      hide And, PdNo, PtNo, PteAt;
      ZeroEntry();
      var found := LookupPage(va, false, None);
      var w := FetchPte(va);
      ClearedEntry(w);
      NoTable(pd, tables, va);
      if found && And(w, PTE_P) != 0 {
        StorePte(va, AndNot(w, PTE_P));
      }
    }

    /** pagedir_is_dirty and pagedir_is_accessed */
    method IsDirty(va: nat) returns (dirty: bool)
      requires Valid() && va < PHYS_BASE
      ensures dirty == Decode(Pte(va)).dirty
    {
      hide And, PdNo, PtNo, PteAt;
      var w := FetchPte(va);
      dirty := And(w, PTE_D) != 0;
    }

    method IsAccessed(va: nat) returns (accessed: bool)
      requires Valid() && va < PHYS_BASE
      ensures accessed == Decode(Pte(va)).accessed
    {
      hide And, PdNo, PtNo, PteAt;
      var w := FetchPte(va);
      accessed := And(w, PTE_A) != 0;
    }

    /** pagedir_set_dirty */
    method SetDirty(va: nat, dirty: bool)
      requires Valid() && va < PHYS_BASE
      modifies this
      ensures Valid() && OthersSame(old(pd), old(tables), pd, tables, va)
      ensures PdNo(va) < USER_ENTRIES
      ensures Decode(Pte(va)) == if old(pd)[PdNo(va)] != 0 then old(Decode(Pte(va))).(dirty := dirty)
              else old(Decode(Pte(va)))
    {
      hide And, PdNo, PtNo, PteAt, Decode;
      var found := LookupPage(va, false, None);
      var w := FetchPte(va);
      DirtyEntry(w, dirty);
      if found {
        StorePte(va, if dirty then Or(w, PTE_D) else AndNot(w, PTE_D));
      }
    }

    /** pagedir_set_accessed */
    method SetAccessed(va: nat, accessed: bool)
      requires Valid() && va < PHYS_BASE
      modifies this
      ensures Valid() && OthersSame(old(pd), old(tables), pd, tables, va)
      ensures PdNo(va) < USER_ENTRIES
      ensures Decode(Pte(va)) == if old(pd)[PdNo(va)] != 0 then old(Decode(Pte(va))).(accessed := accessed)
              else old(Decode(Pte(va)))
    {
      hide And, PdNo, PtNo, PteAt, Decode;
      var found := LookupPage(va, false, None);
      var w := FetchPte(va);
      AccessedEntry(w, accessed);
      if found {
        StorePte(va, if accessed then Or(w, PTE_A) else AndNot(w, PTE_A));
      }
    }

    /** A page that was mapped once can be unmapped and mapped again without any memory, and
        then is neither accessed nor dirty. */
    method Remap(va: nat, frame: Word, writable: bool) returns (ok: bool)
      requires Valid() && va < PHYS_BASE && Aligned(frame) && Decode(Pte(va)).present
      modifies this
      ensures ok && Valid() && Decode(Pte(va)) == Entry(frame, true, writable, true, false, false)
      ensures OthersSame(old(pd), old(tables), pd, tables, va)
    {
      hide And, PdNo, PtNo, Aligned;
      PagesApart(va, va);
      PresentHasTable(pd, tables, va);
      ClearPage(va);
      ok := SetPage(va, frame, writable, None);
    }

    /** pagedir_destroy: the pages freed, in order. */
    method Destroy() returns (freed: seq<Addr>)
      requires Valid()
      ensures freed == Destroyed(pd, tables, self)
    {
      hide And, AddressOf;
      freed := [];
      ghost var items := [];
      var i := 0;
      while i < USER_ENTRIES
        invariant 0 <= i <= USER_ENTRIES && items == FreedBy(pd, tables, i) && freed == AddressesOf(items)
      {
        if And(pd[i], PTE_P) != 0 {
          ZeroBits();
          var t := tables[PageOf(pd[i])];
          ghost var before := items;
          var j := 0;
          while j < ENTRIES
            invariant 0 <= j <= ENTRIES && items == before + FreedPages(t, i, j) && freed == AddressesOf(items)
          {
            if And(t[j], PTE_P) != 0 {
              Appended(items, Page(i, j, And(t[j], PTE_ADDR)));
              items := items + [Page(i, j, And(t[j], PTE_ADDR))];
              freed := freed + [Addr(And(t[j], PTE_ADDR))];
            }
            j := j + 1;
          }
          Appended(items, Table(i, PageOf(pd[i])));
          items := items + [Table(i, PageOf(pd[i]))];
          freed := freed + [PageOf(pd[i])];
        }
        i := i + 1;
      }
      freed := freed + [self];
    }
  }

  lemma Appended(s: seq<Freed>, x: Freed)
    ensures AddressesOf(s + [x]) == AddressesOf(s) + [AddressOf(x)]
    ensures AddressOf(x) == if x.Page? then Addr(x.frame) else x.table
  {
  }

  lemma ZeroBits()
    ensures And(0, PTE_P) == 0
  {
  }

  lemma ZeroEntry()
    ensures Decode(0) == Entry(0, false, false, false, false, false)
  {
  }

  lemma NoTable(pd: seq<Word>, tables: map<Addr, seq<Word>>, va: nat)
    requires WellFormed(pd, tables) && va < PHYS_BASE && PdNo(va) < |pd|
    ensures pd[PdNo(va)] == 0 ==> PteAt(pd, tables, va) == 0
  {
    hide And;
  }

  lemma PresentHasTable(pd: seq<Word>, tables: map<Addr, seq<Word>>, va: nat)
    requires WellFormed(pd, tables) && va < PHYS_BASE && Decode(PteAt(pd, tables, va)).present
    ensures PdNo(va) < |pd| && pd[PdNo(va)] != 0
  {
    hide And;
    PagesApart(va, va);
    ZeroBits();
  }

  lemma EntryCount(pd: seq<Word>, tables: map<Addr, seq<Word>>)
    requires TablesOk(pd, tables)
    ensures |pd| == ENTRIES
  {
  }
}
