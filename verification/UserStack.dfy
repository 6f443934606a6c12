/** The initial user stack: argument_push in src/userprog/process.c writes it, and the entry code
    of a user program reads it back. The page at the top of user memory holds the whole stack;
    positions in the page stand for the addresses STACK_BASE + position. */
module UserStack {
  import opened Basics
  import opened Arguments

  const PAGE := 4096
  const STACK_BASE: nat := 0xBFFF_F000

  // ---- words --------------------------------------------------------------------------------------

  /** The 32-bit little-endian word at position p. */
  function WordAt(m: Bytes, p: nat): nat
    requires p + 4 <= |m|
  {
    m[p] as nat + 0x100 * m[p + 1] as nat + 0x1_0000 * m[p + 2] as nat + 0x100_0000 * m[p + 3] as nat
  }

  lemma WordBytes(w: nat)
    requires w < 0x1_0000_0000
    ensures w == w % 0x100 + 0x100 * (w / 0x100 % 0x100) + 0x1_0000 * (w / 0x1_0000 % 0x100)
                 + 0x100_0000 * (w / 0x100_0000)
    ensures w / 0x100_0000 < 0x100
  {
    ByteSplit(w);
    ByteSplit(w / 0x100);
    ByteSplit(w / 0x1_0000);
    assert w / 0x100 / 0x100 == w / 0x1_0000 && w / 0x1_0000 / 0x100 == w / 0x100_0000;
  }

  lemma ByteSplit(w: nat)
    ensures w == w % 0x100 + 0x100 * (w / 0x100)
  {
  }

  method StoreWord(page: array<Byte>, p: nat, w: nat)
    requires p + 4 <= page.Length && w < 0x1_0000_0000
    modifies page
    ensures WordAt(page[..], p) == w
    ensures page[..p] == old(page[..p]) && page[p + 4..] == old(page[p + 4..])
  {
    WordBytes(w);
    page[p] := (w % 0x100) as Byte;
    page[p + 1] := (w / 0x100 % 0x100) as Byte;
    page[p + 2] := (w / 0x1_0000 % 0x100) as Byte;
    page[p + 3] := (w / 0x100_0000) as Byte;
  }

  /** The words from position p on are ws. */
  ghost predicate Words(m: Bytes, p: nat, ws: seq<nat>) {
    p + 4 * |ws| <= |m| && forall k | 0 <= k < |ws| :: WordAt(m, p + 4 * k) == ws[k]
  }

  lemma WordsKept(m: Bytes, m': Bytes, p: nat, ws: seq<nat>)
    requires Words(m, p, ws) && |m'| == |m| && m'[p..] == m[p..]
    ensures Words(m', p, ws)
  {
    assert forall i | p <= i < |m| :: m'[i] == m[i] by {
      forall i | p <= i < |m| ensures m'[i] == m[i] {
        assert m'[i] == m'[p..][i - p] && m[i] == m[p..][i - p];
      }
    }
  }

  lemma WordsGrow(m: Bytes, p: nat, w: nat, ws: seq<nat>)
    requires p + 4 <= |m| && WordAt(m, p) == w && Words(m, p + 4, ws)
    ensures Words(m, p, [w] + ws)
  {
    forall k | 0 <= k < |ws| + 1 ensures WordAt(m, p + 4 * k) == ([w] + ws)[k] {
      if k > 0 { assert WordAt(m, p + 4 + 4 * (k - 1)) == ws[k - 1]; }
    }
  }

  // ---- strings ------------------------------------------------------------------------------------

  ghost predicate Strings(m: Bytes, ptrs: seq<nat>, args: seq<Bytes>, sp: nat) {
    && |ptrs| == |args|
    && forall k | 0 <= k < |ptrs| :: ptrs[k] >= sp && StringAt(m, ptrs[k], args[k])
  }

  lemma StringKept(m: Bytes, m': Bytes, p: nat, s: Bytes, sp: nat)
    requires StringAt(m, p, s) && p >= sp && |m'| == |m| && sp <= |m| && m'[sp..] == m[sp..]
    ensures StringAt(m', p, s)
  {
    assert forall i | sp <= i < |m| :: m'[i] == m'[sp..][i - sp] && m[i] == m[sp..][i - sp];
    assert m'[p..p + |s|] == m[p..p + |s|];
  }

  lemma StringsKept(m: Bytes, m': Bytes, ptrs: seq<nat>, args: seq<Bytes>, sp: nat)
    requires Strings(m, ptrs, args, sp) && |m'| == |m| && sp <= |m| && m'[sp..] == m[sp..]
    ensures Strings(m', ptrs, args, sp)
  {
    forall k | 0 <= k < |ptrs| ensures StringAt(m', ptrs[k], args[k]) {
      StringKept(m, m', ptrs[k], args[k], sp);
    }
  }

  lemma StringsGrow(m: Bytes, p: nat, s: Bytes, ptrs: seq<nat>, args: seq<Bytes>, sp: nat)
    requires Strings(m, ptrs, args, sp) && StringAt(m, p, s) && p <= sp
    ensures Strings(m, [p] + ptrs, [s] + args, p)
  {
  }

  /** strlen: a string without nulls inside is measured exactly. */
  method Strlen(m: array<Byte>, p: nat, ghost s: Bytes) returns (n: nat)
    requires StringAt(m[..], p, s) && NUL !in s
    ensures n == |s|
  {
    forall i | p <= i < p + |s| ensures m[i] != NUL {
      assert m[i] == m[..][p..p + |s|][i - p] == s[i - p] && s[i - p] in s;
    }
    n := 0;
    while m[p + n] != NUL
      invariant n <= |s|
      decreases |s| - n
    {
      n := n + 1;
    }
  }

  /** strlcpy with room for the whole string. */
  method Strlcpy(page: array<Byte>, to: nat, m: array<Byte>, p: nat, size: nat, ghost s: Bytes)
    requires m != page && StringAt(m[..], p, s) && NUL !in s && size > |s| && to + size <= page.Length
    modifies page
    ensures StringAt(page[..], to, s)
    ensures page[..to] == old(page[..to]) && page[to + |s| + 1..] == old(page[to + |s| + 1..])
  {
    var length := Strlen(m, p, s);
    if size - 1 < length { length := size - 1; }
    var k := 0;
    while k < length
      invariant k <= length == |s| && page[to..to + k] == s[..k]
      invariant page[..to] == old(page[..to]) && page[to + |s| + 1..] == old(page[to + |s| + 1..])
    {
      assert m[p + k] == m[..][p..p + |s|][k];
      page[to + k] := m[p + k];
      k := k + 1;
    }
    page[to + length] := NUL;
    assert s[..|s|] == s;
  }

  // ---- what a program sees --------------------------------------------------------------------------

  /** The bytes from position p up to the first null. */
  function StringFrom(m: Bytes, p: nat): Bytes
    decreases |m| - p
  {
    if p >= |m| || m[p] == NUL then [] else [m[p]] + StringFrom(m, p + 1)
  }

  /** The word at an address; memory outside the stack page reads as 0 here. */
  function WordAtAddress(m: Bytes, address: nat): nat {
    if STACK_BASE <= address && address + 4 <= STACK_BASE + |m| then WordAt(m, address - STACK_BASE) else 0
  }

  function StringAtAddress(m: Bytes, address: nat): Bytes {
    if STACK_BASE <= address then StringFrom(m, address - STACK_BASE) else []
  }

  /** Above the return address stand the two parameters of a program's entry point: argc, and a
      pointer to an array of pointers to strings. */
  function Argc(m: Bytes, esp: nat): nat { WordAtAddress(m, esp + 4) }

  function Argv(m: Bytes, esp: nat): nat { WordAtAddress(m, esp + 8) }

  function Decoded(m: Bytes, esp: nat): seq<Bytes> {
    seq(Argc(m, esp), (i: nat) => StringAtAddress(m, WordAtAddress(m, Argv(m, esp) + 4 * i)))
  }

  lemma {:induction false} StringFromIs(m: Bytes, p: nat, s: Bytes)
    requires StringAt(m, p, s) && NUL !in s
    ensures StringFrom(m, p) == s
    decreases |s|
  {
    if s != [] {
      assert m[p] == m[p..p + |s|][0] == s[0] && s[0] in s;
      assert m[p + 1..p + |s|] == s[1..];
      assert NUL !in s[1..];
      StringFromIs(m, p + 1, s[1..]);
    }
  }

  ghost function Addresses(ptrs: seq<nat>): seq<nat> {
    seq(|ptrs|, i requires 0 <= i < |ptrs| => STACK_BASE + ptrs[i])
  }

  lemma AddressOfWord(m: Bytes, p: nat, ws: seq<nat>, k: nat)
    requires Words(m, p, ws) && k < |ws|
    ensures WordAtAddress(m, STACK_BASE + p + 4 * k) == ws[k]
  {
    hide WordAt;
    assert WordAt(m, p + 4 * k) == ws[k];
  }

  lemma ArgumentIs(m: Bytes, p: nat, ptrs: seq<nat>, args: seq<Bytes>, i: nat)
    requires i < |args| && Strings(m, ptrs, args, 0) && NUL !in args[i]
    requires Words(m, p, Addresses(ptrs) + [0])
    ensures StringAtAddress(m, WordAtAddress(m, STACK_BASE + p + 4 * i)) == args[i]
  {
    hide Words, WordAtAddress, StringFrom;
    AddressOfWord(m, p, Addresses(ptrs) + [0], i);
    StringFromIs(m, ptrs[i], args[i]);
  }

  /** The words pushed last make the strings above them readable from the stack pointer alone. */
  lemma DecodedIs(m: Bytes, p: nat, ptrs: seq<nat>, args: seq<Bytes>)
    requires Strings(m, ptrs, args, 0) && (forall s | s in args :: NUL !in s)
    requires Words(m, p, [0, |args|, STACK_BASE + p + 12])
    requires Words(m, p + 12, Addresses(ptrs) + [0])
    ensures Decoded(m, STACK_BASE + p) == args
    ensures WordAtAddress(m, Argv(m, STACK_BASE + p) + 4 * |args|) == 0
  {
    hide Words, WordAtAddress, StringAtAddress, StringAt, Argc, Argv;
    var esp := STACK_BASE + p;
    EntryIs(m, p, |args|, STACK_BASE + p + 12);
    AddressOfWord(m, p + 12, Addresses(ptrs) + [0], |args|);
    forall i: nat | i < |args| ensures Decoded(m, esp)[i] == args[i] {
      assert args[i] in args;
      ArgumentIs(m, p + 12, ptrs, args, i);
    }
  }

  lemma EntryIs(m: Bytes, p: nat, argc: nat, argv: nat)
    requires Words(m, p, [0, argc, argv])
    ensures Argc(m, STACK_BASE + p) == argc && Argv(m, STACK_BASE + p) == argv && WordAtAddress(m, STACK_BASE + p) == 0
  {
    hide Words, WordAtAddress;
    AddressOfWord(m, p, [0, argc, argv], 0);
    AddressOfWord(m, p, [0, argc, argv], 1);
    AddressOfWord(m, p, [0, argc, argv], 2);
  }

  // ---- argument_push ----------------------------------------------------------------------------------

  /** Bytes the strings take, each with its null. */
  function StringSpace(args: seq<Bytes>): nat {
    if args == [] then 0 else |args[0]| + 1 + StringSpace(args[1..])
  }

  /** Bytes the whole frame takes: strings, alignment, pointers with their null, three words. */
  function Space(args: seq<Bytes>): nat {
    (StringSpace(args) + 3) / 4 * 4 + 4 * (|args| + 1) + 12
  }

  lemma {:induction false} SuffixSpace(args: seq<Bytes>, i: nat)
    requires i <= |args|
    ensures StringSpace(args[i..]) <= StringSpace(args)
    decreases i
  {
    if i == 0 {
      assert args[0..] == args;
    } else {
      SuffixSpace(args, i - 1);
      assert args[i - 1..][1..] == args[i..];
    }
  }

  /** The slots of a page of pointers from slot i on hold ptrs. */
  ghost predicate HeldFrom(page: seq<Option<nat>>, i: nat, ptrs: seq<nat>) {
    i + |ptrs| <= |page| && forall k | 0 <= k < |ptrs| :: page[i + k] == Some(ptrs[k])
  }

  lemma HeldGrows(page: seq<Option<nat>>, i: nat, ptrs: seq<nat>, p: nat)
    requires HeldFrom(page, i + 1, ptrs)
    ensures i < |page| && HeldFrom(page[i := Some(p)], i, [p] + ptrs)
  {
    var page' := page[i := Some(p)];
    forall k | 0 <= k < |ptrs| + 1 ensures page'[i + k] == Some(([p] + ptrs)[k]) {
      if k > 0 { assert page[i + 1 + (k - 1)] == Some(ptrs[k - 1]); }
    }
  }

  /** Step 1: the strings, the last one first, with their addresses kept in a page of pointers.
      A write below the stack page ends the process. */
  method PushStrings(page: array<Byte>, m: array<Byte>, argv: array<Option<nat>>, argc: nat,
                     addresses: array<Option<nat>>, ghost from: seq<nat>, ghost args: seq<Bytes>)
    returns (ok: bool, sp: nat, ghost ptrs: seq<nat>)
    requires m != page && Strings(m[..], from, args, 0) && forall s | s in args :: NUL !in s
    requires argv != addresses && argc == |args| < addresses.Length && Slots(argv[..], from)
    modifies page, addresses
    ensures ok <==> StringSpace(args) <= page.Length
    ensures ok ==> sp == page.Length - StringSpace(args) && Strings(page[..], ptrs, args, sp)
    ensures ok ==> page[..sp] == old(page[..sp]) && HeldFrom(addresses[..], 0, ptrs)
  {
    hide StringAt;
    sp, ptrs := page.Length, [];
    var i: nat := argc;
    while i > 0
      invariant i <= argc && StringSpace(args[i..]) <= page.Length && Slots(argv[..], from)
      invariant sp == page.Length - StringSpace(args[i..]) && HeldFrom(addresses[..], i, ptrs)
      invariant Strings(page[..], ptrs, args[i..], sp) && page[..sp] == old(page[..sp])
    {
      i := i - 1;
      SuffixSpace(args, i);
      assert args[i..] == [args[i]] + args[i + 1..];
      ghost var s, above, was, held := args[i], sp, page[..], addresses[..];
      assert argv[i] == Some(from[i]);
      var length := Strlen(m, argv[i].value, s);
      length := length + 1;
      if length > sp {
        return false, sp, ptrs;
      }
      sp := sp - length;
      Strlcpy(page, sp, m, argv[i].value, length, s);
      assert page[above..] == was[above..];
      StringsKept(was, page[..], ptrs, args[i + 1..], above);
      StringsGrow(page[..], sp, s, ptrs, args[i + 1..], above);
      assert page[..sp] == was[..sp] == was[..above][..sp];
      addresses[i] := Some(sp);
      HeldGrows(held, i, ptrs, sp);
      assert addresses[..] == held[i := Some(sp)];
      ptrs := [sp] + ptrs;
    }
    assert args[0..] == args;
    ok := true;
  }

  /** Step 2: the stack pointer goes down to a multiple of 4. */
  method Align(page: array<Byte>, top: nat) returns (sp: nat)
    requires top <= page.Length
    modifies page
    ensures sp == top / 4 * 4 && page[..sp] == old(page[..sp]) && page[top..] == old(page[top..])
  {
    sp := top;
    while sp % 4 != 0
      invariant top / 4 * 4 <= sp <= top && page[..sp] == old(page[..sp]) && page[top..] == old(page[top..])
      decreases sp % 4
    {
      sp := sp - 1;
      page[sp] := 0;
    }
  }

  /** Step 3: the addresses of the strings and a null, the last one first. */
  method PushPointers(page: array<Byte>, top: nat, addresses: array<Option<nat>>, argc: nat, ghost ptrs: seq<nat>)
    returns (ok: bool, sp: nat)
    requires top <= page.Length <= PAGE && forall k | 0 <= k < |ptrs| :: ptrs[k] < PAGE
    requires argc == |ptrs| < addresses.Length && HeldFrom(addresses[..], 0, ptrs)
    modifies page, addresses
    ensures ok <==> 4 * (|ptrs| + 1) <= top
    ensures ok ==> sp == top - 4 * (|ptrs| + 1) && Words(page[..], sp, Addresses(ptrs) + [0])
    ensures ok ==> page[..sp] == old(page[..sp]) && page[top..] == old(page[top..])
  {
    hide *;
    ghost var words, m0, was0 := Addresses(ptrs) + [0], page[..], addresses[..];
    sp := top;
    addresses[argc] := None;
    ghost var held := addresses[..];
    assert HeldFrom(held[..argc], 0, ptrs) && |words| == argc + 1 by { SlotsKept(was0, held, ptrs); }
    var i: nat := argc + 1;
    assert Words(page[..], sp, words[i..]) by { NoWords(page[..], sp); assert words[i..] == []; }
    while i > 0
      invariant i <= argc + 1 && sp + 4 * (argc + 1 - i) == top && addresses[..] == held
      invariant Words(page[..], sp, words[i..]) && page[..sp] == m0[..sp] && page[top..] == m0[top..]
    {
      if sp < 4 {
        return false, sp;
      }
      i := i - 1;
      ghost var was := page[..];
      sp := sp - 4;
      SlotWord(held, ptrs, i);
      StoreWord(page, sp, if addresses[i].None? then 0 else STACK_BASE + addresses[i].value);
      WordsKept(was, page[..], sp + 4, words[i + 1..]);
      WordsGrow(page[..], sp, words[i], words[i + 1..]);
      assert words[i..] == [words[i]] + words[i + 1..];
      Head(m0, was, sp + 4, sp);
      Tail(was, page[..], sp + 4, top);
    }
    assert words[0..] == words;
    ok := true;
  }

  lemma SlotsKept(page: seq<Option<nat>>, page': seq<Option<nat>>, ptrs: seq<nat>)
    requires HeldFrom(page, 0, ptrs) && |ptrs| < |page| && page' == page[|ptrs| := None]
    ensures HeldFrom(page'[..|ptrs|], 0, ptrs) && |Addresses(ptrs)| == |ptrs|
  {
    forall k | 0 <= k < |ptrs| ensures page'[..|ptrs|][0 + k] == Some(ptrs[k]) {
      assert page[0 + k] == Some(ptrs[k]);
    }
  }

  /** The word that a slot's pointer becomes. */
  lemma SlotWord(held: seq<Option<nat>>, ptrs: seq<nat>, i: nat)
    requires i <= |ptrs| < |held| && HeldFrom(held[..|ptrs|], 0, ptrs) && held[|ptrs|] == None
    requires forall k | 0 <= k < |ptrs| :: ptrs[k] < PAGE
    ensures var w := if held[i].None? then 0 else STACK_BASE + held[i].value;
            |Addresses(ptrs)| == |ptrs| && (Addresses(ptrs) + [0])[i] == w < 0x1_0000_0000
  {
    if i < |ptrs| { assert held[..|ptrs|][0 + i] == Some(ptrs[i]); }
  }

  lemma NoWords(m: Bytes, p: nat)
    requires p <= |m|
    ensures Words(m, p, [])
  {
  }

  /** Steps 4 and 5: argv, argc and the return address. */
  method PushEntry(page: array<Byte>, top: nat, argc: nat) returns (ok: bool, sp: nat)
    requires top <= page.Length <= PAGE && argc <= PAGE
    modifies page
    ensures ok <==> 12 <= top
    ensures ok ==> sp == top - 12 && Words(page[..], sp, [0, argc, STACK_BASE + top])
    ensures ok ==> page[..sp] == old(page[..sp]) && page[top..] == old(page[top..])
  {
    hide Words, WordAt;
    if top < 12 {
      return false, top;
    }
    ok := true;
    ghost var m0 := page[..];
    StoreWord(page, top - 4, STACK_BASE + top);
    ghost var m1 := page[..];
    assert Words(m1, top - 4, [STACK_BASE + top]) by {
      NoWords(m1, top);
      WordsGrow(m1, top - 4, STACK_BASE + top, []);
      assert [STACK_BASE + top] + [] == [STACK_BASE + top];
    }
    StoreWord(page, top - 8, argc);
    ghost var m2 := page[..];
    WordsKept(m1, m2, top - 4, [STACK_BASE + top]);
    WordsGrow(m2, top - 8, argc, [STACK_BASE + top]);
    StoreWord(page, top - 12, 0);
    sp := top - 12;
    WordsKept(m2, page[..], top - 8, [argc] + [STACK_BASE + top]);
    WordsGrow(page[..], sp, 0, [argc] + [STACK_BASE + top]);
    assert [0] + ([argc] + [STACK_BASE + top]) == [0, argc, STACK_BASE + top];
    assert page[..sp] == m2[..sp] == m1[..sp] == m0[..sp];
    assert m1[top..] == m0[top..] && m2[top..] == m1[top - 4..][4..] && page[top..] == m2[top - 8..][8..];
  }

  lemma Rounding(s: nat)
    requires s <= PAGE
    ensures (PAGE - s) / 4 * 4 == PAGE - (s + 3) / 4 * 4
  {
  }

  /** Where the parts of the frame begin, and that they fit together or not at all. */
  lemma FrameParts(args: seq<Bytes>)
    ensures Space(args) <= PAGE <==>
            StringSpace(args) <= PAGE && 4 * (|args| + 1) + 12 <= (PAGE - StringSpace(args)) / 4 * 4
    ensures Space(args) <= PAGE ==>
              && |args| <= PAGE
              && (PAGE - StringSpace(args)) / 4 * 4 - 4 * (|args| + 1) - 12 == PAGE - Space(args)
              && (STACK_BASE + PAGE - Space(args)) % 4 == 0
  {
    hide StringSpace;
    if StringSpace(args) <= PAGE { Rounding(StringSpace(args)); }
  }

  lemma Placed(m: Bytes, ptrs: seq<nat>, args: seq<Bytes>, sp: nat)
    requires Strings(m, ptrs, args, sp)
    ensures Strings(m, ptrs, args, 0) && |ptrs| == |args| && forall k | 0 <= k < |ptrs| :: ptrs[k] < |m|
  {
  }

  lemma Tail(m: Bytes, m': Bytes, a: nat, b: nat)
    requires |m'| == |m| && a <= b <= |m| && m'[a..] == m[a..]
    ensures m'[b..] == m[b..]
  {
    assert m'[b..] == m'[a..][b - a..] && m[b..] == m[a..][b - a..];
  }

  lemma Head(m: Bytes, m': Bytes, a: nat, b: nat)
    requires |m'| == |m| && b <= a <= |m| && m'[..a] == m[..a]
    ensures m'[..b] == m[..b]
  {
    assert m'[..b] == m'[..a][..b] && m[..b] == m[..a][..b];
  }

  /** argument_push of the argv strings that stand in m, onto an empty stack page.  The thread's
      saved stack pointer is still null, so the stack does not grow here: a frame that does not
      fit the page ends the process. */
  method ArgumentPush(page: array<Byte>, m: array<Byte>, argv: array<Option<nat>>, argc: nat, ghost from: seq<nat>,
                      ghost args: seq<Bytes>)
    returns (esp: Option<nat>)
    requires page.Length == PAGE && m != page && Strings(m[..], from, args, 0) && forall s | s in args :: NUL !in s
    requires argc == |args| < SLOTS && Slots(argv[..], from)
    modifies page
    ensures esp.Some? <==> Space(args) <= PAGE
    ensures esp.Some? ==>
              && esp.value == STACK_BASE + PAGE - Space(args) && esp.value % 4 == 0
              && Decoded(page[..], esp.value) == args
              && WordAtAddress(page[..], Argv(page[..], esp.value) + 4 * |args|) == 0
              && WordAtAddress(page[..], esp.value) == 0
              && page[..PAGE - Space(args)] == old(page[..PAGE - Space(args)])
  {
    hide *;
    FrameParts(args);
    Placed(m[..], from, args, 0);
    ghost var m0 := page[..];
    var addresses := new Option<nat>[SLOTS];
    var ok, strings, ptrs := PushStrings(page, m, argv, argc, addresses, from, args);
    if !ok {
      return None;
    }
    ghost var m1 := page[..];
    Placed(m1, ptrs, args, strings);
    var aligned := Align(page, strings);
    ghost var m2 := page[..];
    StringsKept(m1, m2, ptrs, args, strings);
    var pointers;
    ok, pointers := PushPointers(page, aligned, addresses, argc, ptrs);
    if !ok {
      return None;
    }
    ghost var m3 := page[..];
    Tail(m2, m3, aligned, strings);
    StringsKept(m2, m3, ptrs, args, strings);
    var sp;
    ok, sp := PushEntry(page, pointers, argc);
    if !ok {
      return None;
    }
    ghost var m4 := page[..];
    WordsKept(m3, m4, pointers, Addresses(ptrs) + [0]);
    Tail(m3, m4, pointers, strings);
    StringsKept(m3, m4, ptrs, args, strings);
    Placed(m4, ptrs, args, strings);
    DecodedIs(m4, sp, ptrs, args);
    EntryIs(m4, sp, argc, STACK_BASE + pointers);
    Head(m2, m3, pointers, sp);
    Head(m1, m2, aligned, sp);
    Head(m0, m1, strings, sp);
    esp := Some(STACK_BASE + sp);
  }

  // ---- start_process ----------------------------------------------------------------------------------

  lemma {:induction false} TokensNoNul(line: Bytes)
    requires NUL !in line
    ensures forall t | t in Tokens(line) :: NUL !in t
    decreases |line|
  {
    hide *;
    TokensUnfold(line);
    var t := line[Spaces(line)..];
    if t != [] {
      var n := TokenLength(t);
      assert NUL !in t[..n] && NUL !in t[n..];
      TokensNoNul(t[n..]);
    }
  }

  /** The pages of pointers are large enough for every frame that fits the stack page. */
  lemma FrameFitsSlots(args: seq<Bytes>)
    requires Space(args) <= PAGE
    ensures |args| < SLOTS
  {
    hide StringSpace;
  }

  /** n arguments of one letter. */
  function Letters(n: nat): seq<Bytes> {
    seq(n, _ => [97])
  }

  lemma {:induction false} JoinLetters(n: nat)
    requires n > 0
    ensures |Join(Letters(n))| == 2 * n - 1 && NUL !in Join(Letters(n))
  {
    var ts := Letters(n);
    if n == 1 {
      assert Join(ts) == [97];
    } else {
      JoinLetters(n - 1);
      assert ts[1..] == Letters(n - 1);
      assert Join(ts) == [97] + [SPACE] + Join(ts[1..]);
    }
  }

  /** A command line of less than a page can have more tokens than a page has slots. */
  lemma TooManyTokens() returns (line: Bytes)
    ensures |line| < PAGE && NUL !in line && |Tokens(line)| > 1023
  {
    hide Tokens, Join;
    JoinLetters(1024);
    TokensOfJoin(Letters(1024));
    line := Join(Letters(1024));
  }

  /** How a new program starts: with its arguments, not at all because they do not fit the stack
      page, or after stores past the end of the page that argument_parse has for its pointers. */
  datatype Start = Started(esp: nat) | Killed | Overrun

  /** start_process on a command line: the new program's argv is the line's tokens, or the
      process ends because they do not fit the stack page.  No store leaves the two pages of
      pointers as long as there are at most 1023 tokens. */
  method StartArguments(page: array<Byte>, line: array<Byte>, ghost n: nat) returns (start: Start)
    requires page.Length == PAGE && line != page
    requires n < line.Length && line[n] == NUL && NUL !in line[..n]
    modifies page, line
    ensures start.Overrun? <==> |Tokens(old(line[..n]))| > 1023
    ensures start.Started? <==> Space(Tokens(old(line[..n]))) <= PAGE
    ensures start.Started? ==>
              && Decoded(page[..], start.esp) == Tokens(old(line[..n])) && start.esp % 4 == 0
              && WordAtAddress(page[..], Argv(page[..], start.esp) + 4 * Argc(page[..], start.esp)) == 0
  {
    hide Tokens, Space, WordAtAddress, StringAtAddress;
    ghost var tokens := Tokens(line[..n]);
    TokensNoNul(line[..n]);
    if Space(tokens) <= PAGE { FrameFitsSlots(tokens); }
    var argv := new Option<nat>[SLOTS];
    var argc, ptrs := ArgumentParse(line, argv, n);
    if argc.None? {
      return Overrun;
    }
    var esp := ArgumentPush(page, line, argv, argc.value, ptrs, tokens);
    assert esp.Some? ==> |Decoded(page[..], esp.value)| == Argc(page[..], esp.value);
    start := if esp.Some? then Started(esp.value) else Killed;
  }
}
