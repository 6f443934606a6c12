/** Bitmaps packed into words (src/lib/kernel/bitmap.c). */
module Bitmap {

  const ELEM_BITS: nat := 32

  type Elem = bv32

  /** elem_cnt */
  function ElemCnt(bitCnt: nat): nat {
    (bitCnt + ELEM_BITS - 1) / ELEM_BITS
  }

  /** bit_mask */
  function Mask(i: nat): Elem {
    (1 as Elem) << ((i % ELEM_BITS) as bv5)
  }

  // ---- words ----------------------------------------------------------------------------------

  lemma RoundTrip(i: nat)
    requires i < ELEM_BITS
    ensures (i as bv5) as int == i
  {
  }

  function And(w: Elem, m: Elem): Elem {
    w & m
  }

  function Or(w: Elem, m: Elem): Elem {
    w | m
  }

  function AndNot(w: Elem, m: Elem): Elem {
    w & !m
  }

  lemma ShiftsDiffer(a: bv5, b: bv5)
    ensures (1 as Elem) << a != 0
    ensures a != b ==> And((1 as Elem) << a, (1 as Elem) << b) == 0
  {
  }

  /** Masks of different bits of a word do not overlap. */
  lemma MasksDiffer(i: nat, j: nat)
    ensures Mask(i) != 0
    ensures i % ELEM_BITS == j % ELEM_BITS ==> Mask(i) == Mask(j)
    ensures i % ELEM_BITS != j % ELEM_BITS ==> And(Mask(i), Mask(j)) == 0
  {
    hide And;
    var a, b := i % ELEM_BITS, j % ELEM_BITS;
    RoundTrip(a);
    RoundTrip(b);
    ShiftsDiffer(a as bv5, b as bv5);
  }

  lemma OrElsewhere(w: Elem, m: Elem, n: Elem)
    requires And(m, n) == 0
    ensures And(Or(w, m), n) == And(w, n)
  {
  }

  lemma AndElsewhere(w: Elem, m: Elem, n: Elem)
    requires And(m, n) == 0
    ensures And(AndNot(w, m), n) == And(w, n)
  {
  }

  lemma OrHere(w: Elem, m: Elem)
    ensures And(Or(w, m), m) == m
  {
  }

  lemma AndHere(w: Elem, m: Elem)
    ensures And(AndNot(w, m), m) == 0
  {
  }

  /** bitmap_test, bitmap_mark and bitmap_reset on the word that holds bit i. */
  predicate Hit(w: Elem, i: nat) {
    And(w, Mask(i)) != 0
  }

  function Marked(w: Elem, i: nat): Elem {
    Or(w, Mask(i))
  }

  function Cleared(w: Elem, i: nat): Elem {
    AndNot(w, Mask(i))
  }

  lemma MarkedHits(w: Elem, i: nat, j: nat)
    ensures Hit(Marked(w, i), j) <==> i % ELEM_BITS == j % ELEM_BITS || Hit(w, j)
    ensures Hit(Cleared(w, i), j) <==> i % ELEM_BITS != j % ELEM_BITS && Hit(w, j)
  {
    hide Mask, Or, AndNot, And;
    MasksDiffer(i, j);
    if i % ELEM_BITS == j % ELEM_BITS {
      OrHere(w, Mask(i));
      AndHere(w, Mask(i));
    } else {
      OrElsewhere(w, Mask(i), Mask(j));
      AndElsewhere(w, Mask(i), Mask(j));
    }
  }

  // ---- what a bitmap means ----------------------------------------------------------------------

  lemma InWords(bitCnt: nat, i: nat)
    requires i < bitCnt
    ensures i / ELEM_BITS < ElemCnt(bitCnt)
  {
  }

  /** The bits that the words stand for. */
  function BitsOf(words: seq<Elem>, bitCnt: nat): (b: seq<bool>)
    requires |words| == ElemCnt(bitCnt)
    ensures |b| == bitCnt
  {
    seq(bitCnt, i requires 0 <= i < bitCnt => InWords(bitCnt, i); Hit(words[i / ELEM_BITS], i))
  }

  lemma SameBit(i: nat, j: nat)
    requires i / ELEM_BITS == j / ELEM_BITS && i % ELEM_BITS == j % ELEM_BITS
    ensures i == j
  {
  }

  /** bitmap_set's effect on the words is a change of one bit. */
  lemma ChangesOne(words: seq<Elem>, bitCnt: nat, i: nat, v: bool)
    requires |words| == ElemCnt(bitCnt) && i < bitCnt && i / ELEM_BITS < |words|
    ensures var k := i / ELEM_BITS;
            BitsOf(words[k := if v then Marked(words[k], i) else Cleared(words[k], i)], bitCnt) ==
                BitsOf(words, bitCnt)[i := v]
  {
    hide Hit, Marked, Cleared;
    var k := i / ELEM_BITS;
    var words' := words[k := if v then Marked(words[k], i) else Cleared(words[k], i)];
    forall j | 0 <= j < bitCnt ensures BitsOf(words', bitCnt)[j] == BitsOf(words, bitCnt)[i := v][j] {
      InWords(bitCnt, j);
      if j / ELEM_BITS == k {
        MarkedHits(words[k], i, j);
        if i % ELEM_BITS == j % ELEM_BITS {
          SameBit(i, j);
        }
      }
    }
  }

  // ---- groups of bits ---------------------------------------------------------------------------

  /** The cnt bits from start on all have value v. */
  predicate AllAre(b: seq<bool>, start: nat, cnt: nat, v: bool) {
    start + cnt <= |b| && forall i | start <= i < start + cnt :: b[i] == v
  }

  /** bitmap_set_multiple */
  function SetRange(b: seq<bool>, start: nat, cnt: nat, v: bool): (r: seq<bool>)
    ensures |r| == |b|
  {
    seq(|b|, i requires 0 <= i < |b| => if start <= i < start + cnt then v else b[i])
  }

  datatype Found = Error | At(idx: nat)

  /** bitmap_scan finds the first group, at or after start. */
  ghost predicate FirstGroup(b: seq<bool>, start: nat, cnt: nat, v: bool, r: Found) {
    match r
    case Error => forall i | start <= i && i + cnt <= |b| :: !AllAre(b, i, cnt, v)
    case At(idx) => start <= idx && AllAre(b, idx, cnt, v) && forall i | start <= i < idx :: !AllAre(b, i, cnt, v)
  }

  function Scan(b: seq<bool>, start: nat, cnt: nat, v: bool): (r: Found)
    ensures FirstGroup(b, start, cnt, v, r)
    decreases |b| - start
  {
    if start + cnt > |b| then Error
    else if AllAre(b, start, cnt, v) then At(start)
    else Scan(b, start + 1, cnt, v)
  }

  lemma FirstGroupUnique(b: seq<bool>, start: nat, cnt: nat, v: bool, r: Found, r': Found)
    requires FirstGroup(b, start, cnt, v, r) && FirstGroup(b, start, cnt, v, r')
    ensures r == r'
  {
  }

  // ---- the code ---------------------------------------------------------------------------------

  class Bitmap {
    const bitCnt: nat
    const words: array<Elem>

    ghost predicate Valid()
      reads this
    {
      words.Length == ElemCnt(bitCnt)
    }

    ghost function Bits(): (b: seq<bool>)
      requires Valid()
      reads this, words
      ensures |b| == bitCnt
    {
      BitsOf(words[..], bitCnt)
    }

    /** bitmap_create */
    constructor (bitCnt: nat)
      ensures Valid() && fresh(words) && this.bitCnt == bitCnt && Bits() == SetRange(Bits(), 0, bitCnt, false)
    {
      this.bitCnt := bitCnt;
      words := new Elem[ElemCnt(bitCnt)];
      new;
      SetMultiple(0, bitCnt, false);
    }

    /** bitmap_test */
    method Test(idx: nat) returns (v: bool)
      requires Valid() && idx < bitCnt
      ensures v == Bits()[idx]
    {
      hide Hit;
      InWords(bitCnt, idx);
      v := Hit(words[idx / ELEM_BITS], idx);
    }

    /** bitmap_set, with bitmap_mark and bitmap_reset */
    method Set(idx: nat, v: bool)
      requires Valid() && idx < bitCnt
      modifies words
      ensures Bits() == old(Bits())[idx := v]
    {
      hide Hit, Marked, Cleared, BitsOf;
      InWords(bitCnt, idx);
      var k := idx / ELEM_BITS;
      ghost var before := words[..];
      ChangesOne(before, bitCnt, idx, v);
      words[k] := if v then Marked(words[k], idx) else Cleared(words[k], idx);
      assert words[..] == before[k := if v then Marked(before[k], idx) else Cleared(before[k], idx)];
    }

    /** bitmap_set_multiple */
    method SetMultiple(start: nat, cnt: nat, v: bool)
      requires Valid() && start + cnt <= bitCnt
      modifies words
      ensures Bits() == SetRange(old(Bits()), start, cnt, v)
    {
      hide BitsOf;
      var i := 0;
      while i < cnt
        invariant 0 <= i <= cnt && Bits() == SetRange(old(Bits()), start, i, v)
      {
        Set(start + i, v);
        i := i + 1;
      }
    }

    /** bitmap_contains */
    method Contains(start: nat, cnt: nat, v: bool) returns (found: bool)
      requires Valid() && start + cnt <= bitCnt
      ensures found <==> !AllAre(Bits(), start, cnt, !v)
    {
      hide BitsOf;
      var i := 0;
      while i < cnt
        invariant 0 <= i <= cnt && AllAre(Bits(), start, i, !v)
      {
        var b := Test(start + i);
        if b == v {
          return true;
        }
        i := i + 1;
      }
      return false;
    }

    /** bitmap_scan */
    method ScanFor(start: nat, cnt: nat, v: bool) returns (r: Found)
      requires Valid() && start <= bitCnt
      ensures r == Scan(Bits(), start, cnt, v)
    {
      hide BitsOf, AllAre, Scan;
      r := Error;
      if cnt <= bitCnt {
        var i := start;
        while i <= bitCnt - cnt
          invariant start <= i && forall j | start <= j < i :: !AllAre(Bits(), j, cnt, v)
        {
          var other := Contains(i, cnt, !v);
          if !other {
            r := At(i);
            FirstGroupUnique(Bits(), start, cnt, v, r, Scan(Bits(), start, cnt, v));
            return;
          }
          i := i + 1;
        }
      }
      FirstGroupUnique(Bits(), start, cnt, v, r, Scan(Bits(), start, cnt, v));
    }

    /** bitmap_scan_and_flip.  For a count of zero the answer is start, where the comment in the
        source has 0. */
    method ScanAndFlip(start: nat, cnt: nat, v: bool) returns (r: Found)
      requires Valid() && start <= bitCnt
      modifies words
      ensures r == Scan(old(Bits()), start, cnt, v)
      ensures Bits() == if r.At? then SetRange(old(Bits()), r.idx, cnt, !v) else old(Bits())
    {
      hide BitsOf;
      r := ScanFor(start, cnt, v);
      if r.At? {
        SetMultiple(r.idx, cnt, !v);
      }
    }
  }
}
