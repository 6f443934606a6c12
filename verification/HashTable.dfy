/** The hash table of src/lib/kernel/hash.c, which the supplemental page table uses. */
module HashTable {
  import opened Basics
  import opened Arithmetic

  // ---- bits -----------------------------------------------------------------------------------

  /** Bitwise and of unsigned numbers. */
  function BitAnd(a: nat, b: nat): nat
    decreases a
  {
    if a == 0 then 0 else (if a % 2 == 1 && b % 2 == 1 then 1 else 0) + 2 * BitAnd(a / 2, b / 2)
  }

  lemma {:induction false} BitAndSelf(a: nat)
    ensures BitAnd(a, a) == a
  {
    if a > 0 {
      BitAndSelf(a / 2);
    }
  }

  /** turn_off_least_1bit */
  function TurnOff(x: nat): nat
    requires x > 0
  {
    BitAnd(x, x - 1)
  }

  lemma TurnOffOdd(x: nat)
    requires x % 2 == 1
    ensures TurnOff(x) == x - 1
  {
    BitAndSelf(x / 2);
    assert (x - 1) / 2 == x / 2;
  }

  lemma TurnOffEven(x: nat)
    requires x > 0 && x % 2 == 0
    ensures TurnOff(x) == 2 * TurnOff(x / 2)
  {
    assert (x - 1) / 2 == x / 2 - 1;
  }

  ghost predicate IsPow2(x: nat) {
    exists k: nat :: x == Pow2(k)
  }

  /** is_power_of_2 is right. */
  lemma {:induction false} PowerOfTwo(x: nat)
    requires x > 0
    ensures TurnOff(x) == 0 <==> IsPow2(x)
  {
    if x % 2 == 1 {
      TurnOffOdd(x);
      OddPower(x);
    } else {
      TurnOffEven(x);
      PowerOfTwo(x / 2);
      EvenPower(x);
    }
  }

  lemma OddPower(x: nat)
    requires x % 2 == 1
    ensures IsPow2(x) <==> x == 1
  {
    assert Pow2(0) == 1;
    if IsPow2(x) {
      var k: nat :| x == Pow2(k);
      if k > 0 {
        PowersAreEven(k);
      }
    }
  }

  lemma PowersAreEven(k: nat)
    requires k > 0
    ensures Pow2(k) % 2 == 0
  {
  }

  lemma EvenPower(x: nat)
    requires x > 0 && x % 2 == 0
    ensures IsPow2(x) <==> IsPow2(x / 2)
  {
    if IsPow2(x) {
      var k: nat :| x == Pow2(k);
      assert k > 0 && Pow2(k) == 2 * Pow2(k - 1);
      assert x / 2 == Pow2(k - 1);
    }
    if IsPow2(x / 2) {
      var k: nat :| x / 2 == Pow2(k);
      assert x == Pow2(k + 1);
    }
  }

  /** Turning off a bit that is not the highest leaves the highest. */
  lemma {:induction false} TurnOffKeepsTop(x: nat, k: nat)
    requires Pow2(k) < x < 2 * Pow2(k)
    ensures Pow2(k) <= TurnOff(x) < x
    decreases k
  {
    if x % 2 == 1 {
      TurnOffOdd(x);
    } else if k > 0 {
      TurnOffEven(x);
      assert Pow2(k) == 2 * Pow2(k - 1);
      TurnOffKeepsTop(x / 2, k - 1);
    }
  }

  /** Masking with a power of two less one is the remainder. */
  lemma {:induction false} MaskIsRemainder(h: nat, k: nat)
    ensures BitAnd(h, Pow2(k) - 1) == h % Pow2(k)
    decreases k
  {
    if k == 0 {
      MaskZero(h);
    } else {
      var c := Pow2(k - 1);
      assert Pow2(k) == 2 * c;
      MaskIsRemainder(h / 2, k - 1);
      assert (2 * c - 1) / 2 == c - 1 && (2 * c - 1) % 2 == 1;
      RemainderOfHalf(h, c);
    }
  }

  lemma {:induction false} MaskZero(h: nat)
    ensures BitAnd(h, 0) == 0
  {
    if h > 0 {
      MaskZero(h / 2);
    }
  }

  lemma RemainderOfHalf(h: nat, c: nat)
    requires c > 0
    ensures h % (2 * c) == h % 2 + 2 * (h / 2 % c)
  {
    var q, r := h / 2 / c, h / 2 % c;
    DivBounds(h / 2, c);
    assert h / 2 == q * c + r;
    assert h == 2 * (q * c + r) + h % 2;
    assert h == q * (2 * c) + (2 * r + h % 2);
    DivUnique(h, 2 * c, q);
  }

  // ---- what a table holds -----------------------------------------------------------------------

  predicate Equal<T>(less: (T, T) -> bool, x: T, y: T) {
    !less(x, y) && !less(y, x)
  }

  /** What the table's user promises: equality under less is an equivalence, and equal
      elements have equal hash values. */
  ghost predicate Consistent<T(!new)>(hash: T -> nat, less: (T, T) -> bool) {
    && (forall x :: Equal(less, x, x))
    && (forall x, y | Equal(less, x, y) :: hash(x) == hash(y))
    && (forall x, y, z | Equal(less, x, y) && Equal(less, y, z) :: Equal(less, x, z))
  }

  /** All elements, with their multiplicity. */
  ghost function Bag<T>(buckets: seq<seq<T>>): multiset<T> {
    if buckets == [] then multiset{} else multiset(buckets[0]) + Bag(buckets[1..])
  }

  lemma BagCons<T>(buckets: seq<seq<T>>, first: seq<T>, rest: seq<seq<T>>)
    requires buckets != [] && buckets[0] == first && buckets[1..] == rest
    ensures Bag(buckets) == multiset(first) + Bag(rest)
  {
  }

  lemma Cancel<T>(x: multiset<T>, y: multiset<T>, c: multiset<T>)
    requires x + c == y + c
    ensures x == y
  {
    forall e ensures x[e] == y[e] {
      assert (x + c)[e] == (y + c)[e];
    }
  }

  lemma AddFirst<T>(a: multiset<T>, x: multiset<T>, c: multiset<T>, y: multiset<T>, d: multiset<T>)
    requires x + c == y + d
    ensures (a + x) + c == (a + y) + d
  {
    assert (a + x) + c == a + (x + c) && (a + y) + d == a + (y + d);
  }

  lemma {:induction false} BagUpdate<T>(buckets: seq<seq<T>>, i: nat, b: seq<T>)
    requires i < |buckets|
    ensures Bag(buckets[i := b]) + multiset(buckets[i]) == Bag(buckets) + multiset(b)
  {
    hide Bag;
    var rest := buckets[1..];
    BagCons(buckets, buckets[0], rest);
    if i > 0 {
      BagUpdate(rest, i - 1, b);
      assert buckets[i := b][1..] == rest[i - 1 := b];
      BagCons(buckets[i := b], buckets[0], rest[i - 1 := b]);
      AddFirst(multiset(buckets[0]), Bag(rest[i - 1 := b]), multiset(buckets[i]), Bag(rest), multiset(b));
    } else {
      assert buckets[i := b][1..] == rest;
      BagCons(buckets[i := b], b, rest);
    }
  }

  lemma {:induction false} BagHas<T>(buckets: seq<seq<T>>, e: T)
    ensures e in Bag(buckets) <==> exists i | 0 <= i < |buckets| :: e in buckets[i]
  {
    if buckets != [] {
      BagHas(buckets[1..], e);
      if e in Bag(buckets[1..]) {
        var i :| 0 <= i < |buckets[1..]| && e in buckets[1..][i];
        assert e in buckets[i + 1];
      }
      if exists i | 0 <= i < |buckets| :: e in buckets[i] {
        var i :| 0 <= i < |buckets| && e in buckets[i];
        assert i > 0 ==> e in buckets[1..][i - 1];
      }
    }
  }

  lemma {:induction false} BagEmpty<T>(buckets: seq<seq<T>>)
    requires forall i | 0 <= i < |buckets| :: buckets[i] == []
    ensures Bag(buckets) == multiset{}
  {
    if buckets != [] {
      BagEmpty(buckets[1..]);
    }
  }

  /** Each element is in the bucket that masking its hash value selects. */
  ghost predicate Placed<T>(hash: T -> nat, buckets: seq<seq<T>>) {
    |buckets| > 0 && forall i, e | 0 <= i < |buckets| && e in buckets[i] :: BitAnd(hash(e), |buckets| - 1) == i
  }

  /** No two elements are equal. */
  ghost predicate Unique<T>(less: (T, T) -> bool, bag: multiset<T>) {
    && (forall x | x in bag :: bag[x] == 1)
    && (forall x, y | x in bag && y in bag && Equal(less, x, y) :: x == y)
  }

  lemma IndexInRange(h: nat, n: nat)
    requires IsPow2(n)
    ensures n > 0 && BitAnd(h, n - 1) < n
  {
    var k: nat :| n == Pow2(k);
    MaskIsRemainder(h, k);
  }

  /** What the answer of a search means. */
  ghost predicate Answers<T>(less: (T, T) -> bool, bag: multiset<T>, e: T, r: Option<T>) {
    match r
    case None => forall x | x in bag :: !Equal(less, x, e)
    case Some(x) => x in bag && Equal(less, x, e)
  }

  /** An equal element can only be in the bucket searched. */
  lemma OnlyThere<T(!new)>(hash: T -> nat, less: (T, T) -> bool, buckets: seq<seq<T>>, e: T, x: T)
    requires Consistent(hash, less) && Placed(hash, buckets) && x in Bag(buckets) && Equal(less, x, e)
    ensures BitAnd(hash(e), |buckets| - 1) < |buckets| && x in buckets[BitAnd(hash(e), |buckets| - 1)]
  {
    BagHas(buckets, x);
    hide BitAnd, Bag;
    assert Equal(less, x, e) && hash(x) == hash(e);
  }

  /** list_remove of an element. */
  function Unlisted<T(==)>(s: seq<T>, e: T): (r: seq<T>)
    requires e in s
    ensures multiset(r) + multiset{e} == multiset(s)
    ensures forall x | x in r :: x in s
  {
    if s[0] == e then
      assert s == [s[0]] + s[1..];
      s[1..]
    else
      assert s == [s[0]] + s[1..];
      [s[0]] + Unlisted(s[1..], e)
  }

  // ---- the code -----------------------------------------------------------------------------------

  /** The number of buckets for a number of elements: the largest power of two up to half of
      it, and at least four. */
  ghost predicate IsIdeal(n: nat, elemCnt: nat) {
    IsPow2(n) && n >= 4 && if elemCnt < 8 then n == 4 else n <= elemCnt / 2 < 2 * n
  }

  class Table<T(==,!new)> {
    const hash: T -> nat
    const less: (T, T) -> bool
    var buckets: seq<seq<T>>
    var elemCnt: nat

    ghost predicate Valid()
      reads this
    {
      && Consistent(hash, less) && IsPow2(|buckets|) && |buckets| >= 4 && Placed(hash, buckets)
      && Unique(less, Contents()) && elemCnt == |Contents()|
    }

    ghost function Contents(): multiset<T>
      reads this
    {
      Bag(buckets)
    }

    /** hash_init */
    constructor (hash: T -> nat, less: (T, T) -> bool)
      requires Consistent(hash, less)
      ensures Valid() && Contents() == multiset{} && this.hash == hash && this.less == less
    {
      this.hash, this.less := hash, less;
      buckets, elemCnt := [[], [], [], []], 0;
      new;
      assert Pow2(2) == 4;
      BagEmpty(buckets);
    }

    /** find_bucket */
    method FindBucket(e: T) returns (i: nat)
      requires IsPow2(|buckets|)
      ensures i == BitAnd(hash(e), |buckets| - 1) && i < |buckets|
    {
      IndexInRange(hash(e), |buckets|);
      i := BitAnd(hash(e), |buckets| - 1);
    }

    /** find_elem */
    method FindElem(bucket: seq<T>, e: T) returns (r: Option<T>)
      ensures if r.Some? then r.value in bucket && Equal(less, r.value, e) else forall x | x in bucket ::
              !Equal(less, x, e)
    {
      for i := 0 to |bucket|
        invariant forall j | 0 <= j < i :: !Equal(less, bucket[j], e)
      {
        if !less(bucket[i], e) && !less(e, bucket[i]) {
          return Some(bucket[i]);
        }
      }
      r := None;
    }

    /** hash_find */
    method Find(e: T) returns (r: Option<T>)
      requires Valid()
      ensures Answers(less, Contents(), e, r)
    {
      hide Bag, BitAnd, Consistent, Unique;
      var i := FindBucket(e);
      r := FindElem(buckets[i], e);
      if r.Some? {
        BagHas(buckets, r.value);
      } else {
        forall x | x in Contents() ensures !Equal(less, x, e) {
          if Equal(less, x, e) {
            OnlyThere(hash, less, buckets, e, x);
          }
        }
      }
    }

    /** How rehash picks the number of buckets: the largest power of two up to half the number
        of elements, and at least four. */
    method IdealCount() returns (n: nat)
      ensures IsIdeal(n, elemCnt)
    {
      hide BitAnd, IsPow2;
      n := elemCnt / 2;
      if n < 4 {
        n := 4;
      }
      ghost var k := HighestBit(n);
      ghost var top := Pow2(k);
      FourBelow(n, k);
      while TurnOff(n) != 0
        invariant 4 <= top <= n < 2 * top && top == Pow2(k)
                  && n <= (if elemCnt / 2 < 4 then 4 else elemCnt / 2) < 2 * top
        decreases n
      {
        PowerOfTwo(n);
        if n == top {
          PowIsPow2(k);
        }
        TurnOffKeepsTop(n, k);
        n := TurnOff(n);
      }
      PowerOfTwo(n);
      OnlyTop(n, k);
    }

    /** rehash; memory says whether the new buckets can be allocated. */
    method Rehash(memory: bool)
      requires Valid()
      modifies this
      ensures Valid() && Contents() == old(Contents()) && elemCnt == old(elemCnt)
      ensures if memory then IsIdeal(|buckets|, elemCnt) else buckets == old(buckets)
    {
      hide Bag, BitAnd, IsPow2, Placed, Unique, Consistent;
      var n := IdealCount();
      if n == |buckets| || !memory {
        return;
      }
      var oldBuckets := buckets;
      buckets := seq(n, _ => []);
      BagEmpty(buckets);
      EmptyPlaced(hash, n);
      BagPrefixStarts(oldBuckets);
      for i := 0 to |oldBuckets|
        invariant |buckets| == n && Placed(hash, buckets) && Bag(buckets) == Bag(oldBuckets[..i])
        invariant elemCnt == old(elemCnt)
      {
        BagPrefixGrows(oldBuckets, i);
        var bucket := oldBuckets[i];
        for j := 0 to |bucket|
          invariant |buckets| == n && Placed(hash, buckets)
                    && Bag(buckets) == Bag(oldBuckets[..i]) + multiset(bucket[..j])
          invariant elemCnt == old(elemCnt)
        {
          var e := bucket[j];
          var k := FindBucket(e);
          PushFront(hash, buckets, k, e);
          assert bucket[..j + 1] == bucket[..j] + [e];
          buckets := buckets[k := [e] + buckets[k]];
        }
        assert bucket[..|bucket|] == bucket;
      }
      assert oldBuckets[..|oldBuckets|] == oldBuckets;
    }

    /** hash_insert */
    method Insert(e: T, memory: bool) returns (r: Option<T>)
      requires Valid()
      modifies this
      ensures Valid() && Answers(less, old(Contents()), e, r)
      ensures Contents() == if r.None? then old(Contents()) + multiset{e} else old(Contents())
      ensures if memory then IsIdeal(|buckets|, elemCnt) else |buckets| == |old(buckets)|
    {
      hide Bag, BitAnd, IsPow2, Placed, Unique, Consistent, Answers;
      var i := FindBucket(e);
      r := Find(e);
      if r.None? {
        PushFront(hash, buckets, i, e);
        OneMore(hash, less, Contents(), e);
        elemCnt := elemCnt + 1;
        buckets := buckets[i := [e] + buckets[i]];
      }
      Rehash(memory);
    }

    /** hash_delete */
    method Delete(e: T, memory: bool) returns (r: Option<T>)
      requires Valid()
      modifies this
      ensures Valid() && Answers(less, old(Contents()), e, r)
      ensures if r.Some? then Contents() + multiset{r.value} == old(Contents()) else buckets == old(buckets)
      ensures r.Some? ==> if memory then IsIdeal(|buckets|, elemCnt) else |buckets| == |old(buckets)|
    {
      hide Bag, BitAnd, IsPow2, Placed, Unique, Consistent;
      r := Find(e);
      if r.Some? {
        RemoveElem(r.value);
        Rehash(memory);
      }
    }

    /** remove_elem */
    method RemoveElem(x: T)
      requires Valid() && x in Contents()
      modifies this
      ensures Valid() && Contents() + multiset{x} == old(Contents()) && |buckets| == |old(buckets)|
    {
      hide Bag, BitAnd, IsPow2, Placed, Unique, Unlisted;
      var k := FindBucket(x);
      InItsBucket(hash, less, buckets, x);
      TakeOut(hash, buckets, k, x);
      ghost var before := Contents();
      buckets := buckets[k := Unlisted(buckets[k], x)];
      OneLess(less, before, Contents(), x);
      elemCnt := elemCnt - 1;
    }

    /** hash_replace: an equal element is taken out first. */
    method Replace(e: T, memory: bool) returns (r: Option<T>)
      requires Valid()
      modifies this
      ensures Valid() && Answers(less, old(Contents()), e, r)
      ensures Contents() == if r.Some? then old(Contents()) - multiset{r.value} + multiset{e}
              else old(Contents()) + multiset{e}
      ensures if memory then IsIdeal(|buckets|, elemCnt) else |buckets| == |old(buckets)|
    {
      hide Bag, BitAnd, IsPow2, Placed, Unique, Consistent;
      r := Find(e);
      ghost var before := Contents();
      if r.Some? {
        RemoveElem(r.value);
        NothingElse(hash, less, before, Contents(), e, r.value);
      }
      var i := FindBucket(e);
      PushFront(hash, buckets, i, e);
      OneMore(hash, less, Contents(), e);
      elemCnt := elemCnt + 1;
      buckets := buckets[i := [e] + buckets[i]];
      Rehash(memory);
    }
  }

  lemma OneMore<T(!new)>(hash: T -> nat, less: (T, T) -> bool, bag: multiset<T>, e: T)
    requires Consistent(hash, less) && Unique(less, bag) && Answers(less, bag, e, None)
    ensures Unique(less, bag + multiset{e}) && |bag + multiset{e}| == |bag| + 1
  {
    assert e !in bag by {
      assert Equal(less, e, e);
    }
  }

  lemma OneLess<T>(less: (T, T) -> bool, bag: multiset<T>, bag': multiset<T>, x: T)
    requires Unique(less, bag) && bag' + multiset{x} == bag
    ensures Unique(less, bag') && |bag'| == |bag| - 1
  {
    assert forall y | y in bag' :: y in bag;
  }

  /** Once the equal element is out, nothing in the table is equal. */
  lemma NothingElse<T(!new)>(hash: T -> nat, less: (T, T) -> bool, bag: multiset<T>, bag': multiset<T>, e: T, x: T)
    requires Consistent(hash, less) && Unique(less, bag) && bag' + multiset{x} == bag && Equal(less, x, e)
    ensures Answers(less, bag', e, None)
  {
    forall y | y in bag' ensures !Equal(less, y, e) {
      assert y in bag && x in bag;
      if Equal(less, y, e) {
        SameElement(hash, less, bag, y, e, x);
      }
    }
  }

  lemma SameElement<T(!new)>(hash: T -> nat, less: (T, T) -> bool, bag: multiset<T>, y: T, e: T, x: T)
    requires Consistent(hash, less) && Unique(less, bag) && y in bag && x in bag && Equal(less, y, e)
             && Equal(less, x, e)
    ensures y == x
  {
    assert Equal(less, e, x) && Equal(less, y, x);
  }

  lemma InItsBucket<T(!new)>(hash: T -> nat, less: (T, T) -> bool, buckets: seq<seq<T>>, x: T)
    requires Consistent(hash, less) && Placed(hash, buckets) && x in Bag(buckets)
    ensures BitAnd(hash(x), |buckets| - 1) < |buckets| && x in buckets[BitAnd(hash(x), |buckets| - 1)]
  {
    hide BitAnd, Bag, Placed;
    assert Equal(less, x, x);
    OnlyThere(hash, less, buckets, x, x);
  }

  ghost function HighestBit(n: nat): (k: nat)
    requires n > 0
    ensures Pow2(k) <= n < 2 * Pow2(k)
  {
    if n == 1 then 0 else
      assert Pow2(1 + HighestBit(n / 2)) == 2 * Pow2(HighestBit(n / 2));
      1 + HighestBit(n / 2)
  }

  lemma FourBelow(n: nat, k: nat)
    requires n >= 4 && Pow2(k) <= n < 2 * Pow2(k)
    ensures Pow2(k) >= 4
  {
    assert Pow2(0) == 1 && Pow2(1) == 2;
    if k >= 2 {
      assert Pow2(k) == 2 * Pow2(k - 1) && Pow2(k - 1) == 2 * Pow2(k - 2);
    }
  }

  lemma PowIsPow2(k: nat)
    ensures IsPow2(Pow2(k))
  {
  }

  /** A power of two with highest bit k is that bit. */
  lemma OnlyTop(n: nat, k: nat)
    requires IsPow2(n) && Pow2(k) <= n < 2 * Pow2(k)
    ensures n == Pow2(k)
  {
    var j: nat :| n == Pow2(j);
    if j < k {
      PowersGrow(j, k);
    } else if j > k {
      PowersGrow(k, j);
    }
  }

  lemma {:induction false} PowersGrow(j: nat, k: nat)
    requires j < k
    ensures 2 * Pow2(j) <= Pow2(k)
    decreases k
  {
    if j + 1 < k {
      PowersGrow(j, k - 1);
    }
  }

  lemma EmptyPlaced<T>(hash: T -> nat, n: nat)
    requires n > 0
    ensures Placed(hash, seq(n, _ => []))
  {
  }

  lemma BagPrefixStarts<T>(buckets: seq<seq<T>>)
    ensures Bag(buckets[..0]) == multiset{}
  {
  }

  lemma {:induction false} BagPrefixGrows<T>(buckets: seq<seq<T>>, i: nat)
    requires i < |buckets|
    ensures Bag(buckets[..i + 1]) == Bag(buckets[..i]) + multiset(buckets[i])
  {
    if i > 0 {
      BagPrefixGrows(buckets[1..], i - 1);
      assert buckets[..i + 1][1..] == buckets[1..][..i] && buckets[..i][1..] == buckets[1..][..i - 1];
      assert buckets[..i + 1][0] == buckets[0] && buckets[..i][0] == buckets[0];
    }
  }

  lemma MorePlaced<T>(hash: T -> nat, buckets: seq<seq<T>>, k: nat, b: seq<T>)
    requires Placed(hash, buckets) && k < |buckets| && forall x | x in b :: BitAnd(hash(x), |buckets| - 1) == k
    ensures Placed(hash, buckets[k := b])
  {
    hide BitAnd;
  }

  lemma PlacedAt<T>(hash: T -> nat, buckets: seq<seq<T>>, k: nat, x: T)
    requires Placed(hash, buckets) && k < |buckets| && x in buckets[k]
    ensures BitAnd(hash(x), |buckets| - 1) == k
  {
    hide BitAnd;
  }

  /** insert_elem's effect. */
  lemma PushFront<T>(hash: T -> nat, buckets: seq<seq<T>>, k: nat, e: T)
    requires Placed(hash, buckets) && k < |buckets| && k == BitAnd(hash(e), |buckets| - 1)
    ensures Placed(hash, buckets[k := [e] + buckets[k]])
    ensures Bag(buckets[k := [e] + buckets[k]]) == Bag(buckets) + multiset{e}
  {
    hide Bag, BitAnd, Placed;
    var b := [e] + buckets[k];
    BagUpdate(buckets, k, b);
    assert multiset(b) == multiset{e} + multiset(buckets[k]);
    assert (Bag(buckets) + multiset{e}) + multiset(buckets[k]) == Bag(buckets) + multiset(b);
    Cancel(Bag(buckets[k := b]), Bag(buckets) + multiset{e}, multiset(buckets[k]));
    forall x | x in b ensures BitAnd(hash(x), |buckets| - 1) == k {
      if x != e {
        PlacedAt(hash, buckets, k, x);
      }
    }
    MorePlaced(hash, buckets, k, b);
  }

  /** remove_elem's effect. */
  lemma TakeOut<T>(hash: T -> nat, buckets: seq<seq<T>>, k: nat, e: T)
    requires Placed(hash, buckets) && k < |buckets| && e in buckets[k]
    ensures Placed(hash, buckets[k := Unlisted(buckets[k], e)])
    ensures Bag(buckets[k := Unlisted(buckets[k], e)]) + multiset{e} == Bag(buckets)
  {
    hide Bag, BitAnd, Placed, Unlisted;
    var b := Unlisted(buckets[k], e);
    BagUpdate(buckets, k, b);
    assert (Bag(buckets[k := b]) + multiset{e}) + multiset(b) == Bag(buckets[k := b]) + multiset(buckets[k]);
    Cancel(Bag(buckets[k := b]) + multiset{e}, Bag(buckets), multiset(b));
    forall x | x in b ensures BitAnd(hash(x), |buckets| - 1) == k {
      PlacedAt(hash, buckets, k, x);
    }
    MorePlaced(hash, buckets, k, b);
  }
}
