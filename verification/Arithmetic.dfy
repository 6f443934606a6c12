/** 64-bit division built from the x86 DIVL instruction (src/lib/arithmetic.c).

    Machine words are integers in range; every shift, product and cast that the
    C code lets wrap is written out with an explicit modulus. */
module Arithmetic {

  const B31: int := 0x8000_0000
  const B32: int := 0x1_0000_0000
  const B63: int := 0x8000_0000_0000_0000
  const B64: int := 0x1_0000_0000_0000_0000

  type u32 = x: int | 0 <= x < B32
  type u64 = x: int | 0 <= x < B64
  type i64 = x: int | -B63 <= x < B63

  /** The outcome of code that may raise the divide error (#DE). */
  datatype Outcome<T> = DivideError | Done(value: T)

  /** DIVL: 64 by 32 bits, trapping when the quotient does not fit in 32 bits. */
  function Divl(n: u64, d: u32): Outcome<u32> {
    if d == 0 || n / d >= B32 then DivideError else Done(n / d)
  }

  function Pow2(k: nat): (p: nat)
    ensures p > 0
  {
    if k == 0 then 1 else 2 * Pow2(k - 1)
  }

  lemma {:induction false} Pow2Sum(a: nat, b: nat)
    ensures Pow2(a + b) == Pow2(a) * Pow2(b)
  {
    if a != 0 {
      Pow2Sum(a - 1, b);
      assert Pow2(a + b) == 2 * Pow2(a - 1 + b);
    }
  }

  lemma Pow2Values()
    ensures Pow2(1) == 2 && Pow2(2) == 4 && Pow2(4) == 16 && Pow2(8) == 0x100
    ensures Pow2(16) == 0x1_0000 && Pow2(32) == B32
  {
    Pow2Sum(1, 1);
    Pow2Sum(2, 2);
    Pow2Sum(4, 4);
    Pow2Sum(8, 8);
    Pow2Sum(16, 16);
  }

  lemma MulLe(a: int, b: int, c: int)
    requires a <= b && 0 <= c
    ensures a * c <= b * c
  {
    assert (b - a) * c >= 0;
  }

  lemma DivBounds(n: int, d: int)
    requires d > 0
    ensures n / d * d <= n < n / d * d + d
    ensures n >= 0 ==> n / d >= 0
  {
  }

  lemma DivUnique(n: int, d: int, q: int)
    requires d > 0 && q * d <= n < q * d + d
    ensures n / d == q
  {
    var k := n / d;
    DivBounds(n, d);
    if k < q {
      MulLe(k + 1, q, d);
    } else if k > q {
      MulLe(q + 1, k, d);
    }
  }

  /** Dividing twice is dividing by the product. */
  lemma DivDiv(n: nat, a: int, b: int)
    requires a > 0 && b > 0
    ensures a * b > 0 && n / a / b == n / (a * b)
  {
    var k := n / a;
    var q := k / b;
    DivBounds(n, a);
    DivBounds(k, b);
    MulLe(q * b, k, a);
    MulLe(k + 1, q * b + b, a);
    assert q * b * a == q * (a * b);
    assert (q * b + b) * a == q * (a * b) + a * b;
    DivUnique(n, a * b, q);
  }

  /** A word shifted left without losing bits. */
  function Shl(word: nat, n: nat): nat {
    if n == 0 then word else 2 * Shl(word, n - 1)
  }

  lemma {:induction false} ShlIsProduct(word: nat, n: nat)
    ensures Shl(word, n) == word * Pow2(n)
  {
    if n != 0 {
      ShlIsProduct(word, n - 1);
      assert word * (2 * Pow2(n - 1)) == 2 * (word * Pow2(n - 1));
    }
  }

  lemma {:induction false} ShlMore(word: nat, n: nat, k: nat)
    ensures Shl(word, n + k) == Shl(Shl(word, n), k)
  {
    if k != 0 {
      ShlMore(word, n, k - 1);
    }
  }

  lemma ShlFour(x: nat)
    ensures Shl(x, 0) == x && Shl(x, 1) == 2 * x && Shl(x, 2) == 4 * x && Shl(x, 4) == 16 * x
  {
    ShlMore(x, 2, 2);
  }

  lemma ShlSixteen(x: nat)
    ensures Shl(x, 8) == 0x100 * x && Shl(x, 16) == 0x1_0000 * x
  {
    ShlMore(x, 4, 4);
    ShlFour(x);
    ShlFour(16 * x);
    ShlMore(x, 8, 4);
    ShlFour(0x100 * x);
    ShlMore(x, 12, 4);
    ShlFour(0x1000 * x);
  }

  /** One halving step of nlz: a word below t = 2^(32-k) has k leading zeros to count and shift
      out. A word of at least `low` leaves it no smaller than t. */
  method NlzStep(word: u32, n: nat, x: u32, k: nat, t: int, ghost low: nat)
      returns (n': nat, x': u32)
    requires x == Shl(word, n) && low <= x
    requires x < t ==> t <= Shl(low, k) <= Shl(x, k) < B32
    ensures x' == Shl(word, n') && n <= n' <= n + k && t <= x'
  {
    n', x' := n, x;
    if x <= t - 1 {
      ShlMore(word, n, k);
      n', x' := n + k, Shl(x, k) % B32;
    }
  }

  /** nlz: the shift count that brings the top set bit of a nonzero word to bit 31. */
  method Nlz(word: u32) returns (n: nat)
    requires word != 0
    ensures n <= 31
    ensures B31 <= Shl(word, n) < B32
  {
    var x: u32;
    ShlSixteen(word);
    ShlSixteen(1);
    n, x := NlzStep(word, 0, word, 16, 0x0001_0000, 1);
    ShlSixteen(x);
    ShlSixteen(0x0001_0000);
    n, x := NlzStep(word, n, x, 8, 0x0100_0000, 0x0001_0000);
    ShlFour(x);
    ShlFour(0x0100_0000);
    n, x := NlzStep(word, n, x, 4, 0x1000_0000, 0x0100_0000);
    ShlFour(x);
    ShlFour(0x1000_0000);
    n, x := NlzStep(word, n, x, 2, 0x4000_0000, 0x1000_0000);
    if x <= 0x7FFF_FFFF {
      ShlMore(word, n, 1);
      n := n + 1;
    }
  }

  /** Narrow divisor: one DIVL on the remainder of the high word.  It cannot trap, and
      adding back the high word's quotient gives the whole quotient. */
  lemma NarrowQuotient(n: u64, n1: u32, n0: u32, d: u32)
    requires d != 0 && n == n1 * B32 + n0
    ensures 0 <= B32 * (n1 % d) + n0 < B64
    ensures Divl(B32 * (n1 % d) + n0, d).Done?
    ensures Divl(B32 * (n1 % d) + n0, d).value + B32 * (n1 / d) == n / d
    ensures 0 <= n / d < B64
  {
    hide *;
    QuotientAndRest(n1, d);
    NarrowParts(n, n1, n0, d, n1 % d, n1 / d);
    DivlDone(B32 * (n1 % d) + n0, d);
  }

  lemma QuotientAndRest(n: nat, d: int)
    requires d > 0
    ensures n == (n / d) * d + n % d && 0 <= n % d < d && n / d >= 0
  {
  }

  lemma DivlDone(n: u64, d: u32)
    requires d != 0 && n / d < B32
    ensures Divl(n, d) == Done(n / d)
  {
  }

  lemma NarrowParts(n: u64, n1: u32, n0: u32, d: u32, rem: int, k: int)
    requires d != 0 && n == n1 * B32 + n0 && n1 == k * d + rem && 0 <= rem < d && 0 <= k
    ensures 0 <= B32 * rem + n0 < B64 && (B32 * rem + n0) / d < B32
    ensures (B32 * rem + n0) / d + B32 * k == n / d && 0 <= n / d < B64
  {
    hide *;
    var part := B32 * rem + n0;
    RestBelow(rem, n0, d);
    DivBounds(part, d);
    NarrowSum(n, n1, n0, d, rem, k, part, part / d);
    DivUnique(n, d, part / d + B32 * k);
  }

  lemma RestBelow(rem: int, n0: u32, d: u32)
    requires 0 <= rem < d
    ensures 0 <= B32 * rem + n0 < B32 * d < B64
  {
  }

  lemma NarrowSum(n: int, n1: int, n0: int, d: int, rem: int, k: int, part: int, q: int)
    requires n == n1 * B32 + n0 && n1 == k * d + rem && part == B32 * rem + n0
    requires q * d <= part < q * d + d && part < B32 * d && 0 < d && 0 <= n < B64
    requires 0 <= k
    ensures (q + B32 * k) * d <= n < (q + B32 * k) * d + d
    ensures q < B32
    ensures q + B32 * k < B64
  {
    assert (q + B32 * k) * d == q * d + B32 * (k * d);
    if q >= B32 {
      MulLe(B32, q, d);
    }
    if q + B32 * k >= B64 {
      MulLe(B64, q + B32 * k, d);
    }
  }

  /** Dividing by something not larger than d cannot lower the quotient. */
  lemma EstimateLow(n: nat, d: int, e: int)
    requires 0 < e <= d
    ensures n / d <= n / e
  {
    var q, t := n / e, n / d;
    DivBounds(n, e);
    DivBounds(n, d);
    MulLe(e, d, t);
    if q < t {
      MulLe(q + 1, t, e);
    }
  }

  /** The normalized divisor v = floor(d / p), p = 2^(32-s), is a 32-bit number with its
      top bit set; dividing by e = v * p instead of d raises the quotient by at most one. */
  lemma EstimateHigh(n: u64, d: u64, v: int, p: int, e: int)
    requires p >= 2 && B31 <= v && 0 < e == v * p
    requires e <= d < e + p
    ensures n / e <= n / d + 1
  {
    var q, t := n / e, n / d;
    assert q * e <= n by { DivBounds(n, e); }
    assert t * d <= n < t * d + d && 0 <= t by { DivBounds(n, d); }
    AtMostOneMore(n, d, v, p, e, q, t);
  }

  lemma AtMostOneMore(n: int, d: int, v: int, p: int, e: int, q: int, t: int)
    requires p >= 2 && B31 <= v && 0 < e == v * p && e <= d < e + p && 0 <= n < B64
    requires q * e <= n && t * d <= n < t * d + d && 0 <= t
    ensures q <= t + 1
  {
    if q > t + 1 {
      OffByTwo(n, d, e, p, q, t);
      TooLarge(t, v, p);
      MulLe(e, d, t);
    }
  }

  lemma OffByTwo(n: int, d: int, e: int, p: int, q: int, t: nat)
    requires 0 < e <= d < e + p && q >= t + 2
    requires q * e <= n < t * d + d
    ensures e < (t + 1) * (p - 1)
  {
    MulLe(t + 2, q, e);
    MulLe(d, e + p - 1, t + 1);
    Expand(t, e, p);
    assert (t + 1) * d == t * d + d;
  }

  lemma Expand(t: int, e: int, p: int)
    ensures (t + 2) * e == (t + 1) * e + e
    ensures (e + p - 1) * (t + 1) == (t + 1) * e + (t + 1) * (p - 1)
    ensures (t + 1) * (p - 1) == (t + 1) * p - (t + 1)
  {
  }

  /** If the estimate were off by two, the quotient would exceed 64 bits. */
  lemma TooLarge(t: nat, v: int, p: int)
    requires p >= 2 && v >= B31
    requires v * p < (t + 1) * (p - 1)
    ensures (v * p) * t >= B64
  {
    Square(v);
    if p == 2 {
      MulLe(2 * v, t, 2 * v);
    } else if p == 3 {
      ProductOfThree(t, v);
    } else {
      ProductOfMore(t, v, p);
    }
  }

  lemma ProductOfThree(t: nat, v: int)
    requires v >= B31 && 3 * v < (t + 1) * 2 && v * v >= B31 * B31 && v * v >= B31 * v
    ensures (v * 3) * t >= B64
  {
    MulLe(3 * v - 1, 2 * t, 3 * v);
    assert (3 * v - 1) * (3 * v) == 9 * (v * v) - 3 * v;
    assert 2 * t * (3 * v) == 2 * ((v * 3) * t);
  }

  lemma ProductOfMore(t: nat, v: int, p: int)
    requires p >= 4 && v >= B31 && v * p < (t + 1) * (p - 1) && v * v >= B31 * B31
    ensures (v * p) * t >= B64
  {
    if t < v {
      Expand(v - 1, p, p);
      MulLe(t + 1, v, p - 1);
    }
    MulLe(0, v, p);
    MulLe(v, t, v * p);
    assert v * (v * p) == (v * v) * p;
    MulLe(4, p, v * v);
  }

  lemma Square(v: int)
    requires v >= B31
    ensures v * v >= B31 * B31 && v * v >= B31 * v
    ensures (2 * v) * (2 * v) == 4 * (v * v)
  {
    MulLe(B31, v, v);
    MulLe(B31, v, B31);
  }

  /** A word whose top bit lands on bit 31 leaves room for the bits below it. */
  lemma NoOverflow(d: nat, d1: nat, ps: int, p: int)
    requires ps > 0 && p >= 2 && ps * p == B32 && d1 * ps < B32
    requires d1 * B32 <= d < d1 * B32 + B32
    ensures d * ps < B64
    ensures (d1 * ps) * B32 <= d * ps
  {
    if d1 >= p {
      MulLe(p, d1, ps);
    }
    MulLe(d1 + 1, p, ps);
    MulLe(d + 1, (d1 + 1) * B32, ps);
    assert (d1 + 1) * B32 * ps == ((d1 + 1) * ps) * B32;
    assert (d + 1) * ps == d * ps + ps;
    MulLe(d1 * B32, d, ps);
  }

  lemma ScaleDown(d: nat, ps: int, p: int)
    requires ps > 0 && p > 0 && ps * p == B32
    ensures d * ps / B32 == d / p
  {
    var q := d / p;
    DivBounds(d, p);
    MulLe(q * p, d, ps);
    MulLe(d + 1, q * p + p, ps);
    assert q * p * ps == q * (ps * p);
    assert (q * p + p) * ps == q * (ps * p) + ps * p;
    assert (d + 1) * ps == d * ps + ps;
    DivUnique(d * ps, B32, q);
  }

  /** The normalized divisor of the wide branch: (d << s) >> 32. */
  function Normalized(d: u64, s: nat): u32 {
    Shl(d, s) % B64 / B32
  }

  /** Normalizing keeps the top 32 significant bits: nothing is shifted out, the top bit
      is set, and what is dropped is less than one unit p = 2^(32-s). */
  lemma NormalizedBounds(d: u64, s: nat)
    requires d >= B32 && s <= 31
    requires B31 <= Shl(d / B32, s) < B32
    ensures B31 <= Normalized(d, s)
    ensures var e := Normalized(d, s) * (2 * Pow2(31 - s)); 0 < e <= d < e + 2 * Pow2(31 - s)
  {
    hide *;
    UnitOf(s);
    ShlIsProduct(d / B32, s);
    ShlIsProduct(d, s);
    NormalizedIs(d, s, Pow2(s), 2 * Pow2(31 - s));
    UnitBounds(d, 2 * Pow2(31 - s));
  }

  lemma UnitOf(s: nat)
    requires s <= 31
    ensures Pow2(s) * (2 * Pow2(31 - s)) == B32 && 2 * Pow2(31 - s) >= 2
  {
    Pow2Sum(s, 32 - s);
    Pow2Values();
    assert Pow2(32 - s) == 2 * Pow2(31 - s);
  }

  lemma UnitBounds(d: nat, p: int)
    requires p > 0 && d / p >= B31
    ensures 0 < d / p * p <= d < d / p * p + p
  {
    DivBounds(d, p);
    MulLe(1, d / p, p);
  }

  /** Dividing the shifted divisor by 2^32 is dividing it by p. */
  lemma NormalizedIs(d: u64, s: nat, ps: int, p: int)
    requires ps > 0 && p >= 2 && ps * p == B32 && B31 <= d / B32 * ps < B32 && Shl(d, s) == d * ps
    ensures Normalized(d, s) == d / p && B31 <= d / p
  {
    hide Shl;
    DivBounds(d, B32);
    NoOverflow(d, d / B32, ps, p);
    ScaleDown(d, ps, p);
    TopBit(d * ps, d / B32 * ps);
  }

  lemma TopBit(x: int, top: int)
    requires B31 <= top && top * B32 <= x < B64
    ensures x % B64 == x && B31 <= x / B32
  {
  }

  /** Wide divisor: the DIVL cannot trap, and the estimate computed by the code is the
      quotient or one more. */
  lemma WideEstimate(n: u64, d: u64, s: nat)
    requires d >= B32 && s <= 31
    requires B31 <= Shl(d / B32, s) < B32
    ensures B31 <= Normalized(d, s)
    ensures n / 2 / Normalized(d, s) < B32
    ensures n / d <= n / 2 / Normalized(d, s) / Pow2(31 - s) <= n / d + 1
  {
    var v, h := Normalized(d, s), Pow2(31 - s);
    NormalizedBounds(d, s);
    var e := v * (2 * h);
    EstimateLow(n, d, e);
    EstimateHigh(n, d, v, 2 * h, e);
    HalfQuotient(n, v);
    TwoSteps(n, v, h);
  }

  lemma TwoSteps(n: nat, v: int, h: int)
    requires v > 0 && h > 0
    ensures v * (2 * h) > 0 && n / 2 / v / h == n / (v * (2 * h))
  {
    DivDiv(n, 2, v);
    DivDiv(n, 2 * v, h);
    assert 2 * v * h == v * (2 * h);
  }

  lemma HalfQuotient(n: u64, v: int)
    requires v >= B31
    ensures n / 2 / v < B32
  {
    var q := n / 2 / v;
    DivBounds(n / 2, v);
    if q >= B32 {
      MulLe(B32, q, v);
    }
  }

  /** The branch of udiv64 for divisors below 2^32. */
  method UDivNarrow(n: u64, d: u32) returns (r: Outcome<u64>)
    ensures d == 0 ==> r == DivideError
    ensures d != 0 ==> r == Done(n / d)
  {
    var n1: u32, n0: u32 := n / B32, n % B32;
    if d == 0 {
      return DivideError;
    }
    NarrowQuotient(n, n1, n0, d);
    var high := n1 / d;
    var low := Divl(B32 * (n1 % d) + n0, d);
    if low == DivideError {
      return DivideError;
    }
    r := Done(low.value + B32 * high);
  }

  /** The branch of udiv64 for divisors of more than 32 bits and no larger than n. */
  method UDivWide(n: u64, d: u64) returns (r: Outcome<u64>)
    requires B32 <= d <= n
    ensures r == Done(n / d)
  {
    var s := Nlz(d / B32);
    WideEstimate(n, d, s);
    var est := Divl(n / 2, Normalized(d, s));
    if est == DivideError {
      return DivideError;
    }
    var q := est.value / Pow2(31 - s);
    WideCorrection(n, d, q);
    var rest := (n - (q - 1) * d) % B64;
    r := Done(if rest < d then q - 1 else q);
  }

  /** udiv64: traps exactly on a zero divisor, otherwise returns the floor quotient. */
  method UDiv64(n: u64, d: u64) returns (r: Outcome<u64>)
    ensures d == 0 ==> r == DivideError
    ensures d != 0 ==> r == Done(n / d)
  {
    if d / B32 == 0 {
      r := UDivNarrow(n, d);
    } else if n < d {
      DivUnique(n, d, 0);
      r := Done(0);
    } else {
      r := UDivWide(n, d);
    }
  }

  /** The final comparison picks the quotient out of the two candidates. */
  lemma WideCorrection(n: u64, d: u64, q: int)
    requires 0 < d <= n && n / d <= q <= n / d + 1
    ensures 1 <= q
    ensures 0 <= n - (q - 1) * d < B64
    ensures (n - (q - 1) * d) % B64 == n - (q - 1) * d
    ensures (if n - (q - 1) * d < d then q - 1 else q) == n / d
    ensures q - 1 < B64
  {
    EstimateLow(n, d, 1);
    var t := n / d;
    DivBounds(n, d);
    if t < 1 {
      MulLe(t, 0, d);
    }
    assert (t - 1) * d == t * d - d;
    MulLe(0, q - 1, d);
    MulLe(q - 1, t, d);
  }

  /** umod64 returns a 32-bit word, so it is the remainder modulo 2^32 ... */
  method UMod64(n: u64, d: u64) returns (r: Outcome<u32>)
    ensures d == 0 ==> r == DivideError
    ensures d != 0 ==> r == Done(n % d % B32)
    // ... which is the remainder exactly when the remainder fits in 32 bits, so always when the
    // divisor is at most 2^32.
    ensures d != 0 ==> (r == Done(n % d) <==> n % d < B32)
    ensures 0 < d <= B32 ==> r == Done(n % d)
  {
    var q := UDiv64(n, d);
    if q == DivideError {
      return DivideError;
    }
    assert n - d * (n / d) == n % d;
    r := Done((n - d * q.value) % B64 % B32);
  }

  /** Reduces an integer to the int64_t that a two's-complement machine holds. */
  function Wrap64(x: int): (r: i64)
    ensures (x - r) % B64 == 0
  {
    var m := x % B64;
    if m < B63 then m else m - B64
  }

  function Abs(x: int): nat {
    if x >= 0 then x else -x
  }

  /** C's signed quotient: truncation toward zero. */
  function Truncated(n: int, d: int): int
    requires d != 0
  {
    var q := Abs(n) / Abs(d);
    if (n < 0) == (d < 0) then q else -q
  }

  /** What makes Truncated the quotient: the remainder is smaller than the divisor and
      has the sign of the dividend. */
  lemma TruncatedMeaning(n: int, d: int)
    requires d != 0
    ensures var rem := n - d * Truncated(n, d);
            && (n >= 0 ==> 0 <= rem) && (n <= 0 ==> rem <= 0)
            && Abs(rem) < Abs(d)
  {
    var q := Abs(n) / Abs(d);
    DivBounds(Abs(n), Abs(d));
    Signs(d, q);
  }

  lemma Signs(d: int, q: int)
    ensures d * q == if d >= 0 then q * Abs(d) else -(q * Abs(d))
    ensures d * -q == -(d * q)
  {
  }

  /** -(uint64_t) x is the magnitude of a negative x, even of the most negative one. */
  lemma UnsignedNegation(x: int)
    requires -B63 <= x < 0
    ensures (-(x % B64)) % B64 == -x
  {
    assert x % B64 == x + B64;
  }

  /** The magnitude the code passes to udiv64: x, or -(uint64_t) x. */
  function Magnitude(x: i64): (m: u64)
    ensures m == Abs(x)
  {
    if x >= 0 then x else UnsignedNegation(x); (-(x % B64)) % B64
  }

  /** Restoring the sign, with the casts and the negation wrapping as the machine does. */
  function Signed(q: u64, negative: bool): i64 {
    if negative then Wrap64(-(Wrap64(q) as int)) else Wrap64(q)
  }

  lemma SignedIsWrapped(q: u64, negative: bool)
    requires q <= B63
    ensures Signed(q, negative) == Wrap64(if negative then 0 - q else q)
    ensures Signed(q, negative) == (if negative then 0 - q else q) <==> !(q == B63 && !negative)
  {
  }

  /** sdiv64: the truncated quotient for every pair but the one whose quotient is 2^63. */
  method SDiv64(n: i64, d: i64) returns (r: Outcome<i64>)
    ensures d == 0 ==> r == DivideError
    ensures d != 0 ==> r == Done(Wrap64(Truncated(n, d)))
    ensures d != 0 ==> (r == Done(Truncated(n, d)) <==> !(n == -B63 && d == -1))
  {
    var q := UDiv64(Magnitude(n), Magnitude(d));
    if q == DivideError {
      return DivideError;
    }
    var negative := (n < 0) != (d < 0);
    QuotientRange(Abs(n), Abs(d));
    SignedIsWrapped(q.value, negative);
    r := Done(Signed(q.value, negative));
  }

  lemma QuotientRange(n: nat, d: nat)
    requires d != 0 && n <= B63
    ensures 0 <= n / d <= B63
    ensures n / d == B63 <==> n == B63 && d == 1
  {
    assert (n / d) * d <= n;
    if d >= 2 {
      assert (n / d) * d >= (n / d) * 2;
    }
  }

  /** smod64 keeps only 32 bits of the signed remainder. */
  method SMod64(n: i64, d: i64) returns (r: Outcome<int>)
    ensures d == 0 ==> r == DivideError
    ensures d != 0 ==> r.Done? && -B31 <= r.value < B31 && (r.value - (n - d * Truncated(n, d))) % B32 == 0
    ensures d != 0 ==> (r == Done(n - d * Truncated(n, d)) <==> -B31 <= n - d * Truncated(n, d) < B31)
    ensures 0 < Abs(d) <= B31 ==> r == Done(n - d * Truncated(n, d))
  {
    hide Truncated, Wrap64, Wrap32;
    var q := SDiv64(n, d);
    if q == DivideError {
      return DivideError;
    }
    var rem := Wrap64(n - Wrap64(d * q.value));
    RemainderSurvives(n, d, q.value);
    if Abs(d) <= B31 { TruncatedMeaning(n, d); }
    r := Done(Wrap32(rem));
  }

  /** Reduces an integer to the int32_t that a two's-complement machine holds. */
  function Wrap32(x: int): (r: int)
    ensures -B31 <= r < B31 && (r - x) % B32 == 0
    ensures r == x <==> -B31 <= x < B31
  {
    var m := x % B32;
    if m < B31 then m else m - B32
  }

  /** The wrapped product still yields the exact remainder, even for MIN / -1. */
  lemma RemainderSurvives(n: i64, d: i64, q: i64)
    requires d != 0 && q == Wrap64(Truncated(n, d))
    ensures Wrap64(n - Wrap64(d * q)) == n - d * Truncated(n, d)
  {
    if n == -B63 && d == -1 {
      assert Truncated(n, d) == B63;
    } else {
      assert q == Truncated(n, d) by {
        QuotientRange(Abs(n), Abs(d));
      }
      assert -B63 < n - d * q < B63 by { TruncatedMeaning(n, d); }
      WrapTwice(n, d * q);
    }
  }

  lemma WrapTwice(a: int, b: int)
    requires -B63 <= a - b < B63
    ensures Wrap64(a - Wrap64(b)) == a - b
  {
    var w := Wrap64(b);
    assert (b - w) % B64 == 0;
    var k := (b - w) / B64;
    assert b - w == k * B64;
    assert a - w == (a - b) + k * B64;
    assert (a - w) % B64 == (a - b) % B64;
  }

  /** The divisors for which umod64 is right whatever the dividend: exactly those up to 2^32. */
  lemma UMod64RightFor(d: u64)
    requires d != 0
    ensures (forall n: u64 :: n % d < B32) <==> d <= B32
  {
    if d > B32 {
      var n: u64 := B32;
      SmallQuotient(n, d);
    } else {
      forall n: u64 ensures n % d < B32 {
        QuotientAndRest(n, d);
      }
    }
  }

  lemma SmallQuotient(n: nat, d: int)
    requires n < d
    ensures n / d == 0 && n % d == n
  {
    DivUnique(n, d, 0);
    QuotientAndRest(n, d);
  }

  /** umod64 (2^32 + 5, 2^32 + 7) loses the remainder's high half: it returns 5. */
  method UMod64LosesHighBits() returns (r: Outcome<u32>)
    ensures r == Done(5) && (B32 + 5) % (B32 + 7) == B32 + 5
  {
    SmallQuotient(B32 + 5, B32 + 7);
    r := UMod64(B32 + 5, B32 + 7);
  }

  /** The signed remainder. */
  function Remainder(n: int, d: int): int
    requires d != 0
  {
    n - d * Truncated(n, d)
  }

  lemma SmallDividend(n: int, d: int)
    requires 0 <= n < Abs(d)
    ensures Remainder(n, d) == n
  {
    SmallQuotient(n, Abs(d));
  }

  /** The divisors for which smod64 is right whatever the dividend: exactly those of magnitude
      up to 2^31. */
  lemma SMod64RightFor(d: i64)
    requires d != 0
    ensures (forall n: i64 :: -B31 <= Remainder(n, d) < B31) <==> Abs(d) <= B31
  {
    if Abs(d) <= B31 {
      forall n: i64 ensures -B31 <= Remainder(n, d) < B31 {
        TruncatedMeaning(n, d);
      }
    } else {
      var n: i64 := B31;
      SmallDividend(n, d);
      assert Remainder(n, d) == B31;
    }
  }

  /** smod64 (2^31, 2^31 + 1) returns -2^31; the remainder is 2^31. */
  method SMod64LosesHighBits() returns (r: Outcome<int>)
    ensures r == Done(-B31) && Remainder(B31, B31 + 1) == B31
  {
    SmallDividend(B31, B31 + 1);
    r := SMod64(B31, B31 + 1);
  }
}
