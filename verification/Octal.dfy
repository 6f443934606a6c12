/** Octal numbers as text: format_integer and vsnprintf_helper in src/lib/stdio.c as used by the
    conversions %07o and %011o, and parse_octal_field in src/lib/ustar.c. */
module Octal {
  import opened Basics
  import opened Arguments

  const ZERO: Byte := 48
  const ULONG_MAX := 0xFFFF_FFFF

  predicate IsOctal(c: Byte) { ZERO <= c < ZERO + 8 }

  predicate AllOctal(s: Bytes) { forall i | 0 <= i < |s| :: IsOctal(s[i]) }

  function Digit(c: Byte): nat
    requires IsOctal(c)
  {
    (c - ZERO) as nat
  }

  /** The number a text stands for, most significant digit first. */
  function Value(s: Bytes): nat
    requires AllOctal(s)
  {
    if s == [] then 0 else 8 * Value(s[..|s| - 1]) + Digit(s[|s| - 1])
  }

  /** The same, least significant digit first. */
  ghost function Backwards(s: Bytes): nat
    requires AllOctal(s)
  {
    if s == [] then 0 else Digit(s[0]) + 8 * Backwards(s[1..])
  }

  function Pow8(n: nat): (p: nat)
    ensures p > 0
  {
    if n == 0 then 1 else 8 * Pow8(n - 1)
  }

  lemma ValueAppend(s: Bytes, c: Byte)
    requires AllOctal(s) && IsOctal(c)
    ensures AllOctal(s + [c]) && Value(s + [c]) == 8 * Value(s) + Digit(c)
  {
    assert (s + [c])[..|s|] == s;
  }

  lemma {:induction false} BackwardsAppend(s: Bytes, c: Byte)
    requires AllOctal(s) && IsOctal(c)
    ensures AllOctal(s + [c]) && Backwards(s + [c]) == Backwards(s) + Digit(c) * Pow8(|s|)
  {
    if s == [] {
      assert s + [c] == [c];
    } else {
      BackwardsAppend(s[1..], c);
      assert (s + [c])[1..] == s[1..] + [c] && (s + [c])[0] == s[0];
      assert 8 * (Digit(c) * Pow8(|s| - 1)) == Digit(c) * Pow8(|s|);
    }
  }

  lemma {:induction false} ValueBounds(s: Bytes)
    requires AllOctal(s)
    ensures Value(s) < Pow8(|s|) && (s != [] && s[0] != ZERO ==> Value(s) >= Pow8(|s| - 1))
  {
    if s != [] { ValueBounds(s[..|s| - 1]); }
  }

  lemma {:induction false} ValueGrows(s: Bytes, n: nat)
    requires AllOctal(s) && n <= |s|
    ensures Value(s[..n]) <= Value(s)
    decreases |s| - n
  {
    if n == |s| {
      assert s[..n] == s;
    } else {
      ValueGrows(s, n + 1);
      assert s[..n + 1][..n] == s[..n];
    }
  }

  lemma {:induction false} Pow8Monotone(m: nat, n: nat)
    requires m <= n
    ensures Pow8(m) <= Pow8(n)
    decreases n
  {
    if m < n { Pow8Monotone(m, n - 1); }
  }

  // ---- printing -----------------------------------------------------------------------------------

  lemma Shift(value: nat, p: nat)
    ensures value * p == (value / 8) * (8 * p) + (value % 8) * p
  {
    assert value == 8 * (value / 8) + value % 8;
  }

  lemma OneDown(v: nat, digit: nat, low: nat, p: nat)
    ensures v * (8 * p) + (low + digit * p) == (8 * v + digit) * p + low
  {
  }

  /** The first part of format_integer: the digits into a buffer, the last one first, and at
      least one digit. */
  method AccumulateDigits(buf: array<Byte>, n: nat) returns (cp: nat)
    requires buf.Length == 64 && n < 0x1_0000_0000_0000_0000
    modifies buf
    ensures 1 <= cp <= 22 && AllOctal(buf[..cp]) && Backwards(buf[..cp]) == n
    ensures cp > 1 ==> buf[cp - 1] != ZERO
  {
    hide AllOctal, Backwards, Pow8;
    var value: nat := n;
    cp := 0;
    assert Pow8(22) > n by { Pow8Of22(); }
    NoDigits(buf[..cp]);
    while value > 0
      invariant cp <= 22 && value < Pow8(22 - cp)
      invariant AllOctal(buf[..cp]) && Backwards(buf[..cp]) + value * Pow8(cp) == n
      invariant value == 0 && cp > 0 ==> buf[cp - 1] != ZERO
    {
      ghost var low := buf[..cp];
      if cp == 22 { Pow8Step(0); }
      Pow8Step(cp);
      Pow8Step(21 - cp);
      buf[cp] := ZERO + (value % 8) as Byte;
      Shift(value, Pow8(cp));
      BackwardsAppend(low, buf[cp]);
      assert buf[..cp + 1] == low + [buf[cp]];
      cp, value := cp + 1, value / 8;
    }
    assert value * Pow8(cp) == 0;
    if cp < 1 {
      NoDigits([]);
      BackwardsAppend([], ZERO);
      buf[cp] := ZERO;
      assert buf[..1] == [] + [ZERO];
      cp := cp + 1;
    }
  }

  lemma NoDigits(s: Bytes)
    requires s == []
    ensures AllOctal(s) && Backwards(s) == 0 && Value(s) == 0 && Pow8(0) == 1
  {
  }

  lemma Pow8Step(n: int)
    ensures n >= 0 ==> Pow8(n + 1) == 8 * Pow8(n)
    ensures n == 0 ==> Pow8(n) == 1
  {
  }

  lemma Pow8Of22()
    ensures Pow8(7) == 0x20_0000 && Pow8(11) == 0x2_0000_0000 && Pow8(22) == 0x4_0000_0000_0000_0000
  {
    assert Pow8(11) == 8 * 8 * 8 * 8 * Pow8(7);
    assert Pow8(15) == 8 * 8 * 8 * 8 * Pow8(11);
    assert Pow8(19) == 8 * 8 * 8 * 8 * Pow8(15);
  }

  /** format_integer for an octal conversion with the 0 flag and a width: a text of at least the
      width that stands for the number, longer only if the number needs it. */
  method FormatOctal(n: nat, width: nat) returns (out: Bytes)
    requires n < 0x1_0000_0000_0000_0000
    ensures AllOctal(out) && Value(out) == n
    ensures |out| >= width && |out| >= 1 && (|out| > width && |out| > 1 ==> out[0] != ZERO)
  {
    hide AllOctal, Value, Backwards, Pow8;
    var buf := new Byte[64];
    var cp := AccumulateDigits(buf, n);
    ghost var top, digits := cp, buf[..cp];
    var pad := if width > cp then width - cp else 0;
    out := [];
    NoDigits(out);
    while |out| < pad
      invariant |out| <= pad && AllOctal(out) && Value(out) == 0 && buf[..cp] == digits
    {
      ValueAppend(out, ZERO);
      out := out + [ZERO];
    }
    assert Value(out) * Pow8(cp) == 0;
    while cp > 0
      invariant cp <= top && |out| == pad + (top - cp) && AllOctal(out) && AllOctal(buf[..cp])
      invariant Value(out) * Pow8(cp) + Backwards(buf[..cp]) == n
      invariant buf[..top] == digits && (pad == 0 && cp < top ==> out[0] == digits[top - 1])
    {
      cp := cp - 1;
      ghost var low := buf[..cp];
      assert buf[..cp + 1] == low + [buf[cp]];
      Prefix(low, buf[cp]);
      BackwardsAppend(low, buf[cp]);
      Pow8Step(cp);
      OneDown(Value(out), Digit(buf[cp]), Backwards(low), Pow8(cp));
      ValueAppend(out, buf[cp]);
      out := out + [buf[cp]];
    }
    NoDigits(buf[..0]);
    assert Value(out) * Pow8(0) == Value(out);
  }

  lemma Prefix(s: Bytes, c: Byte)
    requires AllOctal(s + [c])
    ensures AllOctal(s) && IsOctal(c)
  {
    assert (s + [c])[|s|] == c && forall i | 0 <= i < |s| :: (s + [c])[i] == s[i];
  }

  /** A number below 8 to the width fills the width exactly. */
  lemma WidthFits(out: Bytes, width: nat)
    requires AllOctal(out) && Value(out) < Pow8(width) && |out| >= width >= 1
    requires |out| > width ==> out[0] != ZERO
    ensures |out| == width
  {
    if |out| > width {
      ValueBounds(out);
      Pow8Monotone(width, |out| - 1);
    }
  }

  /** A field of an archive header that holds the number v: octal digits and a null. */
  ghost predicate OctalField(f: Bytes, v: nat) {
    |f| >= 2 && f[|f| - 1] == NUL && AllOctal(f[..|f| - 1]) && Value(f[..|f| - 1]) == v
  }

  // ---- parsing ------------------------------------------------------------------------------------

  /** How many octal digits a text begins with. */
  function Digits(s: Bytes): (n: nat)
    ensures n <= |s| && AllOctal(s[..n]) && (n < |s| ==> !IsOctal(s[n]))
  {
    if s == [] || !IsOctal(s[0]) then 0
    else
      var n := Digits(s[1..]);
      assert s[..n + 1] == [s[0]] + s[1..][..n];
      n + 1
  }

  /** What a ustar octal field means: its digits, if there are any, they end inside the field at a
      space or a null, and the number fits an unsigned long. */
  function FieldValue(s: Bytes): Option<nat> {
    var n := Digits(s);
    if 0 < n < |s| && (s[n] == SPACE || s[n] == NUL) && Value(s[..n]) <= ULONG_MAX then Some(Value(s[..n])) else None
  }

  lemma DigitsIs(s: Bytes, n: nat)
    requires n <= |s| && AllOctal(s[..n]) && (n < |s| ==> !IsOctal(s[n]))
    ensures Digits(s) == n
  {
    hide Digits, IsOctal;
    assert forall i | 0 <= i < n :: IsOctal(s[..n][i]);
    var k := Digits(s);
    assert forall i | 0 <= i < k :: IsOctal(s[..k][i]);
  }

  /** Parsing undoes printing. */
  lemma OctalRoundTrip(f: Bytes, v: nat)
    requires OctalField(f, v)
    ensures FieldValue(f) == if v <= ULONG_MAX then Some(v) else None
  {
    hide Digits, Value;
    DigitsIs(f, |f| - 1);
  }

  /** parse_octal_field of the size bytes at position p. */
  method ParseOctalField(m: array<Byte>, p: nat, size: nat) returns (r: Option<nat>)
    requires p + size <= m.Length
    ensures r == FieldValue(m[p..p + size])
  {
    hide Digits, Value, AllOctal;
    ghost var s := m[p..p + size];
    var ofs, value := 0, 0;
    NoDigits(s[..0]);
    while ofs < size
      invariant ofs <= size && AllOctal(s[..ofs]) && Value(s[..ofs]) == value <= ULONG_MAX
    {
      var c := m[p + ofs];
      assert c == s[ofs];
      if ZERO <= c <= ZERO + 7 {
        ValueAppend(s[..ofs], c);
        assert s[..ofs + 1] == s[..ofs] + [c];
        if value > ULONG_MAX / 8 {
          TooLarge(s, ofs + 1);
          return None;
        }
        value := (c - ZERO) as nat + value * 8;
      } else {
        DigitsIs(s, ofs);
        if c == SPACE || c == NUL {
          return if ofs > 0 then Some(value) else None;
        }
        return None;
      }
      ofs := ofs + 1;
    }
    assert s[..ofs] == s;
    DigitsIs(s, size);
    return None;
  }

  lemma TooLarge(s: Bytes, n: nat)
    requires n <= |s| && AllOctal(s[..n]) && Value(s[..n]) > ULONG_MAX
    ensures FieldValue(s) == None
  {
    hide Value;
    var k := Digits(s);
    assert forall i | 0 <= i < n :: IsOctal(s[..n][i]);
    assert k >= n;
    ValueGrows(s[..k], n);
    assert s[..k][..n] == s[..n];
  }
}
