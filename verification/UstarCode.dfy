/** ustar_make_header and ustar_parse_header of src/lib/ustar.c, which write and read a header
    in place. */
module UstarCode {
  import opened Basics
  import opened Arguments
  import opened Names
  import opened Octal
  import opened UserStack
  import opened Ustar

  /** Nothing outside the bytes from lo up to hi has changed. */
  ghost predicate Kept(h: Bytes, h': Bytes, lo: nat, hi: nat) {
    |h'| == |h| && lo <= hi <= |h| && h'[..lo] == h[..lo] && h'[hi..] == h[hi..]
  }

  /** Only the bytes from at on were replaced, by b. */
  ghost predicate Wrote(h: Bytes, h': Bytes, at: nat, b: Bytes) {
    Kept(h, h', at, at + |b|) && h'[at..at + |b|] == b
  }

  lemma Later(h: Bytes, hi: nat, a: nat, b: nat)
    requires hi <= a <= b <= |h|
    ensures h[a..b] == h[hi..][a - hi..b - hi]
  {
  }

  lemma Elsewhere(h: Bytes, h': Bytes, lo: nat, hi: nat, a: nat, b: nat)
    requires Kept(h, h', lo, hi) && a <= b <= |h| && (b <= lo || hi <= a)
    ensures |h'| == |h| && h'[a..b] == h[a..b]
  {
    if b <= lo {
      assert h'[a..b] == h'[..lo][a..b] && h[a..b] == h[..lo][a..b];
    } else {
      Later(h, hi, a, b);
      Later(h', hi, a, b);
    }
  }

  lemma KeptTwice(h: Bytes, h': Bytes, h'': Bytes, a: nat, b: nat, c: nat, d: nat, lo: nat, hi: nat)
    requires Kept(h, h', a, b) && Kept(h', h'', c, d) && lo <= a && lo <= c && b <= hi && d <= hi <= |h|
    ensures Kept(h, h'', lo, hi)
  {
    Elsewhere(h, h', a, b, 0, lo);
    Elsewhere(h', h'', c, d, 0, lo);
    Elsewhere(h, h', a, b, hi, |h|);
    Elsewhere(h', h'', c, d, hi, |h|);
    assert h''[..lo] == h''[0..lo] && h'[..lo] == h'[0..lo] && h[..lo] == h[0..lo];
    assert h''[hi..] == h''[hi..|h|] && h'[hi..] == h'[hi..|h|] && h[hi..] == h[hi..|h|];
  }

  /** A run of bytes put in place one by one. */
  method Put(h: array<Byte>, at: nat, b: Bytes)
    requires at + |b| <= h.Length
    modifies h
    ensures Wrote(old(h[..]), h[..], at, b)
  {
    var k := 0;
    while k < |b|
      invariant k <= |b| && h[at..at + k] == b[..k]
      invariant h[..at] == old(h[..at]) && h[at + |b|..] == old(h[at + |b|..])
    {
      h[at + k] := b[k];
      k := k + 1;
    }
    assert b[..|b|] == b;
    assert h[..][at..at + |b|] == h[at..at + |b|];
    assert h[..][..at] == h[..at] && old(h[..])[..at] == old(h[..at]);
    assert h[..][at + |b|..] == h[at + |b|..] && old(h[..])[at + |b|..] == old(h[at + |b|..]);
  }

  /** strlcpy of a string literal. */
  method CopyText(h: array<Byte>, at: nat, size: nat, text: Bytes)
    requires size > 0 && at + size <= h.Length
    modifies h
    ensures Wrote(old(h[..]), h[..], at, (if |text| < size then text else text[..size - 1]) + [NUL])
  {
    Put(h, at, (if |text| < size then text else text[..size - 1]) + [NUL]);
  }

  /** The text of an octal conversion with the 0 flag. */
  ghost predicate Printed(text: Bytes, n: nat, width: nat) {
    && AllOctal(text) && Value(text) == n
    && |text| >= width && |text| >= 1 && (|text| > width && |text| > 1 ==> text[0] != ZERO)
  }

  /** snprintf with a format of one octal conversion. */
  method Snprintf(h: array<Byte>, at: nat, size: nat, width: nat, n: nat) returns (length: nat, ghost text: Bytes)
    requires size > 0 && at + size <= h.Length && n < 0x1_0000_0000_0000_0000
    modifies h
    ensures Printed(text, n, width) && length == |text|
    ensures Wrote(old(h[..]), h[..], at, (if |text| < size then text else text[..size - 1]) + [NUL])
  {
    var out := FormatOctal(n, width);
    text, length := out, |out|;
    Put(h, at, (if |out| < size then out else out[..size - 1]) + [NUL]);
  }

  /** A number that fits is printed into its field whole. */
  lemma FieldHolds(h: Bytes, at: nat, text: Bytes, n: nat, width: nat)
    requires Printed(text, n, width) && n < Pow8(width) && width >= 1
    requires at + width + 1 <= |h|
    ensures |text| == width
    ensures h[at..at + width + 1] == text + [NUL] ==> OctalField(h[at..at + width + 1], n)
  {
    hide Value, Pow8, AllOctal;
    WidthFits(text, width);
    assert (text + [NUL])[..width] == text;
  }

  lemma ZeroField(f: Bytes)
    requires f == seq(7, i => ZERO) + [NUL]
    ensures OctalField(f, 0)
  {
    ZeroValue(f[..7]);
  }

  lemma {:induction false} ZeroValue(s: Bytes)
    requires forall i | 0 <= i < |s| :: s[i] == ZERO
    ensures AllOctal(s) && Value(s) == 0
  {
    if s != [] { ZeroValue(s[..|s| - 1]); }
  }

  method PrintField(h: array<Byte>, at: nat, width: nat, n: nat)
    requires width >= 1 && at + width + 1 <= h.Length && n < Pow8(width) && n < 0x1_0000_0000_0000_0000
    modifies h
    ensures OctalField(h[..][at..at + width + 1], n) && Kept(old(h[..]), h[..], at, at + width + 1)
  {
    hide OctalField, Pow8, Printed, Kept;
    var _, text := Snprintf(h, at, width + 1, width, n);
    FieldHolds(h[..], at, text, n, width);
  }

  method WriteNumbers(h: array<Byte>, kind: Kind, size: int)
    requires h.Length == HEADER && IsInt(size)
    modifies h
    ensures Numbers(h[..], kind, size) && Kept(old(h[..]), h[..], 100, 148)
  {
    hide OctalField, Kept, Pow8;
    Pow8Of22();
    var zeros := seq(7, i => ZERO);
    ghost var m0 := h[..];
    PrintField(h, 100, 7, kind.Mode());
    ghost var m1 := h[..];
    CopyText(h, 108, 8, zeros);
    ghost var m2 := h[..];
    ZeroField(m2[108..116]);
    CopyText(h, 116, 8, zeros);
    ghost var m3 := h[..];
    ZeroField(m3[116..124]);
    PrintField(h, 124, 11, Unsigned(size));
    ghost var m4 := h[..];
    PrintField(h, 136, 11, MTIME);
    ghost var m5 := h[..];
    KeptTwice(m0, m1, m2, 100, 108, 108, 116, 100, 148);
    KeptTwice(m0, m2, m3, 100, 148, 116, 124, 100, 148);
    KeptTwice(m0, m3, m4, 100, 148, 124, 136, 100, 148);
    KeptTwice(m0, m4, m5, 100, 148, 136, 148, 100, 148);
    KeptTwice(m1, m2, m3, 108, 116, 116, 124, 108, 148);
    KeptTwice(m1, m3, m4, 108, 148, 124, 136, 108, 148);
    KeptTwice(m1, m4, m5, 108, 148, 136, 148, 108, 148);
    Elsewhere(m1, m5, 108, 148, 100, 108);
    KeptTwice(m2, m3, m4, 116, 124, 124, 136, 116, 148);
    KeptTwice(m2, m4, m5, 116, 148, 136, 148, 116, 148);
    Elsewhere(m2, m5, 116, 148, 108, 116);
    KeptTwice(m3, m4, m5, 124, 136, 136, 148, 124, 148);
    Elsewhere(m3, m5, 124, 148, 116, 124);
    Elsewhere(m4, m5, 136, 148, 124, 136);
  }

  lemma ZerosPart(s: Bytes, at: nat, a: nat, b: nat, n: nat)
    requires at + n <= |s| && Zeros(s[at..at + n]) && a <= b <= n
    ensures Zeros(s[at + a..at + b])
  {
    var part := s[at + a..at + b];
    forall i | 0 <= i < |part| ensures part[i] == 0 {
      assert part[i] == s[at..at + n][a + i];
    }
  }

  /** A string over nulls is a text field. */
  lemma TextOverZeros(h: Bytes, at: nat, size: nat, text: Bytes)
    requires at + size <= |h| && |text| < size
    requires h[at..at + |text| + 1] == text + [NUL] && Zeros(h[at + |text| + 1..at + size])
    ensures TextField(h[at..at + size], text)
  {
    var f, n := h[at..at + size], |text|;
    assert f[..n] == h[at..at + n + 1][..n] == text;
    forall i | 0 <= i < size - n ensures f[n..][i] == 0 {
      if i == 0 {
        assert f[n] == h[at + n] == h[at..at + n + 1][n] == NUL;
      } else {
        assert f[n..][i] == h[at + n + i] == h[at + n + 1..at + size][i - 1];
      }
    }
  }

  method WriteTexts(h: array<Byte>, kind: Kind)
    requires h.Length == HEADER && Zeros(h[..][156..512])
    modifies h
    ensures Texts(h[..], kind) && Kept(old(h[..]), h[..], 156, 512)
  {
    hide Kept, Zeros, TextField;
    ghost var m0 := h[..];
    Put(h, 156, [kind.Flag()]);
    ghost var m1 := h[..];
    CopyText(h, 257, 6, USTAR);
    ghost var m2 := h[..];
    Put(h, 263, [ZERO, ZERO]);
    ghost var m3 := h[..];
    CopyText(h, 297, 32, ROOT);
    ghost var m4 := h[..];
    CopyText(h, 265, 32, ROOT);
    ghost var m5 := h[..];
    KeptTwice(m1, m2, m3, 257, 263, 263, 265, 257, 265);
    KeptTwice(m3, m4, m5, 297, 302, 265, 270, 265, 302);
    KeptTwice(m2, m3, m5, 263, 265, 265, 302, 263, 302);
    KeptTwice(m1, m3, m5, 257, 265, 265, 302, 257, 302);
    KeptTwice(m0, m1, m5, 156, 157, 257, 302, 156, 512);
    TextsAre(m0, m1, m2, m3, m4, m5, kind);
  }

  lemma TextsAre(m0: Bytes, m1: Bytes, m2: Bytes, m3: Bytes, m4: Bytes, m5: Bytes, kind: Kind)
    requires |m0| == HEADER && Zeros(m0[156..512])
    requires Wrote(m0, m1, 156, [kind.Flag()]) && Wrote(m1, m2, 257, USTAR + [NUL]) && Wrote(m2, m3, 263, [ZERO, ZERO])
    requires Wrote(m3, m4, 297, ROOT + [NUL]) && Wrote(m4, m5, 265, ROOT + [NUL])
    requires Kept(m1, m5, 257, 302) && Kept(m2, m5, 263, 302) && Kept(m3, m5, 265, 302)
    ensures Texts(m5, kind)
  {
    hide Kept, Zeros, TextField;
    SameLength(m0, m1, 156, [kind.Flag()]);
    SameLength(m1, m2, 257, USTAR + [NUL]);
    SameLength(m2, m3, 263, [ZERO, ZERO]);
    SameLength(m3, m4, 297, ROOT + [NUL]);
    Elsewhere(m1, m5, 257, 302, 156, 157);
    assert m5[156..157][0] == m5[156] && m1[156..157][0] == kind.Flag();
    Elsewhere(m1, m5, 257, 302, 157, 257);
    Elsewhere(m0, m1, 156, 157, 157, 257);
    ZerosPart(m0, 156, 1, 101, 356);
    Elsewhere(m2, m5, 263, 302, 257, 263);
    Elsewhere(m3, m5, 265, 302, 263, 265);
    RestIsZero(m0, m1, m2, m3, 270, 297);
    RestIsZero(m0, m1, m2, m3, 302, 512);
    Elsewhere(m3, m4, 297, 302, 270, 297);
    Elsewhere(m4, m5, 265, 270, 270, 297);
    TextOverZeros(m5, 265, 32, ROOT);
    Elsewhere(m4, m5, 265, 270, 297, 302);
    Elsewhere(m3, m5, 265, 302, 302, 512);
    ZerosPart(m5, 302, 0, 27, 210);
    ZerosPart(m5, 302, 27, 210, 210);
    TextOverZeros(m5, 297, 32, ROOT);
  }

  lemma SameLength(h: Bytes, h': Bytes, at: nat, b: Bytes)
    requires Wrote(h, h', at, b)
    ensures |h'| == |h|
  {
  }

  lemma RestIsZero(m0: Bytes, m1: Bytes, m2: Bytes, m3: Bytes, a: nat, b: nat)
    requires |m0| == HEADER && Zeros(m0[156..512]) && 265 <= a <= b <= 512
    requires Kept(m0, m1, 156, 157) && Kept(m1, m2, 257, 263) && Kept(m2, m3, 263, 265)
    ensures |m3| == HEADER && Zeros(m3[a..b])
  {
    hide Kept, Zeros;
    ZerosPart(m0, 156, a - 156, b - 156, 356);
    Elsewhere(m0, m1, 156, 157, a, b);
    Elsewhere(m1, m2, 257, 263, a, b);
    Elsewhere(m2, m3, 263, 265, a, b);
  }

  method Memset(h: array<Byte>)
    modifies h
    ensures Zeros(h[..])
  {
    var i := 0;
    while i < h.Length
      invariant i <= h.Length && forall k | 0 <= k < i :: h[k] == 0
    {
      h[i] := 0;
      i := i + 1;
    }
  }

  /** ustar_make_header for the file name at position p of m. */
  method MakeHeader(m: array<Byte>, p: nat, kind: Kind, size: int, h: array<Byte>, ghost file: Bytes) returns (ok: bool)
    requires h.Length == HEADER && m != h && StringAt(m[..], p, file) && NUL !in file && IsInt(size)
    modifies h
    ensures ok <==> |Strip(file)| <= 99
    ensures ok ==> Layout(h[..], Strip(file), kind, size) && Parse(h[..]) == Archived(file, kind, size)
    ensures !ok ==> h[..] == old(h[..])
  {
    hide Strip, StringAt, Kept, Numbers, Texts, Zeros, OctalField, TextField, Sum, Parse, Safe;
    var a, q := StripPrefixes(m, p, file);
    ghost var name := Strip(file);
    StripIsSafe(file);
    var length := Strlen(a, q, name);
    if length > 99 {
      return false;
    }
    Memset(h);
    ghost var m0 := h[..];
    Strlcpy(h, 0, a, q, 100, name);
    ghost var m1 := h[..];
    NameWritten(m0, m1, name);
    WriteNumbers(h, kind, size);
    ghost var m2 := h[..];
    Elsewhere(m1, m2, 100, 148, 0, 100);
    Elsewhere(m1, m2, 100, 148, 156, 512);
    WriteTexts(h, kind);
    ghost var m3 := h[..];
    var chksum := CalculateChksum(h);
    ChecksumBound(m3, HEADER);
    assert chksum < Pow8(7) by { Pow8Of22(); }
    PrintField(h, 148, 7, chksum);
    ghost var m4 := h[..];
    ChecksumKept(m3, m4);
    Elsewhere(m2, m3, 156, 512, 0, 100);
    Elsewhere(m3, m4, 148, 156, 0, 100);
    NumbersKept(m2, m3, 156, 512, kind, size);
    NumbersKept(m3, m4, 148, 156, kind, size);
    TextsKept(m3, m4, kind);
    RoundTrip(m4, file, kind, size);
    return true;
  }

  lemma NameWritten(h: Bytes, h': Bytes, name: Bytes)
    requires |h| == |h'| == HEADER && Zeros(h) && |name| <= 99
    requires StringAt(h', 0, name) && h'[|name| + 1..] == h[|name| + 1..]
    ensures TextField(h'[0..100], name) && Zeros(h'[156..512])
  {
    var n := |name| + 1;
    assert forall i | n <= i < HEADER :: h'[i] == h'[n..][i - n] && h[i] == h[n..][i - n];
    assert h'[0..n] == name + [NUL];
    TextOverZeros(h', 0, 100, name);
  }

  lemma ChecksumKept(h: Bytes, h': Bytes)
    requires |h| == HEADER && Kept(h, h', 148, 156)
    ensures |h'| == HEADER && Checksum(h') == Checksum(h)
  {
    forall i | 0 <= i < HEADER && !InChksum(i) ensures h'[i] == h[i] {
      if i < 148 {
        assert h'[..148][i] == h[..148][i];
      } else {
        assert h'[156..][i - 156] == h[156..][i - 156];
      }
    }
    ChecksumStable(h, h', HEADER);
  }

  lemma NumbersKept(h: Bytes, h': Bytes, lo: nat, hi: nat, kind: Kind, size: int)
    requires Numbers(h, kind, size) && Kept(h, h', lo, hi) && 148 <= lo
    ensures Numbers(h', kind, size)
  {
    hide Kept, OctalField;
    Elsewhere(h, h', lo, hi, 100, 108);
    Elsewhere(h, h', lo, hi, 108, 116);
    Elsewhere(h, h', lo, hi, 116, 124);
    Elsewhere(h, h', lo, hi, 124, 136);
    Elsewhere(h, h', lo, hi, 136, 148);
  }

  lemma TextsKept(h: Bytes, h': Bytes, kind: Kind)
    requires Texts(h, kind) && Kept(h, h', 148, 156)
    ensures Texts(h', kind)
  {
    hide Kept, Zeros, TextField;
    Elsewhere(h, h', 148, 156, 156, 157);
    assert h'[156..157][0] == h'[156] && h[156..157][0] == h[156];
    Elsewhere(h, h', 148, 156, 157, 257);
    Elsewhere(h, h', 148, 156, 257, 263);
    Elsewhere(h, h', 148, 156, 263, 265);
    Elsewhere(h, h', 148, 156, 265, 297);
    Elsewhere(h, h', 148, 156, 297, 329);
    Elsewhere(h, h', 148, 156, 329, 512);
  }

  // ---- parsing --------------------------------------------------------------------------------------

  /** A char pointer of the source. */
  datatype Pointer = Pointer(memory: array<Byte>, at: nat)

  method IsAllZeros(h: array<Byte>) returns (b: bool)
    ensures b == Zeros(h[..])
  {
    var i := 0;
    while i < h.Length
      invariant i <= h.Length && forall k | 0 <= k < i :: h[k] == 0
    {
      if h[i] != 0 {
        assert h[..][i] != 0;
        return false;
      }
      i := i + 1;
    }
    return true;
  }

  /** Up to a null there is a string. */
  lemma {:induction false} StringFromString(h: Bytes, p: nat, z: nat)
    requires p <= z < |h| && h[z] == NUL
    ensures StringAt(h, p, StringFrom(h, p)) && NUL !in StringFrom(h, p)
    decreases z - p
  {
    StringFromStep(h, p);
    hide StringFrom, StringAt;
    if h[p] == NUL {
      NoString(h, p);
    } else {
      StringFromString(h, p + 1, z);
      LongerString(h, p, StringFrom(h, p + 1));
    }
  }

  lemma StringFromStep(h: Bytes, p: nat)
    requires p < |h|
    ensures StringFrom(h, p) == if h[p] == NUL then [] else [h[p]] + StringFrom(h, p + 1)
  {
  }

  lemma NoString(h: Bytes, p: nat)
    requires p < |h| && h[p] == NUL
    ensures StringAt(h, p, [])
  {
  }

  lemma LongerString(h: Bytes, p: nat, s: Bytes)
    requires p < |h| && h[p] != NUL && StringAt(h, p + 1, s) && NUL !in s
    ensures StringAt(h, p, [h[p]] + s) && NUL !in [h[p]] + s
  {
    assert h[p..p + 1 + |s|] == [h[p]] + h[p + 1..p + 1 + |s|];
  }

  /** ustar_parse_header. */
  method ParseHeader(h: array<Byte>) returns (r: Outcome<Pointer>)
    requires h.Length == HEADER
    ensures match r {
      case EndOfArchive => Parse(h[..]) == EndOfArchive
      case Bad(problem) => Parse(h[..]) == Bad(problem)
      case Entry(name, kind, size) =>
        && Parse(h[..]).Entry? && Parse(h[..]).kind == kind && Parse(h[..]).size == size
        && StringAt(name.memory[..], name.at, Parse(h[..]).name)
    }
  {
    hide Strip, StringAt, StringFrom, Zeros, FieldValue, Sum;
    ghost var s := h[..];
    var zeros := IsAllZeros(h);
    if zeros { return EndOfArchive; }
    assert h[257..263] == s[257..263] && h[148..148 + 8] == s[148..156] && h[124..124 + 12] == s[124..136];
    if h[257..263] != USTAR + [NUL] { return Bad(NotUstar); }
    if h[263] != ZERO || h[264] != ZERO { return Bad(BadVersion); }
    var chksum := ParseOctalField(h, 148, 8);
    if chksum.None? { return Bad(CorruptChksum); }
    var sum := CalculateChksum(h);
    if chksum.value != sum { return Bad(ChecksumMismatch); }
    if h[99] != NUL || h[345] != NUL { return Bad(NameTooLong); }
    if h[156] != ZERO && h[156] != ZERO + 5 { return Bad(UnimplementedType); }
    var kind, size := Directory, 0;
    if h[156] == ZERO {
      var field := ParseOctalField(h, 124, 12);
      if field.None? { return Bad(CorruptSize); }
      if field.value > INT_MAX { return Bad(TooLarge); }
      kind, size := Regular, field.value;
    }
    StringFromString(s, 0, 99);
    var a, q := StripPrefixes(h, 0, StringFrom(s, 0));
    return Entry(Pointer(a, q), kind, size);
  }
}
