/** Archive headers in the ustar format (src/lib/ustar.c; "ustar Interchange Format" under the pax
    utility of SUSv3). */
module Ustar {
  import opened Basics
  import opened Arguments
  import opened Names
  import opened Octal
  import opened UserStack

  const HEADER := 512
  const INT_MAX := 0x7FFF_FFFF
  const MTIME := 1136102400
  const USTAR: Bytes := [117, 115, 116, 97, 114]
  const ROOT: Bytes := [114, 111, 111, 116]

  datatype Kind = Regular | Directory {
    function Flag(): Byte { if Regular? then ZERO else ZERO + 5 }
    function Mode(): nat { if Regular? then 420 else 493 }
  }

  /** An int of the source, and the unsigned int it is converted to for printing. */
  predicate IsInt(size: int) { -0x8000_0000 <= size <= INT_MAX }

  function Unsigned(size: int): nat
    requires IsInt(size)
  {
    if size < 0 then size + 0x1_0000_0000 else size
  }

  predicate Zeros(s: Bytes) { forall i | 0 <= i < |s| :: s[i] == 0 }

  // ---- the checksum ---------------------------------------------------------------------------------

  predicate InChksum(i: int) { 148 <= i < 156 }

  /** The sum of the first n bytes, those of the chksum field counted as spaces. */
  function Sum(h: Bytes, n: nat): nat
    requires n <= |h|
  {
    if n == 0 then 0 else Sum(h, n - 1) + (if InChksum(n - 1) then SPACE else h[n - 1]) as nat
  }

  function Checksum(h: Bytes): nat
    requires |h| == HEADER
  {
    Sum(h, HEADER)
  }

  /** The checksum does not depend on what the chksum field holds. */
  lemma {:induction false} ChecksumStable(h: Bytes, h': Bytes, n: nat)
    requires n <= |h| == |h'| && forall i | 0 <= i < n && !InChksum(i) :: h'[i] == h[i]
    ensures Sum(h', n) == Sum(h, n)
  {
    if n > 0 { ChecksumStable(h, h', n - 1); }
  }

  lemma {:induction false} ChecksumBound(h: Bytes, n: nat)
    requires n <= |h|
    ensures Sum(h, n) <= 255 * n
  {
    if n > 0 { ChecksumBound(h, n - 1); }
  }

  /** Every change of one byte outside the field changes it. */
  lemma {:induction false} ChecksumSees(h: Bytes, i: nat, x: Byte, n: nat)
    requires n <= |h| && i < |h| && !InChksum(i) && x != h[i]
    ensures i < n ==> Sum(h[i := x], n) == Sum(h, n) + x as int - h[i] as int
    ensures n <= i ==> Sum(h[i := x], n) == Sum(h, n)
  {
    if n > 0 { ChecksumSees(h, i, x, n - 1); }
  }

  method CalculateChksum(h: array<Byte>) returns (chksum: nat)
    requires h.Length == HEADER
    ensures chksum == Checksum(h[..])
  {
    chksum := 0;
    var i := 0;
    while i < HEADER
      invariant i <= HEADER && chksum == Sum(h[..], i)
    {
      chksum := chksum + (if InChksum(i) then SPACE else h[i]) as nat;
      i := i + 1;
    }
  }

  // ---- the format -----------------------------------------------------------------------------------

  /** A text with nulls up to the end of its field. */
  ghost predicate TextField(f: Bytes, text: Bytes) {
    |text| < |f| && f[..|text|] == text && Zeros(f[|text|..])
  }

  /** mode, uid, gid, size and mtime. */
  ghost predicate Numbers(h: Bytes, kind: Kind, size: int) {
    && |h| == HEADER && IsInt(size)
    && OctalField(h[100..108], kind.Mode())
    && OctalField(h[108..116], 0)
    && OctalField(h[116..124], 0)
    && OctalField(h[124..136], Unsigned(size))
    && OctalField(h[136..148], MTIME)
  }

  /** typeflag, linkname, magic, version, uname, gname and the rest. */
  ghost predicate Texts(h: Bytes, kind: Kind) {
    && |h| == HEADER
    && h[156] == kind.Flag()
    && Zeros(h[157..257])
    && h[257..263] == USTAR + [NUL]
    && h[263..265] == [ZERO, ZERO]
    && TextField(h[265..297], ROOT)
    && TextField(h[297..329], ROOT)
    && Zeros(h[329..512])
  }

  ghost predicate Layout(h: Bytes, name: Bytes, kind: Kind, size: int) {
    && |h| == HEADER
    && TextField(h[0..100], name)
    && Numbers(h, kind, size)
    && OctalField(h[148..156], Checksum(h))
    && Texts(h, kind)
  }

  // ---- parsing --------------------------------------------------------------------------------------

  datatype Problem =
    NotUstar | BadVersion | CorruptChksum | ChecksumMismatch | NameTooLong | UnimplementedType | CorruptSize | TooLarge

  datatype Outcome<N> = EndOfArchive | Entry(name: N, kind: Kind, size: nat) | Bad(problem: Problem)

  /** What a header stands for. */
  function Parse(h: Bytes): Outcome<Bytes>
    requires |h| == HEADER
  {
    if Zeros(h) then EndOfArchive
    else if h[257..263] != USTAR + [NUL] then Bad(NotUstar)
    else if h[263] != ZERO || h[264] != ZERO then Bad(BadVersion)
    else if FieldValue(h[148..156]) == None then Bad(CorruptChksum)
    else if FieldValue(h[148..156]) != Some(Checksum(h)) then Bad(ChecksumMismatch)
    else if h[99] != NUL || h[345] != NUL then Bad(NameTooLong)
    else if h[156] == ZERO + 5 then Entry(Strip(StringFrom(h, 0)), Directory, 0)
    else if h[156] != ZERO then Bad(UnimplementedType)
    else
      match FieldValue(h[124..136])
      case None => Bad(CorruptSize)
      case Some(n) => if n > INT_MAX then Bad(TooLarge) else Entry(Strip(StringFrom(h, 0)), Regular, n)
  }

  lemma NameOf(h: Bytes, name: Bytes)
    requires |h| == HEADER && TextField(h[0..100], name) && NUL !in name
    ensures StringFrom(h, 0) == name && h[99] == NUL
  {
    hide StringFrom;
    var f := h[0..100];
    assert f[|name|..][0] == f[|name|] == h[|name|];
    assert f[|name|..][99 - |name|] == f[99] == h[99];
    assert h[0..|name|] == f[..|name|];
    StringFromIs(h, 0, name);
  }

  lemma TextsOf(h: Bytes, kind: Kind)
    requires Texts(h, kind)
    ensures !Zeros(h) && h[257..263] == USTAR + [NUL] && h[263] == ZERO && h[264] == ZERO && h[345] == NUL
  {
    assert h[257..263][0] == h[257] == 117;
    assert h[263..265][0] == h[263] && h[263..265][1] == h[264];
    assert h[329..512][16] == h[345];
  }

  /** What the header composed for a file stands for. */
  ghost function Archived(file: Bytes, kind: Kind, size: int): Outcome<Bytes> {
    if kind.Directory? then Entry(Strip(file), kind, 0)
    else if size >= 0 then Entry(Strip(file), kind, size)
    else Bad(TooLarge)
  }

  /** Parsing a made header gives back the stripped name, the type and the size, 0 for a
      directory; exactly the negative sizes of regular files are refused. */
  lemma RoundTrip(h: Bytes, file: Bytes, kind: Kind, size: int)
    requires NUL !in file && Layout(h, Strip(file), kind, size)
    ensures Parse(h) == Archived(file, kind, size)
  {
    hide OctalField, Strip, Zeros, TextField, Texts, StringFrom, Sum, FieldValue;
    TextsOf(h, kind);
    FlagOf(h, kind);
    ChecksumBound(h, HEADER);
    OctalRoundTrip(h[148..156], Checksum(h));
    OctalRoundTrip(h[124..136], Unsigned(size));
    StripIsSafe(file);
    StripTwice(file);
    NameOf(h, Strip(file));
  }

  lemma FlagOf(h: Bytes, kind: Kind)
    requires Texts(h, kind)
    ensures h[156] == kind.Flag()
  {
  }

  /** Every header that is accepted, made here or not, has the magic, version 00, a type flag that
      says its kind and its own checksum, and yields a safe name and an int size. */
  lemma AcceptedIsSafe(h: Bytes)
    requires |h| == HEADER && Parse(h).Entry?
    ensures Safe(Parse(h).name) && Parse(h).size <= INT_MAX && (Parse(h).kind.Directory? ==> Parse(h).size == 0)
    ensures h[257..263] == USTAR + [NUL] && h[263] == h[264] == ZERO && h[156] == Parse(h).kind.Flag()
    ensures FieldValue(h[148..156]) == Some(Checksum(h))
  {
    hide Strip, Safe, StringFrom, FieldValue, Zeros, Sum;
    StripIsSafe(StringFrom(h, 0));
  }

  /** No single changed byte outside the chksum field goes unnoticed. */
  lemma CorruptionIsNoticed(h: Bytes, i: nat, x: Byte)
    requires |h| == HEADER && Parse(h).Entry? && i < HEADER && !InChksum(i) && x != h[i]
    ensures Parse(h[i := x]).Bad?
  {
    hide Strip, StringFrom, FieldValue, Zeros, Sum;
    var h' := h[i := x];
    ChecksumSees(h, i, x, HEADER);
    assert h'[148..156] == h[148..156];
    HasDigits(h);
    StillDigits(h, h');
  }

  lemma HasDigits(h: Bytes)
    requires |h| == HEADER && FieldValue(h[148..156]).Some?
    ensures exists k :: 148 <= k < 156 && h[k] != 0
  {
    hide Digits, Value;
    var f := h[148..156];
    var n := Digits(f);
    assert f[..n][0] == f[0] == h[148];
    assert IsOctal(f[..n][0]);
  }

  lemma StillDigits(h: Bytes, h': Bytes)
    requires |h| == HEADER == |h'| && h'[148..156] == h[148..156] && exists k :: 148 <= k < 156 && h[k] != 0
    ensures !Zeros(h')
  {
    var k :| 148 <= k < 156 && h[k] != 0;
    assert h'[k] == h'[148..156][k - 148] == h[148..156][k - 148] == h[k];
  }
}
