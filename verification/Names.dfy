/** File names in archives: strip_antisocial_prefixes in src/lib/ustar.c. */
module Names {
  import opened Arguments

  const SLASH: Byte := 47
  const DOT: Byte := 46

  /** The prefixes that do not belong in an archive. */
  predicate IsPiece(p: Bytes) {
    p == [SLASH] || p == [DOT, SLASH] || p == [DOT, DOT, SLASH]
  }

  function PieceLength(s: Bytes): (n: nat)
    ensures n <= |s| && (n > 0 ==> IsPiece(s[..n])) && (n == 0 ==> forall k | 0 < k <= |s| :: !IsPiece(s[..k]))
  {
    if |s| >= 1 && s[0] == SLASH then 1
    else if |s| >= 2 && s[0] == DOT && s[1] == SLASH then 2
    else if |s| >= 3 && s[0] == DOT && s[1] == DOT && s[2] == SLASH then 3
    else
      assert forall k | 0 < k <= |s| ::
          s[..k][0] == s[0] && (k > 1 ==> s[..k][1] == s[1]) && (k > 2 ==> s[..k][2] == s[2]);
      0
  }

  function Final(s: Bytes): Bytes {
    if s == [] || s == [DOT, DOT] then [DOT] else s
  }

  function Strip(s: Bytes): Bytes
    decreases |s|
  {
    if PieceLength(s) == 0 then Final(s) else Strip(s[PieceLength(s)..])
  }

  /** A name an extractor may use: it stays below the destination directory at its first step. */
  predicate Safe(s: Bytes) {
    s != [] && s != [DOT, DOT] && PieceLength(s) == 0
  }

  ghost predicate Suffix(t: Bytes, s: Bytes) {
    |t| <= |s| && s[|s| - |t|..] == t
  }

  lemma {:induction false} StripIsSafe(s: Bytes)
    ensures Safe(Strip(s)) && (Strip(s) == [DOT] || Suffix(Strip(s), s)) && (NUL !in s ==> NUL !in Strip(s))
    decreases |s|
  {
    var n := PieceLength(s);
    if n == 0 {
      assert s[0..] == s;
    } else {
      StripIsSafe(s[n..]);
      var t := Strip(s[n..]);
      if t != [DOT] { assert s[|s| - |t|..] == s[n..][|s| - n - |t|..]; }
    }
  }

  /** Stripping again changes nothing. */
  lemma StripTwice(s: Bytes)
    ensures Strip(Strip(s)) == Strip(s)
  {
    StripIsSafe(s);
  }

  ghost function Concat(pieces: seq<Bytes>): Bytes {
    if pieces == [] then [] else pieces[0] + Concat(pieces[1..])
  }

  lemma OnePiece(p: Bytes, rest: Bytes)
    requires IsPiece(p)
    ensures PieceLength(p + rest) == |p| && (p + rest)[|p|..] == rest
  {
  }

  /** However a name is cut into such prefixes and a rest that has none, the rest is what is
      left, or "." for an empty rest and for "..". */
  lemma {:induction false} StripLeavesRest(pieces: seq<Bytes>, rest: Bytes)
    requires (forall p | p in pieces :: IsPiece(p)) && PieceLength(rest) == 0
    ensures Strip(Concat(pieces) + rest) == Final(rest)
  {
    if pieces == [] {
      assert Concat(pieces) + rest == rest;
    } else {
      var tail := Concat(pieces[1..]) + rest;
      assert Concat(pieces) + rest == pieces[0] + tail;
      OnePiece(pieces[0], tail);
      StripLeavesRest(pieces[1..], rest);
    }
  }

  /** strip_antisocial_prefixes of the string s at position p: a pointer into the same memory, or
      to a string literal. */
  method StripPrefixes(m: array<Byte>, p: nat, ghost s: Bytes) returns (a: array<Byte>, q: nat)
    requires StringAt(m[..], p, s) && NUL !in s
    ensures StringAt(a[..], q, Strip(s)) && (a == m || fresh(a))
  {
    hide Strip, StringAt, PieceLength;
    ghost var t := s;
    q := p;
    CharsOf(m[..], p, s);
    while m[q] == SLASH || (m[q] == DOT && m[q + 1] == SLASH) || (m[q] == DOT && m[q + 1] == DOT && m[q + 2] == SLASH)
      invariant Chars(m[..], q, t) && Strip(t) == Strip(s)
      decreases |t|
    {
      ghost var start := q;
      ghost var n := Piece(t);
      while m[q] != SLASH
        invariant start <= q < start + n
        decreases start + n - q
      {
        q := q + 1;
      }
      q := q + 1;
      t := t[n..];
    }
    Ends(t);
    if m[q] == NUL || (m[q] == DOT && m[q + 1] == DOT && m[q + 2] == NUL) {
      a := new Byte[2](i => if i == 0 then DOT else NUL);
      q := 0;
      CharsString(a[..], 0, [DOT]);
    } else {
      a := m;
      CharsString(m[..], q, t);
    }
  }

  /** StringAt, byte by byte, of a string without nulls inside. */
  ghost predicate Chars(m: Bytes, p: nat, s: Bytes) {
    p + |s| < |m| && m[p + |s|] == NUL && forall i | p <= i < p + |s| :: m[i] == s[i - p] && m[i] != NUL
  }

  lemma CharsOf(m: Bytes, p: nat, s: Bytes)
    requires StringAt(m, p, s) && NUL !in s
    ensures Chars(m, p, s)
  {
    forall i | p <= i < p + |s| ensures m[i] == s[i - p] && m[i] != NUL {
      assert m[p..p + |s|][i - p] == m[i] && s[i - p] in s;
    }
  }

  lemma CharsString(m: Bytes, p: nat, s: Bytes)
    requires Chars(m, p, s)
    ensures StringAt(m, p, s)
  {
    assert m[p..p + |s|] == s;
  }

  /** One more prefix to strip: its only slash is its last character. */
  lemma Piece(t: Bytes) returns (n: nat)
    requires |t| >= 1
    requires t[0] == SLASH || (t[0] == DOT && |t| >= 2 && t[1] == SLASH)
             || (t[0] == DOT && |t| >= 3 && t[1] == DOT && t[2] == SLASH)
    ensures 0 < n <= |t| && Strip(t) == Strip(t[n..]) && t[n - 1] == SLASH && forall i | 0 <= i < n - 1 :: t[i] != SLASH
  {
    n := PieceLength(t);
  }

  lemma Ends(t: Bytes)
    requires |t| >= 1 ==> t[0] != SLASH
    requires |t| >= 2 && t[0] == DOT ==> t[1] != SLASH
    requires |t| >= 3 && t[0] == DOT && t[1] == DOT ==> t[2] != SLASH
    ensures Strip(t) == if t == [] || t == [DOT, DOT] then [DOT] else t
  {
  }
}
