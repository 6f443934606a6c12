/** From the command line to the user stack: strtok_r in src/lib/string.c, argument_parse and
    argument_push in src/userprog/process.c. */
module Arguments {
  import opened Basics

  newtype Byte = b: int | 0 <= b < 256
  type Bytes = seq<Byte>

  const SPACE: Byte := 32
  const NUL: Byte := 0

  // ---- tokens ---------------------------------------------------------------------------------

  /** How many spaces, and how many other characters, s begins with. */
  function Spaces(s: Bytes): (n: nat)
    ensures n <= |s| && (forall i | 0 <= i < n :: s[i] == SPACE) && (n < |s| ==> s[n] != SPACE)
  {
    if s == [] || s[0] != SPACE then 0 else 1 + Spaces(s[1..])
  }

  function TokenLength(s: Bytes): (n: nat)
    ensures n <= |s| && (forall i | 0 <= i < n :: s[i] != SPACE) && (n < |s| ==> s[n] == SPACE)
  {
    if s == [] || s[0] == SPACE then 0 else 1 + TokenLength(s[1..])
  }

  /** The maximal space-free pieces of a line, in order. */
  function Tokens(line: Bytes): seq<Bytes>
    decreases |line|
  {
    var t := line[Spaces(line)..];
    if t == [] then []
    else
      assert t[0] != SPACE;
      [t[..TokenLength(t)]] + Tokens(t[TokenLength(t)..])
  }

  predicate IsToken(t: Bytes) {
    t != [] && SPACE !in t
  }

  function Join(ts: seq<Bytes>): Bytes {
    if ts == [] then [] else if |ts| == 1 then ts[0] else ts[0] + [SPACE] + Join(ts[1..])
  }

  lemma {:induction false} TokensUnfold(line: Bytes)
    ensures var t := line[Spaces(line)..];
      Tokens(line) == if t == [] then [] else [t[..TokenLength(t)]] + Tokens(t[TokenLength(t)..])
  {
  }

  lemma SpacesIs(line: Bytes, n: nat)
    requires n <= |line| && (forall i | 0 <= i < n :: line[i] == SPACE) && (n < |line| ==> line[n] != SPACE)
    ensures Spaces(line) == n
  {
    hide Spaces;
  }

  lemma TokenLengthIs(line: Bytes, n: nat)
    requires n <= |line| && (forall i | 0 <= i < n :: line[i] != SPACE) && (n < |line| ==> line[n] == SPACE)
    ensures TokenLength(line) == n
  {
    hide TokenLength;
  }

  lemma TokenFirst(t: Bytes, rest: Bytes)
    requires IsToken(t) && (rest == [] || rest[0] == SPACE)
    ensures Tokens(t + rest) == [t] + Tokens(rest)
  {
    hide *;
    assert t != [] && SPACE !in t by { Token(t); }
    NextToken(t + rest, 0, |t|);
    assert (t + rest)[0..|t|] == t && (t + rest)[|t|..] == rest;
  }

  lemma Token(t: Bytes)
    requires IsToken(t)
    ensures t != [] && SPACE !in t
  {
  }

  lemma SpaceFirst(rest: Bytes)
    ensures Tokens([SPACE] + rest) == Tokens(rest)
  {
    hide *;
    var line, n := [SPACE] + rest, Spaces(rest);
    SpacesIs(line, 1 + n);
    assert line[1 + n..] == rest[n..];
    TokensUnfold(line);
    TokensUnfold(rest);
  }

  /** Splitting undoes joining. */
  lemma {:induction false} TokensOfJoin(ts: seq<Bytes>)
    requires forall t | t in ts :: IsToken(t)
    ensures Tokens(Join(ts)) == ts
  {
    hide Tokens;
    if |ts| == 0 {
      NoMoreTokens([]);
    } else if |ts| == 1 {
      NoMoreTokens([]);
      TokenFirst(ts[0], []);
      assert ts[0] + [] == ts[0];
    } else {
      var rest := Join(ts[1..]);
      TokensOfJoin(ts[1..]);
      assert ts[0] + [SPACE] + rest == ts[0] + ([SPACE] + rest);
      TokenFirst(ts[0], [SPACE] + rest);
      SpaceFirst(rest);
    }
  }

  /** Every token is nonempty and free of spaces. */
  lemma {:induction false} TokensAreTokens(line: Bytes)
    ensures forall t | t in Tokens(line) :: IsToken(t)
    decreases |line|
  {
    hide Tokens, Spaces, TokenLength;
    TokensUnfold(line);
    var t := line[Spaces(line)..];
    if t != [] {
      TokensAreTokens(t[TokenLength(t)..]);
    }
  }

  // ---- strtok_r ---------------------------------------------------------------------------------

  /** The bytes from p on are s, and then a null. */
  predicate StringAt(m: Bytes, p: nat, s: Bytes) {
    p + |s| < |m| && m[p..p + |s|] == s && m[p + |s|] == NUL
  }

  /** From position s of m, a string that ends at n, strtok_r with the delimiter " " finds no
      token; or it finds the first one, ends it with a null, and saves where to go on.  It
      changes no other byte. */
  ghost predicate Splits(m: Bytes, m': Bytes, s: nat, n: nat, tok: Option<nat>, save: nat) {
    && |m'| == |m| && s <= save <= n < |m| && m'[n] == NUL && m'[save..n] == m[save..n]
    && match tok
       case None => Tokens(m[s..n]) == [] && m' == m
       case Some(t) =>
         && s <= t < n && Tokens(m[s..n]) != []
         && StringAt(m', t, Tokens(m[s..n])[0])
         && Tokens(m[s..n])[1..] == Tokens(m[save..n])
         && var e := t + |Tokens(m[s..n])[0]|;
            (e < save || save == n) && forall i | 0 <= i < |m| && i != e :: m'[i] == m[i]
  }

  /** strtok_r */
  method StrtokR(b: array<Byte>, s: nat, ghost n: nat) returns (tok: Option<nat>, save: nat)
    requires s <= n < b.Length && b[n] == NUL && NUL !in b[s..n]
    modifies b
    ensures Splits(old(b[..]), b[..], s, n, tok, save)
  {
    hide Splits;
    ghost var m := b[..];
    var p := s;
    while b[p] == SPACE || b[p] == NUL
      invariant s <= p <= n && b[..] == m && forall i | s <= i < p :: m[i] == SPACE
      decreases n - p
    {
      if b[p] == NUL {
        FindsNothing(m, s, n);
        return None, p;
      }
      p := p + 1;
    }
    var t := p;
    while b[p] != SPACE && b[p] != NUL
      invariant t <= p <= n && b[..] == m && forall i | t <= i < p :: m[i] != SPACE
      decreases n - p
    {
      p := p + 1;
    }
    if b[p] != NUL {
      FindsToken(m, s, n, t, p);
      b[p] := NUL;
      assert b[..] == m[p := NUL];
      save := p + 1;
    } else {
      FindsLast(m, s, n, t);
      save := p;
    }
    tok := Some(t);
  }

  lemma FindsNothing(m: Bytes, s: nat, n: nat)
    requires s <= n < |m| && m[n] == NUL && forall i | s <= i < n :: m[i] == SPACE
    ensures Splits(m, m, s, n, None, n)
  {
    hide Tokens;
    NoMoreTokens(m[s..n]);
  }

  /** A token that a space ends. */
  lemma FindsToken(m: Bytes, s: nat, n: nat, t: nat, p: nat)
    requires s <= t < p < n < |m| && m[n] == NUL && m[p] == SPACE
    requires (forall i | s <= i < t :: m[i] == SPACE) && (forall i | t <= i < p :: m[i] != SPACE)
    ensures Splits(m, m[p := NUL], s, n, Some(t), p + 1)
  {
    hide Tokens;
    FirstToken(m, s, n, t, p);
    assert m[p..n] == [SPACE] + m[p + 1..n];
    SpaceFirst(m[p + 1..n]);
    assert m[p := NUL][t..p] == m[t..p] && m[p := NUL][p + 1..n] == m[p + 1..n];
  }

  /** A token that ends with the string. */
  lemma FindsLast(m: Bytes, s: nat, n: nat, t: nat)
    requires s <= t < n < |m| && m[n] == NUL
    requires (forall i | s <= i < t :: m[i] == SPACE) && (forall i | t <= i < n :: m[i] != SPACE)
    ensures Splits(m, m, s, n, Some(t), n)
  {
    hide Tokens;
    FirstToken(m, s, n, t, n);
  }

  lemma FirstToken(m: Bytes, s: nat, n: nat, t: nat, p: nat)
    requires s <= t < p <= n < |m| && (p < n ==> m[p] == SPACE)
    requires (forall i | s <= i < t :: m[i] == SPACE) && (forall i | t <= i < p :: m[i] != SPACE)
    ensures Tokens(m[s..n]) == [m[t..p]] + Tokens(m[p..n])
  {
    hide Tokens;
    var line := m[s..n];
    assert forall i {:trigger line[i]} | 0 <= i < |line| :: line[i] == m[s + i];
    NextToken(line, t - s, p - s);
    Piece(m, s, n, t, p);
  }

  lemma Piece(m: Bytes, s: nat, n: nat, t: nat, p: nat)
    requires s <= t <= p <= n <= |m|
    ensures m[s..n][t - s..p - s] == m[t..p] && m[s..n][p - s..] == m[p..n]
  {
    var line := m[s..n];
    assert forall i {:trigger line[i]} | 0 <= i < |line| :: line[i] == m[s + i];
    assert line[t - s..p - s] == m[t..p];
    assert line[p - s..] == m[p..n];
  }

  lemma NoMoreTokens(line: Bytes)
    requires forall i | 0 <= i < |line| :: line[i] == SPACE
    ensures Tokens(line) == []
  {
    SpacesIs(line, |line|);
    TokensUnfold(line);
  }

  lemma NextToken(line: Bytes, a: nat, z: nat)
    requires a < z <= |line| && (forall i | 0 <= i < a :: line[i] == SPACE)
             && (forall i | a <= i < z :: line[i] != SPACE)
    requires z < |line| ==> line[z] == SPACE
    ensures Tokens(line) == [line[a..z]] + Tokens(line[z..])
  {
    hide *;
    SpacesIs(line, a);
    var t := line[a..];
    forall i | 0 <= i < z - a ensures t[i] != SPACE {
      assert t[i] == line[a + i];
    }
    assert z < |line| ==> t[z - a] == line[z];
    TokenLengthIs(t, z - a);
    TokensFrom(line, a, z);
    assert t[..z - a] == line[a..z];
    assert t[z - a..] == line[z..];
  }

  lemma {:induction false} TokensFrom(line: Bytes, a: nat, z: nat)
    requires a < z <= |line| && Spaces(line) == a && TokenLength(line[a..]) == z - a
    ensures Tokens(line) == [line[a..][..z - a]] + Tokens(line[a..][z - a..])
  {
    hide *;
    TokensUnfold(line);
    assert line[a..] != [];
  }

  // ---- argument_parse -----------------------------------------------------------------------------

  /** The tokens found so far stand in the buffer before the save position. */
  ghost predicate Parsed(m: Bytes, argv: seq<nat>, tokens: seq<Bytes>, save: nat, n: nat) {
    && |argv| <= |tokens|
    && (forall i | 0 <= i < |argv| :: StringAt(m, argv[i], tokens[i]) && (argv[i] + |tokens[i]| < save || save == n))
  }

  /** Changes at or after the save position do not touch them. */
  lemma StillParsed(m: Bytes, m': Bytes, argv: seq<nat>, tokens: seq<Bytes>, save: nat, save': nat, n: nat)
    requires Parsed(m, argv, tokens, save, n) && save < n && |m'| == |m| && save <= save' <= n && save <= |m|
    requires forall i | 0 <= i < save && i < |m| :: m'[i] == m[i]
    ensures Parsed(m', argv, tokens, save', n)
  {
    forall i | 0 <= i < |argv| ensures StringAt(m', argv[i], tokens[i]) && argv[i] + |tokens[i]| < save' {
      var p, q := argv[i], argv[i] + |tokens[i]|;
      assert m'[p..q] == m[p..q];
    }
  }

  /** A page of char pointers. */
  const SLOTS := 1024

  /** The first slots of a page of pointers hold ptrs. */
  ghost predicate Slots(page: seq<Option<nat>>, ptrs: seq<nat>) {
    |ptrs| <= |page| && forall i | 0 <= i < |ptrs| :: page[i] == Some(ptrs[i])
  }

  /** argument_parse of the string that ends at position n: pointers to its tokens, each made
      a string of its own, and a null behind them.  Without a slot for all of them a store leaves
      the page of pointers, and there is no result. */
  method ArgumentParse(b: array<Byte>, argv: array<Option<nat>>, ghost n: nat) returns (argc: Option<nat>,
      ghost ptrs: seq<nat>)
    requires n < b.Length && b[n] == NUL && NUL !in b[..n] && argv.Length == SLOTS
    modifies b, argv
    ensures argc.Some? <==> |Tokens(old(b[..n]))| < SLOTS
    ensures argc.Some? ==>
              && argc.value == |Tokens(old(b[..n]))| == |ptrs| && Slots(argv[..], ptrs) && argv[argc.value] == None
              && forall i | 0 <= i < |ptrs| :: StringAt(b[..], ptrs[i], Tokens(old(b[..n]))[i])
  {
    hide *;
    ghost var line := b[..n];
    ghost var tokens := Tokens(line);
    ptrs := [];
    var count: nat := 0;
    NoSlots(argv[..]);
    Start(b[..], n);
    ghost var m := b[..];
    var tok, save := StrtokR(b, 0, n);
    Advance(m, b[..], ptrs, tokens, 0, save, n, line, tok);
    while tok.Some?
      invariant 0 <= save <= n && b[n] == NUL && b[..][save..n] == line[save..]
      invariant Parsed(b[..], ptrs, tokens, save, n)
      invariant tok.Some? ==> Found(b[..], tok.value, ptrs, tokens, save, n, line)
      invariant tok.None? ==> |ptrs| == |tokens|
      invariant count == |ptrs| <= SLOTS && Slots(argv[..], ptrs)
      decreases |tokens| - |ptrs|
    {
      Accept(b[..], tok.value, ptrs, tokens, save, n, line);
      if count == SLOTS {
        return None, ptrs;
      }
      ghost var page := argv[..];
      argv[count] := tok;
      OneSlot(page, ptrs, tok.value);
      assert argv[..] == page[count := tok];
      ptrs := ptrs + [tok.value];
      count := count + 1;
      m := b[..];
      ghost var before := save;
      assert NUL !in b[save..n] by { NoNul(line, save); assert b[save..n] == b[..][save..n]; }
      tok, save := StrtokR(b, save, n);
      Advance(m, b[..], ptrs, tokens, before, save, n, line, tok);
    }
    AllParsed(b[..], ptrs, tokens, save, n);
    if count == SLOTS {
      return None, ptrs;
    }
    ghost var page := argv[..];
    argv[count] := None;
    assert argv[..] == page[count := None];
    NullBehind(page, ptrs);
    argc := Some(count);
  }

  lemma NoSlots(page: seq<Option<nat>>)
    ensures Slots(page, [])
  {
  }

  lemma OneSlot(page: seq<Option<nat>>, ptrs: seq<nat>, p: nat)
    requires Slots(page, ptrs) && |ptrs| < |page|
    ensures Slots(page[|ptrs| := Some(p)], ptrs + [p])
  {
  }

  lemma NullBehind(page: seq<Option<nat>>, ptrs: seq<nat>)
    requires Slots(page, ptrs) && |ptrs| < |page|
    ensures Slots(page[|ptrs| := None], ptrs)
  {
  }

  lemma Start(m: Bytes, n: nat)
    requires n < |m|
    ensures var line := m[..n]; Parsed(m, [], Tokens(line), 0, n) && m[0..n] == line == line[0..]
    ensures Tokens(m[..n])[0..] == Tokens(m[..n])
  {
    hide Tokens, StringAt;
  }

  /** The token found becomes the next argument. */
  lemma Accept(m: Bytes, t: nat, argv: seq<nat>, tokens: seq<Bytes>, save: nat, n: nat, line: Bytes)
    requires Parsed(m, argv, tokens, save, n) && Found(m, t, argv, tokens, save, n, line)
    ensures Parsed(m, argv + [t], tokens, save, n) && |argv| < |tokens| && save <= |line|
    ensures tokens[|argv + [t]|..] == Tokens(line[save..])
  {
    hide Tokens, StringAt;
  }

  /** A call of strtok_r leaves the arguments found before alone, and finds the next one. */
  lemma Advance(m: Bytes, m': Bytes, argv: seq<nat>, tokens: seq<Bytes>, s: nat, save: nat, n: nat, line: Bytes,
                tok: Option<nat>)
    requires Parsed(m, argv, tokens, s, n) && s <= n == |line| && n < |m| && m[s..n] == line[s..]
    requires tokens[|argv|..] == Tokens(line[s..]) && Splits(m, m', s, n, tok, save)
    ensures save <= n && m'[n] == NUL && m'[save..n] == line[save..] && Parsed(m', argv, tokens, save, n)
    ensures tok.Some? ==> Found(m', tok.value, argv, tokens, save, n, line)
    ensures tok.None? ==> |argv| == |tokens|
  {
    hide Tokens, StringAt;
    Suffix(line, s, m[s..n], save, m[save..n]);
    if tok.Some? {
      Later(m, m', argv, tokens, s, save, n, tok.value + |Tokens(m[s..n])[0]|);
      assert tokens[|argv|..][0] == tokens[|argv|] && tokens[|argv|..][1..] == tokens[|argv| + 1..];
    }
  }

  lemma Later(m: Bytes, m': Bytes, argv: seq<nat>, tokens: seq<Bytes>, s: nat, save: nat, n: nat, e: nat)
    requires Parsed(m, argv, tokens, s, n) && s < n < |m| && |m'| == |m| && s <= save <= n && s <= e
    requires forall i | 0 <= i < |m| && i != e :: m'[i] == m[i]
    ensures Parsed(m', argv, tokens, save, n)
  {
    hide Parsed;
    StillParsed(m, m', argv, tokens, s, save, n);
  }

  lemma AllParsed(m: Bytes, argv: seq<nat>, tokens: seq<Bytes>, save: nat, n: nat)
    requires Parsed(m, argv, tokens, save, n) && |argv| == |tokens|
    ensures forall i | 0 <= i < |argv| :: StringAt(m, argv[i], tokens[i])
  {
    hide StringAt;
  }

  lemma NoNul(line: Bytes, i: nat)
    requires NUL !in line && i <= |line|
    ensures NUL !in line[i..]
  {
  }

  lemma Suffix(line: Bytes, i: nat, s: Bytes, j: nat, t: Bytes)
    requires i <= j <= |line| && s == line[i..] && t == s[j - i..]
    ensures t == line[j..]
  {
  }

  /** strtok_r has found the next token. */
  ghost predicate Found(m: Bytes, t: nat, argv: seq<nat>, tokens: seq<Bytes>, save: nat, n: nat, line: Bytes) {
    && |argv| < |tokens| && StringAt(m, t, tokens[|argv|]) && (t + |tokens[|argv|]| < save || save == n)
    && save <= |line| && tokens[|argv| + 1..] == Tokens(line[save..])
  }
}
