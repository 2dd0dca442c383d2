/** Cutting a string at a delimiter: the broker's split() and what it computes. */
module Tokenizer {
  import opened CStrings

  /** The length of the longest beginning of s without d. */
  function RunLength(s: string, d: char): (n: nat)
    ensures n <= |s| && d !in s[..n]
    ensures n < |s| ==> s[n] == d
  {
    if s == "" || s[0] == d then 0 else 1 + RunLength(s[1..], d)
  }

  /** Repeated strtok: skip delimiters, then take everything up to the next one. */
  function Tokens(s: string, d: char): (ts: seq<string>)
    ensures forall t :: t in ts ==> t != "" && d !in t
    decreases |s|
  {
    if s == "" then [] else
    if s[0] == d then Tokens(s[1..], d) else
    var n := RunLength(s, d);
    [s[..n]] + Tokens(s[n..], d)
  }

  /** Cutting at every delimiter instead, empty parts and all. */
  function Parts(s: string, d: char): (ps: seq<string>)
    ensures ps != [] && forall p :: p in ps ==> d !in p
    decreases |s|
  {
    var n := RunLength(s, d);
    if n == |s| then [s] else [s[..n]] + Parts(s[n + 1..], d)
  }

  function Join(ps: seq<string>, d: char): string {
    if ps == [] then "" else
    if |ps| == 1 then ps[0] else ps[0] + [d] + Join(ps[1..], d)
  }

  function NonEmpty(ps: seq<string>): seq<string> {
    if ps == [] then [] else (if ps[0] == "" then [] else [ps[0]]) + NonEmpty(ps[1..])
  }

  lemma {:induction false} RunLengthOf(p: string, rest: string, d: char)
    requires d !in p && (rest == "" || rest[0] == d)
    ensures RunLength(p + rest, d) == |p|
  {
    if p != "" {
      assert (p + rest)[1..] == p[1..] + rest;
      assert p[0] in p && forall c :: c in p[1..] ==> c in p;
      RunLengthOf(p[1..], rest, d);
    } else {
      assert p + rest == rest;
    }
  }

  lemma TokensFirst(t: string, rest: string, d: char)
    requires t != "" && d !in t && (rest == "" || rest[0] == d)
    ensures Tokens(t + rest, d) == [t] + Tokens(rest, d)
  {
    var s := t + rest;
    RunLengthOf(t, rest, d);
    assert s[0] in t && s[..|t|] == t && s[|t|..] == rest;
  }

  /** One part, a delimiter, and the rest. */
  lemma TokensStep(p: string, rest: string, d: char)
    requires d !in p
    ensures Tokens(p + [d] + rest, d) == NonEmpty([p]) + Tokens(rest, d)
  {
    var r := [d] + rest;
    assert p + [d] + rest == p + r;
    assert r[1..] == rest;
    assert Tokens(r, d) == Tokens(rest, d);
    if p == "" {
      assert p + r == r;
    } else {
      TokensFirst(p, r, d);
    }
  }

  lemma TokensOfEmpty(d: char)
    ensures Tokens("", d) == []
  {
  }

  lemma TokensLast(p: string, d: char)
    requires d !in p
    ensures Tokens(p, d) == NonEmpty([p])
  {
    RunLengthOf(p, "", d);
    assert p + "" == p;
    if p != "" {
      assert p[0] in p && p[..|p|] == p && p[|p|..] == "";
    }
  }

  /** The whole law of the tokenizer: whatever delimiter-free parts were joined, the tokens are the
      non-empty ones among them, in order. Every string is such a join, of its own Parts only. */
  lemma {:induction false} TokensOfJoin(ps: seq<string>, d: char)
    requires forall p :: p in ps ==> d !in p
    ensures Tokens(Join(ps, d), d) == NonEmpty(ps)
    decreases |ps|
  {
    hide Tokens;
    if ps == [] {
      TokensOfEmpty(d);
    } else {
      assert ps[0] in ps;
      assert NonEmpty([ps[0]]) + NonEmpty(ps[1..]) == NonEmpty(ps);
      if |ps| == 1 {
        TokensLast(ps[0], d);
        assert ps == [ps[0]];
      } else {
        TokensOfJoin(ps[1..], d);
        TokensStep(ps[0], Join(ps[1..], d), d);
      }
    }
  }

  lemma {:induction false} JoinAppend(ps: seq<string>, p: string, d: char)
    requires ps != []
    ensures Join(ps + [p], d) == Join(ps, d) + [d] + p
    decreases |ps|
  {
    if |ps| == 1 {
      assert (ps + [p])[1..] == [p];
    } else {
      JoinAppend(ps[1..], p, d);
      assert (ps + [p])[1..] == ps[1..] + [p];
      var front, rest := ps[0] + [d], Join(ps[1..], d);
      assert front + (rest + [d] + p) == front + rest + [d] + p;
    }
  }

  lemma {:induction false} JoinAvoids(ps: seq<string>, d: char, c: char)
    requires c != d && forall p :: p in ps ==> c !in p
    ensures c !in Join(ps, d)
    decreases |ps|
  {
    if ps != [] {
      assert ps[0] in ps;
      JoinAvoids(ps[1..], d, c);
    }
  }

  lemma {:induction false} JoinOfParts(s: string, d: char)
    ensures Join(Parts(s, d), d) == s
    decreases |s|
  {
    hide Parts, Join;
    var n := RunLength(s, d);
    PartsStep(s, d);
    if n < |s| {
      JoinOfParts(s[n + 1..], d);
      JoinStep(s[..n], Parts(s[n + 1..], d), d);
      assert s == s[..n] + [d] + s[n + 1..];
    } else {
      JoinOne(s, d);
    }
  }

  lemma {:induction false} PartsStep(s: string, d: char)
    ensures
      var n := RunLength(s, d);
      Parts(s, d) == if n < |s| then [s[..n]] + Parts(s[n + 1..], d) else [s]
  {
  }

  lemma {:induction false} JoinStep(p: string, ps: seq<string>, d: char)
    requires ps != []
    ensures Join([p] + ps, d) == p + [d] + Join(ps, d)
  {
    assert ([p] + ps)[1..] == ps;
  }

  lemma {:induction false} JoinOne(p: string, d: char)
    ensures Join([p], d) == p
  {
  }

  lemma {:induction false} PartsAreUnique(ps: seq<string>, d: char)
    requires ps != [] && forall p :: p in ps ==> d !in p
    ensures Parts(Join(ps, d), d) == ps
    decreases |ps|
  {
    assert ps[0] in ps;
    if |ps| == 1 {
      RunLengthOf(ps[0], "", d);
      assert ps[0] + "" == ps[0];
    } else {
      var rest := Join(ps[1..], d);
      assert Join(ps, d) == ps[0] + ([d] + rest);
      RunLengthOf(ps[0], [d] + rest, d);
      PartsAreUnique(ps[1..], d);
      assert Join(ps, d)[|ps[0]| + 1..] == rest;
    }
  }

  lemma TokensAreParts(s: string, d: char)
    ensures Tokens(s, d) == NonEmpty(Parts(s, d))
  {
    JoinOfParts(s, d);
    TokensOfJoin(Parts(s, d), d);
  }

  lemma {:induction false} NonEmptyAll(ps: seq<string>)
    ensures "" !in ps ==> NonEmpty(ps) == ps
    ensures |NonEmpty(ps)| == |ps| ==> "" !in ps
    ensures |NonEmpty(ps)| <= |ps|
  {
    if ps != [] {
      NonEmptyAll(ps[1..]);
    }
  }

  /** Splitting undoes joining exactly on lists of non-empty, delimiter-free strings. */
  lemma SplitUndoesJoin(ts: seq<string>, d: char)
    ensures Tokens(Join(ts, d), d) == ts <==> forall t :: t in ts ==> t != "" && d !in t
  {
    if forall t :: t in ts ==> t != "" && d !in t {
      TokensOfJoin(ts, d);
      NonEmptyAll(ts);
    }
  }

  /** At index p, the buffer holds t as a C string. */
  ghost predicate TokenAt(s: string, p: nat, t: string) {
    p + |t| < |s| && s[p..p + |t|] == t && s[p + |t|] == NUL
  }

  /** strtok (section 7.24.5.8 of C11) with its saved position made explicit: -1 is NULL, and a
      found token is terminated in place. `end` is where the string's own terminator is. */
  method StrTok(a: array<char>, from: nat, d: char, ghost end: nat) returns (tok: int, saved: nat)
    requires from <= end < a.Length && a[end] == NUL && NUL !in a[from..end] && d != NUL
    modifies a
    ensures from <= saved <= end && NUL !in a[saved..end]
    ensures a[..from] == old(a[..from]) && a[end..] == old(a[end..])
    ensures
      var ts := Tokens(old(a[from..end]), d);
      if ts == [] then
        tok == -1 && saved == end
      else
        && from <= tok && tok + |ts[0]| <= saved
        && TokenAt(a[..], tok, ts[0])
        && Tokens(a[saved..end], d) == ts[1..]
  {
    hide Tokens;
    ghost var was, text := a[..], a[from..end];
    saved := from;
    while a[saved] == d
      invariant from <= saved <= end && a[..] == was
      invariant Tokens(was[saved..end], d) == Tokens(text, d)
      decreases end - saved
    {
      SkipDelimiter(was, saved, end, d);
      saved := saved + 1;
    }
    TokensOfEmpty(d);
    if a[saved] == NUL {
      assert saved == end && was[end..end] == "";
      return -1, saved;
    }
    tok := saved;
    while a[saved] != NUL && a[saved] != d
      invariant tok <= saved <= end && a[..] == was
      invariant d !in was[tok..saved]
      decreases end - saved
    {
      assert was[tok..saved + 1] == was[tok..saved] + [was[saved]];
      saved := saved + 1;
    }
    FirstToken(was, tok, saved, end, d);
    if a[saved] != NUL {
      a[saved] := NUL;
      saved := saved + 1;
    }
  }

  lemma SkipDelimiter(s: string, from: nat, end: nat, d: char)
    requires from < end <= |s| && s[from] == d
    ensures Tokens(s[from..end], d) == Tokens(s[from + 1..end], d)
  {
  }

  lemma FirstToken(s: string, tok: nat, stop: nat, end: nat, d: char)
    requires tok < stop <= end < |s| && d !in s[tok..stop] && (stop == end || s[stop] == d)
    ensures Tokens(s[tok..end], d) == [s[tok..stop]] + Tokens(s[stop..end], d)
    ensures stop < end ==> Tokens(s[stop..end], d) == Tokens(s[stop + 1..end], d)
  {
    var t, rest := s[tok..stop], s[stop..end];
    assert s[tok..end] == t + rest;
    TokensFirst(t, rest, d);
    if stop < end {
      assert rest[0] == d && rest[1..] == s[stop + 1..end];
    }
  }

  /** split(linea, delim, argv): argv lists where each token starts in the buffer, and the buffer
      holds every token there, terminated, at the end of the call. */
  method Split(linea: array<char>, delim: char) returns (argv: seq<nat>)
    requires NUL in linea[..] && delim != NUL
    modifies linea
    ensures
      var ts := Tokens(CStr(old(linea[..])), delim);
      && |argv| == |ts|
      && forall i :: 0 <= i < |ts| ==> argv[i] < linea.Length && CStr(linea[argv[i]..]) == ts[i]
  {
    hide Tokens, TokenAt;
    ghost var text := CStr(linea[..]);
    ghost var ts, end := Tokens(text, delim), |text|;
    CStrEnd(linea[..]);
    assert linea[0..end] == text;
    argv := [];
    var token, saved := StrTok(linea, 0, delim, end);
    while token != -1
      invariant saved <= end < linea.Length && linea[end] == NUL && NUL !in linea[saved..end]
      invariant |argv| <= |ts|
      invariant forall i :: 0 <= i < |argv| ==> argv[i] + |ts[i]| <= saved && TokenAt(linea[..], argv[i], ts[i])
      invariant if token == -1 then |argv| == |ts| else
                  && |argv| < |ts|
                  && 0 <= token && token + |ts[|argv|]| <= saved
                  && TokenAt(linea[..], token, ts[|argv|])
                  && Tokens(linea[saved..end], delim) == ts[|argv| + 1..]
      decreases |ts| - |argv|, token
    {
      argv := argv + [token];
      ghost var was, from := linea[..], saved;
      token, saved := StrTok(linea, saved, delim, end);
      forall i | 0 <= i < |argv| ensures TokenAt(linea[..], argv[i], ts[i]) {
        TokenStays(was, linea[..], argv[i], ts[i], from, end);
      }
    }
    forall i | 0 <= i < |ts| ensures argv[i] < linea.Length && CStr(linea[argv[i]..]) == ts[i] {
      assert NUL !in ts[i] by {
        if NUL in ts[i] {
          TokensPartOf(text, delim, ts[i], NUL);
        }
      }
      TokenIsCStr(linea[..], argv[i], ts[i]);
      assert linea[argv[i]..] == linea[..][argv[i]..];
    }
  }

  lemma CStrEnd(s: string)
    requires NUL in s
    ensures |CStr(s)| < |s| && s[|CStr(s)|] == NUL
  {
  }

  lemma {:induction false} FirstNul(s: string, k: nat)
    requires k < |s| && s[k] == NUL
    ensures |CStr(s)| <= k && s[|CStr(s)|] == NUL
  {
    if s[0] != NUL {
      FirstNul(s[1..], k - 1);
    }
  }

  /** Later calls of strtok write only after the saved position, so earlier tokens stay as they are. */
  lemma {:induction false} TokenStays(was: string, now: string, p: nat, t: string, from: nat, end: nat)
    requires |was| == |now| && from <= end < |was|
    requires now[..from] == was[..from] && now[end..] == was[end..] && now[end] == NUL
    requires TokenAt(was, p, t) && p + |t| <= from
    requires NUL !in was[from..end]
    ensures TokenAt(now, p, t)
  {
    assert from < end ==> was[from] in was[from..end];
    assert now[p..p + |t|] == now[..from][p..p + |t|];
    assert was[p..p + |t|] == was[..from][p..p + |t|];
  }

  lemma TokenIsCStr(s: string, p: nat, t: string)
    requires TokenAt(s, p, t) && NUL !in t
    ensures CStr(s[p..]) == t
  {
    assert s[p..][..|t|] == t && s[p..][|t|] == NUL;
    CStrAt(s[p..], |t|);
  }

  lemma {:induction false} TokensPartOf(s: string, d: char, t: string, c: char)
    requires t in Tokens(s, d) && c in t
    ensures c in s
    decreases |s|
  {
    var n := RunLength(s, d);
    if s[0] == d {
      TokensPartOf(s[1..], d, t, c);
    } else if t != s[..n] {
      TokensPartOf(s[n..], d, t, c);
    }
  }
}
