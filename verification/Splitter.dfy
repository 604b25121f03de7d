/** `obe_split_string` of obe/obecli.c on its array, and when the array has room for the pieces. */
module Splitter {
  import opened Splitting

  // ----- The allocation and the terminating null

  function Capacity(s: string, sep: string, limit: nat): nat
    requires sep != ""
  {
    (if 0 < limit then limit else SepCount(s, sep, 0)) + 2
  }

  // The separator overlaps a copy of itself that begins d characters later.
  predicate Overlaps(sep: string, d: nat) {
    0 < d < |sep| && sep[d..] == sep[..|sep| - d]
  }

  // Wherever the separator overlaps itself, what lies between the two beginnings ends in a backslash, and
  // so joins what follows. A separator that does not overlap itself, such as any one character, is harmless.
  predicate Harmless(sep: string) {
    forall d :: 0 < d < |sep| && Overlaps(sep, d) ==> d > 1 && sep[d - 1] == BACKSLASH
  }

  // ----- The two searches, by the place they have reached

  // Whether the last piece ends in a backslash once the token s[from..m] has been taken.
  predicate Carries(joins: bool, s: string, sep: string, from: nat, m: nat)
    requires m <= |s|
  {
    if from < m then s[m - 1] == BACKSLASH else joins && EndsEscaped(sep)
  }

  // The pieces made by the tokens from a place on; `joins` says whether the first one is joined.
  function Made(joins: bool, s: string, sep: string, from: nat): nat
    requires sep != "" && from <= |s|
    decreases |s| - from
  {
    (if joins then 0 else 1) +
    match StrStr(s, sep, from)
    case None => 0
    case Some(m) => Made(Carries(joins, s, sep, from, m), s, sep, m + 1)
  }

  // Nothing is found between two starting places that the first search passes over.
  lemma {:induction false} SearchFromLater(s: string, sep: string, from: nat, later: nat)
    requires sep != "" && from <= later && StrStr(s, sep, from).Some? && later <= StrStr(s, sep, from).value
    ensures StrStr(s, sep, later) == StrStr(s, sep, from)
    decreases later - from
  {
    if from < later { SearchFromLater(s, sep, from + 1, later); }
  }

  lemma {:induction false} SearchFinds(s: string, sep: string, from: nat, at: nat)
    requires sep != "" && from <= at && MatchAt(s, sep, at)
    ensures StrStr(s, sep, from).Some? && StrStr(s, sep, from).value <= at
    decreases at - from
  {
    if from < at && !MatchAt(s, sep, from) { SearchFinds(s, sep, from + 1, at); }
  }

  predicate JoinsNext(a: Acc) {
    a.split != [] && EndsEscaped(a.split[|a.split| - 1])
  }

  // A token is pushed exactly if the last piece does not end in a backslash, and ends the last piece.
  lemma TokenCounts(a: Acc, t: string, sep: string)
    requires a.Valid() && sep != ""
    ensures var b := Step(a, t, sep, 0);
            && |b.split| == |a.split| + (if JoinsNext(a) then 0 else 1)
            && (JoinsNext(b) <==> if t != "" then EndsEscaped(t) else JoinsNext(a) && EndsEscaped(sep))
  {
    if a.split != [] { EscapeAtEnd(a.split, |a.split| - 1); }
  }

  // The pieces a list of tokens makes.
  function MadeOf(joins: bool, toks: seq<string>, sep: string): nat
    decreases |toks|
  {
    if toks == [] then 0
    else
      var t := toks[0];
      (if joins then 0 else 1) + MadeOf(if t != "" then EndsEscaped(t) else joins && EndsEscaped(sep), toks[1..], sep)
  }

  lemma {:induction false} StepsMade(a: Acc, toks: seq<string>, sep: string)
    requires a.Valid() && sep != ""
    ensures |Steps(a, toks, sep, 0).split| == |a.split| + MadeOf(JoinsNext(a), toks, sep)
    decreases |toks|
  {
    if toks != [] {
      TokenCounts(a, toks[0], sep);
      StepsMade(Step(a, toks[0], sep, 0), toks[1..], sep);
    }
  }

  lemma {:induction false} TokensMade(joins: bool, s: string, sep: string, from: nat)
    requires sep != "" && from <= |s|
    ensures MadeOf(joins, Tokens(s, sep, from), sep) == Made(joins, s, sep, from)
    decreases |s| - from
  {
    match StrStr(s, sep, from)
    case None => LastMade(joins, s[from..], sep);
    case Some(m) =>
      TokenEnd(s, from, m);
      TokensMade(Carries(joins, s, sep, from, m), s, sep, m + 1);
      FirstMade(joins, s[from..m], Tokens(s, sep, m + 1), sep);
  }

  lemma LastMade(joins: bool, t: string, sep: string)
    ensures MadeOf(joins, [t], sep) == if joins then 0 else 1
  {
  }

  lemma FirstMade(joins: bool, t: string, toks: seq<string>, sep: string)
    ensures MadeOf(joins, [t] + toks, sep) == (if joins then 0 else 1)
              + MadeOf(if t != "" then EndsEscaped(t) else joins && EndsEscaped(sep), toks, sep)
  {
    assert ([t] + toks)[1..] == toks;
  }

  lemma SplitMade(s: string, sep: string)
    requires sep != "" && s != ""
    ensures |Split(s, sep, 0)| == Made(false, s, sep, 0)
  {
    StepsMade(Acc([], Null), Tokens(s, sep, 0), sep);
    TokensMade(false, s, sep, 0);
  }

  lemma TokenEnd(s: string, from: nat, m: nat)
    requires from <= m <= |s|
    ensures var t := s[from..m];
            (t != "" <==> from < m) && (t != "" ==> (EndsEscaped(t) <==> s[m - 1] == BACKSLASH))
  {
  }

  // Two overlapping matches, and what lies between their beginnings.
  lemma MatchesOverlap(s: string, sep: string, i: nat, m: nat)
    requires MatchAt(s, sep, i) && MatchAt(s, sep, m) && i < m < i + |sep|
    ensures Overlaps(sep, m - i) && s[m - 1] == sep[m - 1 - i]
  {
    var d := m - i;
    forall x | 0 <= x < |sep| - d
      ensures sep[d..][x] == sep[..|sep| - d][x]
    {
      assert sep[d + x] == s[i + (d + x)] == s[m + x] == sep[x];
    }
    assert sep[d - 1] == s[i + (d - 1)];
  }

  lemma OverlapCarries(s: string, sep: string, i: nat, m: nat)
    requires Harmless(sep) && MatchAt(s, sep, i) && MatchAt(s, sep, m) && i < m < i + |sep|
    ensures i + 1 < m && s[m - 1] == BACKSLASH
  {
    MatchesOverlap(s, sep, i, m);
  }

  // After a match at i, the counting search having reached `counted`.
  lemma {:induction false} PiecesFit(joins: bool, s: string, sep: string, i: nat, counted: nat)
    requires sep != "" && Harmless(sep) && MatchAt(s, sep, i) && i < counted <= i + |sep|
    ensures Made(joins, s, sep, i + 1) <= (if joins then 0 else 1) + SepCount(s, sep, counted)
    decreases |s| - i
  {
    hide MatchAt;
    match StrStr(s, sep, i + 1)
    case None =>
    case Some(m) =>
      var next := Carries(joins, s, sep, i + 1, m);
      if m < i + |sep| { OverlapCarries(s, sep, i, m); }
      if m < counted {
        PiecesFit(next, s, sep, m, counted);
      } else {
        SearchFromLater(s, sep, i + 1, counted);
        PiecesFit(next, s, sep, m, m + |sep|);
      }
  }

  /** With a harmless separator, or a limit, the array always has room for the pieces and a null. */
  lemma NullTerminatorFits(s: string, sep: string, limit: nat)
    requires sep != "" && (Harmless(sep) || 0 < limit)
    ensures |Split(s, sep, limit)| < Capacity(s, sep, limit)
  {
    if limit == 0 && s != "" {
      AllPiecesFit(s, sep);
    }
  }

  lemma AllPiecesFit(s: string, sep: string)
    requires sep != "" && s != "" && Harmless(sep)
    ensures |Split(s, sep, 0)| <= 1 + SepCount(s, sep, 0)
  {
    SplitMade(s, sep);
    MadeFits(s, sep);
  }

  lemma MadeFits(s: string, sep: string)
    requires sep != "" && Harmless(sep)
    ensures Made(false, s, sep, 0) <= 1 + SepCount(s, sep, 0)
  {
    match StrStr(s, sep, 0)
    case None =>
    case Some(i) => PiecesFit(Carries(false, s, sep, 0, i), s, sep, i, i + |sep|);
  }

  // The token after the last match of s is pushed, since what lies before that match does not join it.
  lemma {:induction false} LastIsPushed(joins: bool, s: string, sep: string, from: nat)
    requires |sep| > 1 && !Overlaps(sep, 1) && from + |sep| < |s|
    requires MatchAt(s, sep, |s| - |sep|) && s[|s| - |sep| - 1] != BACKSLASH
    ensures Made(joins, s, sep, from) > if joins then 0 else 1
    decreases |s| - from
  {
    var at := |s| - |sep|;
    SearchFinds(s, sep, from, at);
    var m := StrStr(s, sep, from).value;
    if m != at {
      if m + 1 == at { MatchesOverlap(s, sep, m, at); }
      LastIsPushed(Carries(joins, s, sep, from, m), s, sep, m + 1);
    }
  }

  // A string in which two copies of the separator overlap.
  function Overlapped(sep: string, d: nat): string
    requires d <= |sep|
  {
    sep[..d] + sep
  }

  lemma OverlappedCounts(sep: string, d: nat)
    requires Overlaps(sep, d)
    ensures SepCount(Overlapped(sep, d), sep, 0) == 1
    ensures MatchAt(Overlapped(sep, d), sep, 0) && MatchAt(Overlapped(sep, d), sep, d)
  {
    var s, n := Overlapped(sep, d), |sep|;
    forall x | 0 <= x < n
      ensures s[0 + x] == sep[x]
    {
      if x >= d { assert sep[d..][x - d] == sep[..n - d][x - d]; }
    }
    assert MatchAt(s, sep, 0) && StrStr(s, sep, n) == None;
  }

  // The empty token before a match at the beginning is a piece of its own.
  lemma MadeAtFront(s: string, sep: string)
    requires sep != "" && MatchAt(s, sep, 0)
    ensures |s| > 0 && Made(false, s, sep, 0) == 1 + Made(false, s, sep, 1)
  {
    assert StrStr(s, sep, 0) == Some(0);
  }

  // So is an empty token between two matches.
  lemma MadeBetween(s: string, sep: string)
    requires sep != "" && MatchAt(s, sep, 1)
    ensures |s| > 1 && Made(false, s, sep, 1) >= 2
  {
    assert StrStr(s, sep, 1) == Some(1);
  }

  lemma OverlappedMade(s: string, sep: string, d: nat)
    requires 0 < d < |sep| && |s| == d + |sep| && MatchAt(s, sep, 0) && MatchAt(s, sep, d)
    requires d == 1 || (s[d - 1] != BACKSLASH && !Overlaps(sep, 1))
    ensures Made(false, s, sep, 0) >= 3
  {
    MadeAtFront(s, sep);
    if d == 1 { MadeBetween(s, sep); } else { LastIsPushed(false, s, sep, 1); }
  }

  /** A separator that overlaps itself otherwise has a string whose pieces fill the whole array. */
  lemma OverlappedOverflows(sep: string, d: nat)
    requires Overlaps(sep, d) && (d == 1 || (sep[d - 1] != BACKSLASH && !Overlaps(sep, 1)))
    ensures |Split(Overlapped(sep, d), sep, 0)| >= 3 == Capacity(Overlapped(sep, d), sep, 0)
  {
    OverlappedCounts(sep, d);
    OverlappedMade(Overlapped(sep, d), sep, d);
    SplitMade(Overlapped(sep, d), sep);
  }

  /** Without a limit the pieces of every string and the null fit if and only if the separator is harmless. */
  lemma FitsIff(sep: string)
    requires sep != ""
    ensures (forall s :: |Split(s, sep, 0)| < Capacity(s, sep, 0)) <==> Harmless(sep)
  {
    if Harmless(sep) {
      forall s
        ensures |Split(s, sep, 0)| < Capacity(s, sep, 0)
      {
        NullTerminatorFits(s, sep, 0);
      }
    } else {
      var d :| Overlaps(sep, d) && !(d > 1 && sep[d - 1] == BACKSLASH);
      var e := if Overlaps(sep, 1) then 1 else d;
      OverlappedOverflows(sep, e);
    }
  }

  /** The shortest such separator: three pieces fill an array of three. */
  lemma RepeatedSeparatorOverflows()
    ensures |Split("aaa", "aa", 0)| >= 3 == Capacity("aaa", "aa", 0)
  {
    assert "aa"[1..] == "aa"[..1];
    OverlappedOverflows("aa", 1);
    assert Overlapped("aa", 1) == "aaa";
  }

  // ----- The splitter itself

  method CountSeparators(s: string, sep: string) returns (count: nat)
    requires sep != ""
    ensures count == SepCount(s, sep, 0)
  {
    count := 0;
    var tmp := StrStr(s, sep, 0);
    while tmp.Some?
      invariant SepCount(s, sep, 0) == count + if tmp.Some? then 1 + SepCount(s, sep, tmp.value + |sep|) else 0
      invariant tmp.Some? ==> tmp.value + |sep| <= |s|
      decreases if tmp.Some? then |s| - tmp.value else 0
    {
      count, tmp := count + 1, StrStr(s, sep, tmp.value + |sep|);
    }
  }

  // The pieces found so far, in the array.
  ghost predicate Filling(ret: array<Option<string>>, pieces: seq<string>)
    reads ret
  {
    && |pieces| <= ret.Length
    && (forall k :: 0 <= k < |pieces| ==> ret[k] == Some(pieces[k]))
    && (forall k :: |pieces| <= k < ret.Length ==> ret[k] == None)
  }

  /** One pass of the loop of `obe_split_string`. */
  method TakeToken(split: array<Option<string>>, i: nat, esc: Esc, tok: string, sep: string, limit: nat, ghost a: Acc)
    returns (j: nat, e: Esc)
    requires a.Valid() && esc == a.esc && i == |a.split| && Filling(split, a.split)
    requires |Step(a, tok, sep, limit).split| < split.Length
    modifies split
    ensures var b := Step(a, tok, sep, limit); e == b.esc && j == |b.split| && Filling(split, b.split)
  {
    e := esc;
    var join := 0 < limit <= i;
    if !join && i > 0 {
      match LastBackslash(split[i - 1].value)
      case None => e := Null;
      case Some(p) =>
        e := At(i - 1, p);
        join := p + 1 == |split[i - 1].value|;
    }
    if join {
      if e.At? { split[e.piece] := Some(split[e.piece].value[..e.pos]); }
      split[i - 1] := Some(split[i - 1].value + sep + tok);
      j, e := i, Null;
    } else {
      split[i] := Some(tok);
      j := i + 1;
    }
  }

  lemma {:induction false} StepsGrow(a: Acc, toks: seq<string>, sep: string, limit: nat)
    requires a.Valid()
    ensures |a.split| <= |Steps(a, toks, sep, limit).split|
    decreases |toks|
  {
    if toks != [] { StepsGrow(Step(a, toks[0], sep, limit), toks[1..], sep, limit); }
  }

  lemma NoSeparator(s: string, sep: string, limit: nat)
    requires sep != "" && SepCount(s, sep, 0) == 0
    ensures Split(s, sep, limit) == if s == "" then [] else [s]
  {
    OneStep(Acc([], Null), s, sep, limit);
  }

  function TokenOf(s: string, from: nat, at: Option<nat>): string
    requires from <= |s| && (at.Some? ==> from <= at.value <= |s|)
  {
    if at.Some? then s[from..at.value] else s[from..]
  }

  lemma NextToken(a: Acc, s: string, sep: string, limit: nat, from: nat)
    requires a.Valid() && sep != "" && from <= |s|
    ensures var at := StrStr(s, sep, from);
            var b := Step(a, TokenOf(s, from, at), sep, limit);
            var all := Steps(a, Tokens(s, sep, from), sep, limit);
            && |b.split| <= |all.split|
            && all == if at.Some? then Steps(b, Tokens(s, sep, at.value + 1), sep, limit) else b
  {
    match StrStr(s, sep, from)
    case None => OneStep(a, s[from..], sep, limit);
    case Some(i) =>
      var toks := Tokens(s, sep, i + 1);
      FirstStep(a, s[from..i], toks, sep, limit);
      StepsGrow(Step(a, s[from..i], sep, limit), toks, sep, limit);
  }

  // The pieces a state of the second loop leads to; `tok` is null once the last token is taken.
  ghost function Final(a: Acc, s: string, tok: Option<nat>, sep: string, limit: nat): seq<string>
    requires a.Valid() && sep != "" && (tok.Some? ==> tok.value <= |s|)
  {
    match tok
    case None => a.split
    case Some(from) => Steps(a, Tokens(s, sep, from), sep, limit).split
  }

  /** One pass of the second loop, from the token at `from`. */
  method NextPiece(split: array<Option<string>>, i: nat, esc: Esc, str: string, from: nat, sep: string, limit: nat,
                   ghost a: Acc)
    returns (j: nat, e: Esc, tok: Option<nat>)
    requires sep != "" && from <= |str| && a.Valid() && esc == a.esc && i == |a.split| && Filling(split, a.split)
    requires |Steps(a, Tokens(str, sep, from), sep, limit).split| < split.Length
    modifies split
    ensures var b := Step(a, TokenOf(str, from, StrStr(str, sep, from)), sep, limit);
            && e == b.esc && j == |b.split| && Filling(split, b.split)
            && (tok.Some? ==> from < tok.value <= |str|)
            && Final(b, str, tok, sep, limit) == Steps(a, Tokens(str, sep, from), sep, limit).split
  {
    var nexttok := StrStr(str, sep, from);
    NextToken(a, str, sep, limit, from);
    j, e := TakeToken(split, i, esc, TokenOf(str, from, nexttok), sep, limit, a);
    tok := if nexttok.Some? then Some(nexttok.value + 1) else None;
  }

  /** The second loop of `obe_split_string`. */
  method TakeTokens(split: array<Option<string>>, str: string, sep: string, limit: nat)
    requires sep != "" && Filling(split, [])
    requires |Steps(Acc([], Null), Tokens(str, sep, 0), sep, limit).split| < split.Length
    modifies split
    ensures Filling(split, Steps(Acc([], Null), Tokens(str, sep, 0), sep, limit).split)
  {
    var i, esc := 0, Null;
    var tok := Some(0);
    ghost var a := Acc([], Null);
    while tok.Some?
      invariant a.Valid() && esc == a.esc && i == |a.split| && Filling(split, a.split)
      invariant tok.Some? ==> tok.value <= |str|
      invariant Final(a, str, tok, sep, limit) == Steps(Acc([], Null), Tokens(str, sep, 0), sep, limit).split
      decreases if tok.Some? then |str| - tok.value + 1 else 0
    {
      ghost var from := tok.value;
      i, esc, tok := NextPiece(split, i, esc, str, tok.value, sep, limit, a);
      a := Step(a, TokenOf(str, from, StrStr(str, sep, from)), sep, limit);
    }
  }

  /** `obe_split_string`: an array of the pieces, ended by a null. */
  method SplitString(s: string, sep: string, limit: nat) returns (split: array<Option<string>>)
    requires sep != "" && (Harmless(sep) || 0 < limit)
    ensures fresh(split) && |Split(s, sep, limit)| < split.Length && Filling(split, Split(s, sep, limit))
  {
    var count := CountSeparators(s, sep);
    if count == 0 {
      NoSeparator(s, sep, limit);
      split := new Option<string>[if s == "" then 1 else 2](_ => None);
      if s != "" { split[0] := Some(s); }
    } else {
      NullTerminatorFits(s, sep, limit);
      split := new Option<string>[(if 0 < limit then limit else count) + 2](_ => None);
      TakeTokens(split, s, sep, limit);
    }
  }
}
