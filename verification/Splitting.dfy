/** The pieces `obe_split_string` of obe/obecli.c makes of an option string: two searches for the separator,
    and a loop that joins a token to a piece that ends in a backslash. */
module Splitting {

  datatype Option<T> = None | Some(value: T)

  const BACKSLASH: char := '\\'

  predicate MatchAt(s: string, sep: string, i: nat) {
    i + |sep| <= |s| && forall x :: 0 <= x < |sep| ==> s[i + x] == sep[x]
  }

  // `strstr` from a place on.
  function StrStr(s: string, sep: string, from: nat): (r: Option<nat>)
    requires sep != ""
    ensures r.Some? ==> from <= r.value && r.value + |sep| <= |s| && MatchAt(s, sep, r.value)
    decreases |s| - from
  {
    if from + |sep| > |s| then None else if MatchAt(s, sep, from) then Some(from) else StrStr(s, sep, from + 1)
  }

  // `strrchr`: where a backslash last occurs in `s`.
  function LastBackslash(s: string): (r: Option<nat>)
    ensures r.None? <==> BACKSLASH !in s
    ensures r.Some? ==> r.value < |s| && s[r.value] == BACKSLASH && BACKSLASH !in s[r.value + 1..]
  {
    if s == "" then None
    else if s[|s| - 1] == BACKSLASH then Some(|s| - 1)
    else
      assert s == s[..|s| - 1] + [s[|s| - 1]];
      match LastBackslash(s[..|s| - 1])
      case None => None
      case Some(i) =>
        assert s[i + 1..] == s[..|s| - 1][i + 1..] + [s[|s| - 1]];
        Some(i)
  }

  // What the first loop counts from a place on: matches that do not overlap.
  function SepCount(s: string, sep: string, from: nat): nat
    requires sep != ""
    decreases |s| - from
  {
    match StrStr(s, sep, from)
    case None => 0
    case Some(i) => 1 + SepCount(s, sep, i + |sep|)
  }

  // What the second loop cuts from a place on: every match ends a token and the search goes on one
  // character further.
  function Tokens(s: string, sep: string, from: nat): (r: seq<string>)
    requires sep != "" && from <= |s|
    ensures r != []
    decreases |s| - from
  {
    match StrStr(s, sep, from)
    case None => [s[from..]]
    case Some(i) => [s[from..i]] + Tokens(s, sep, i + 1)
  }

  // The pointer `esc`: null, or the place of a backslash in one of the pieces found so far.
  datatype Esc = Null | At(piece: nat, pos: nat)

  datatype Acc = Acc(split: seq<string>, esc: Esc)
  {
    predicate Valid() {
      esc.At? ==> esc.piece < |split| && esc.pos < |split[esc.piece]|
    }
  }

  function FindEscape(split: seq<string>, piece: nat): Esc
    requires piece < |split|
  {
    match LastBackslash(split[piece])
    case None => Null
    case Some(i) => At(piece, i)
  }

  // `esc[0] = '\0'`
  function Truncate(a: Acc): seq<string>
    requires a.Valid()
  {
    if a.esc.At? then a.split[a.esc.piece := a.split[a.esc.piece][..a.esc.pos]] else a.split
  }

  function JoinLast(a: Acc, sep: string, tok: string): (r: Acc)
    requires a.Valid() && a.split != []
  {
    Acc(AppendLast(Truncate(a), sep, tok), Null)
  }

  function AppendLast(ps: seq<string>, sep: string, tok: string): seq<string>
    requires ps != []
  {
    ps[|ps| - 1 := ps[|ps| - 1] + sep + tok]
  }

  // One pass of the second loop.
  function Step(a: Acc, tok: string, sep: string, limit: nat): (r: Acc)
    requires a.Valid()
    ensures r.Valid() && r.split != []
    ensures |r.split| <= |a.split| + 1
    ensures 0 < limit && |a.split| <= limit ==> |r.split| <= limit
  {
    var k := |a.split|;
    if 0 < limit <= k then JoinLast(a, sep, tok)
    else if k == 0 then Acc([tok], Null)
    else
      var esc := FindEscape(a.split, k - 1);
      if esc.At? && esc.pos + 1 == |a.split[k - 1]|
      then JoinLast(Acc(a.split, esc), sep, tok)
      else Acc(a.split + [tok], esc)
  }

  function Steps(a: Acc, toks: seq<string>, sep: string, limit: nat): (r: Acc)
    requires a.Valid()
    ensures r.Valid()
    ensures |r.split| <= |a.split| + |toks|
    ensures 0 < limit && |a.split| <= limit ==> |r.split| <= limit
    decreases |toks|
  {
    if toks == [] then a else Steps(Step(a, toks[0], sep, limit), toks[1..], sep, limit)
  }

  function Split(s: string, sep: string, limit: nat): seq<string>
    requires sep != ""
  {
    if s == "" then [] else Steps(Acc([], Null), Tokens(s, sep, 0), sep, limit).split
  }

  predicate EndsEscaped(s: string) {
    s != "" && s[|s| - 1] == BACKSLASH
  }

  lemma EscapeAtEnd(split: seq<string>, piece: nat)
    requires piece < |split|
    ensures var e := FindEscape(split, piece);
            (e.At? && e.pos + 1 == |split[piece]| <==> EndsEscaped(split[piece]))
  {
  }

  lemma FirstStep(a: Acc, t: string, toks: seq<string>, sep: string, limit: nat)
    requires a.Valid()
    ensures Steps(a, [t] + toks, sep, limit) == Steps(Step(a, t, sep, limit), toks, sep, limit)
  {
    assert ([t] + toks)[1..] == toks;
  }

  lemma OneStep(a: Acc, t: string, sep: string, limit: nat)
    requires a.Valid()
    ensures Steps(a, [t], sep, limit) == Step(a, t, sep, limit)
  {
  }
}
