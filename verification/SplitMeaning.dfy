/** What the pieces are: a reading of the option string one character at a time, where a backslash takes a
    separator into a piece. */
module SplitMeaning {
  import opened Splitting

  // How many pieces may follow one of `n`, 0 standing for any number.
  function Allowed(n: nat): nat
    requires n != 1
  {
    if n == 0 then 0 else n - 1
  }

  // An escaped separator is taken without its backslash, any other one ends the piece `cur`; `n` is
  // how many pieces may still be produced (0 for any number), the last of which is taken as it is.
  function Parse(c: char, n: nat, cur: string, s: string): (r: seq<string>)
    requires n != 1
    ensures r != []
    decreases |s|, 0
  {
    if s == "" then [cur]
    else if |s| > 1 && s[0] == BACKSLASH && s[1] == c then Parse(c, n, cur + [c], s[2..])
    else if s[0] == c then [cur] + ParseAll(c, n, s[1..])
    else Parse(c, n, cur + [s[0]], s[1..])
  }

  // After one of `n` pieces.
  function ParseAll(c: char, n: nat, s: string): (r: seq<string>)
    requires n != 1
    ensures r != []
    decreases |s|, 1
  {
    if n == 2 then [s] else Parse(c, Allowed(n), "", s)
  }

  function Pieces(s: string, c: char, limit: nat): seq<string> {
    if s == "" then [] else if limit == 1 then [s] else Parse(c, limit, "", s)
  }

  // `last` has just been ended by a separator, which its final backslash may escape.
  function ParseFrom(c: char, n: nat, last: string, s: string): (r: seq<string>)
    requires n != 1
  {
    if EndsEscaped(last) then Parse(c, n, last[..|last| - 1] + [c], s)
    else [last] + ParseAll(c, n, s)
  }

  // A piece without separators, then a separator or the end.
  lemma {:induction false} ParseToken(c: char, n: nat, cur: string, t: string, s: string)
    requires n != 1 && c != BACKSLASH && c !in t
    requires t == "" ==> !EndsEscaped(cur)
    ensures Parse(c, n, cur, t + [c] + s) == ParseFrom(c, n, cur + t, s)
    decreases |t|
  {
    var u := t + [c] + s;
    if t == "" {
      assert u[0] == c && u[1..] == s && cur + t == cur;
    } else if |t| == 1 && t[0] == BACKSLASH {
      assert u[0] == BACKSLASH && u[1] == c && u[2..] == s;
      assert (cur + t)[..|cur + t| - 1] == cur;
    } else {
      assert u[0] == t[0] && (t[0] != BACKSLASH || u[1] == t[1]);
      assert u[1..] == t[1..] + [c] + s;
      assert cur + [t[0]] + t[1..] == cur + t;
      ParseToken(c, n, cur + [t[0]], t[1..], s);
    }
  }

  lemma {:induction false} ParseLastToken(c: char, n: nat, cur: string, t: string)
    requires n != 1 && c !in t
    ensures Parse(c, n, cur, t) == [cur + t]
    decreases |t|
  {
    if t == "" {
      assert cur + t == cur;
    } else {
      assert cur + [t[0]] + t[1..] == cur + t;
      ParseLastToken(c, n, cur + [t[0]], t[1..]);
    }
  }

  // The first token of a string and what follows it.
  lemma {:induction false} FirstToken(s: string, c: char)
    ensures match StrStr(s, [c], 0)
            case None => c !in s && Tokens(s, [c], 0) == [s]
            case Some(i) =>
              i < |s| && c !in s[..i] && s == s[..i] + [c] + s[i + 1..]
              && Tokens(s, [c], 0) == [s[..i]] + Tokens(s[i + 1..], [c], 0)
  {
    hide MatchAt, StrStr, Tokens;
    FirstMatch(s, c);
    match StrStr(s, [c], 0)
    case None => NoToken(s, [c], 0);
    case Some(i) =>
      OneToken(s, [c], 0, i);
      TokensOfRest(s, s[i + 1..], [c], i + 1, 0);
  }

  lemma {:induction false} FirstMatch(s: string, c: char)
    ensures match StrStr(s, [c], 0)
            case None => c !in s
            case Some(i) => i < |s| && c !in s[..i] && s == s[..i] + [c] + s[i + 1..]
  {
    NextChar(s, c, 0);
    match StrStr(s, [c], 0)
    case None =>
    case Some(i) => CutAt(s, c, i);
  }

  lemma CutAt(s: string, c: char, i: nat)
    requires i < |s| && s[i] == c && forall k :: 0 <= k < i ==> s[k] != c
    ensures c !in s[..i] && s == s[..i] + [c] + s[i + 1..]
  {
  }

  // Searching u, which is s from `from` on, is searching s.
  lemma {:induction false} SearchInRest(s: string, u: string, sep: string, from: nat, k: nat)
    requires sep != "" && from + k <= |s| && u == s[from..]
    ensures StrStr(u, sep, k) == match StrStr(s, sep, from + k) case None => None case Some(i) => Some(i - from)
    decreases |s| - k
  {
    MatchInRest(s, u, sep, from, k);
    if from + k + |sep| <= |s| && !MatchAt(s, sep, from + k) {
      SearchInRest(s, u, sep, from, k + 1);
    }
  }

  lemma MatchInRest(s: string, u: string, sep: string, from: nat, k: nat)
    requires from + k <= |s| && u == s[from..]
    ensures MatchAt(u, sep, k) <==> MatchAt(s, sep, from + k)
  {
    if k + |sep| <= |u| {
      assert forall x {:trigger sep[x]} :: 0 <= x < |sep| ==> u[k + x] == s[from + k + x];
    }
  }

  lemma {:induction false} TokensOfRest(s: string, u: string, sep: string, from: nat, k: nat)
    requires sep != "" && from + k <= |s| && u == s[from..]
    ensures Tokens(u, sep, k) == Tokens(s, sep, from + k)
    decreases |s| - k
  {
    hide MatchAt, StrStr;
    SearchInRest(s, u, sep, from, k);
    match StrStr(s, sep, from + k)
    case None =>
      NoToken(s, sep, from + k);
      NoToken(u, sep, k);
      RestSlices(s, u, from, k, |s|);
    case Some(i) =>
      OneToken(s, sep, from + k, i);
      OneToken(u, sep, k, i - from);
      RestSlices(s, u, from, k, i);
      TokensOfRest(s, u, sep, from, i - from + 1);
  }

  lemma NoToken(s: string, sep: string, from: nat)
    requires sep != "" && from <= |s| && StrStr(s, sep, from) == None
    ensures Tokens(s, sep, from) == [s[from..]]
  {
  }

  lemma OneToken(s: string, sep: string, from: nat, i: nat)
    requires sep != "" && from <= |s| && StrStr(s, sep, from) == Some(i)
    ensures from <= i < |s| && Tokens(s, sep, from) == [s[from..i]] + Tokens(s, sep, i + 1)
  {
  }

  lemma RestSlices(s: string, u: string, from: nat, k: nat, i: nat)
    requires from + k <= i <= |s| && u == s[from..]
    ensures u[k..] == s[from + k..] && u[k..i - from] == s[from + k..i]
  {
  }

  lemma {:induction false} NextChar(s: string, c: char, from: nat)
    ensures match StrStr(s, [c], from)
            case None => forall k :: from <= k < |s| ==> s[k] != c
            case Some(i) => i < |s| && s[i] == c && forall k :: from <= k < i ==> s[k] != c
    decreases |s| - from
  {
    if from < |s| {
      CharAt(s, c, from);
      if s[from] != c { NextChar(s, c, from + 1); }
    }
  }

  lemma CharAt(s: string, c: char, i: nat)
    requires i < |s|
    ensures MatchAt(s, [c], i) <==> s[i] == c
  {
    assert [c][0] == c;
    if MatchAt(s, [c], i) { assert s[i + 0] == [c][0]; }
  }

  lemma AppendTwice(ps: seq<string>, c: char, t: string, s: string)
    requires ps != []
    ensures AppendLast(AppendLast(ps, [c], t), [c], s) == AppendLast(ps, [c], t + [c] + s)
  {
    var last := ps[|ps| - 1];
    assert last + [c] + t + [c] + s == last + [c] + (t + [c] + s);
  }

  // Once the limit is reached the rest of the string is appended as it stands.
  lemma {:induction false} RawTail(a: Acc, s: string, c: char, limit: nat)
    requires a.Valid() && 0 < limit <= |a.split|
    ensures Steps(a, Tokens(s, [c], 0), [c], limit).split == AppendLast(Truncate(a), [c], s)
    decreases |s|
  {
    FirstToken(s, c);
    match StrStr(s, [c], 0)
    case None => OneStep(a, s, [c], limit);
    case Some(i) =>
      FirstStep(a, s[..i], Tokens(s[i + 1..], [c], 0), [c], limit);
      RawTail(JoinLast(a, [c], s[..i]), s[i + 1..], c, limit);
      AppendTwice(Truncate(a), c, s[..i], s[i + 1..]);
  }

  // `esc` left over from an earlier piece is written through when the limit is reached.
  predicate LeftOver(ps: seq<string>, c: char, limit: nat) {
    2 <= limit == |ps| && c in ps[limit - 1] && BACKSLASH in ps[limit - 2]
  }

  function Stale(ps: seq<string>, c: char, limit: nat): seq<string> {
    if LeftOver(ps, c, limit) then ps[limit - 2 := ps[limit - 2][..LastBackslash(ps[limit - 2]).value]] else ps
  }

  function Allowance(limit: nat, k: nat): nat
    requires limit == 0 || k <= limit
  {
    if limit == 0 then 0 else limit - k + 1
  }

  predicate Below(a: Acc, limit: nat) {
    a.Valid() && a.split != [] && (limit == 0 || |a.split| < limit)
  }

  // The pieces a state leads to when `s` is still to be read.
  function Outcome(a: Acc, s: string, c: char, limit: nat): seq<string>
    requires Below(a, limit)
  {
    var k := |a.split|;
    a.split[..k - 1] + ParseFrom(c, Allowance(limit, k), a.split[k - 1], s)
  }

  // The three ways a step goes.
  lemma Joins(a: Acc, t: string, c: char, limit: nat)
    requires Below(a, limit) && EndsEscaped(a.split[|a.split| - 1])
    ensures var last := a.split[|a.split| - 1];
            Step(a, t, [c], limit) == Acc(a.split[..|a.split| - 1] + [last[..|last| - 1] + [c] + t], Null)
  {
    EscapeAtEnd(a.split, |a.split| - 1);
  }

  lemma Pushes(a: Acc, t: string, c: char, limit: nat)
    requires Below(a, limit) && !EndsEscaped(a.split[|a.split| - 1])
    ensures Step(a, t, [c], limit) == Acc(a.split + [t], FindEscape(a.split, |a.split| - 1))
  {
    EscapeAtEnd(a.split, |a.split| - 1);
  }

  lemma OutcomePushed(a: Acc, s: string, c: char, limit: nat)
    requires Below(a, limit) && !EndsEscaped(a.split[|a.split| - 1])
    ensures Outcome(a, s, c, limit) == a.split + ParseAll(c, Allowance(limit, |a.split|), s)
  {
    var k := |a.split|;
    assert a.split[..k - 1] + [a.split[k - 1]] == a.split;
  }

  lemma LastStep(a: Acc, s: string, c: char, limit: nat)
    requires Below(a, limit) && c != BACKSLASH && c !in s
    ensures Step(a, s, [c], limit).split == Stale(Outcome(a, s, c, limit), c, limit)
  {
    var k, n := |a.split|, Allowance(limit, |a.split|);
    var last := a.split[k - 1];
    if EndsEscaped(last) {
      Joins(a, s, c, limit);
      ParseLastToken(c, n, last[..|last| - 1] + [c], s);
    } else {
      Pushes(a, s, c, limit);
      OutcomePushed(a, s, c, limit);
      if n != 2 {
        ParseLastToken(c, Allowed(n), "", s);
        assert "" + s == s;
      }
    }
  }

  lemma JoinStep(a: Acc, t: string, s: string, c: char, limit: nat)
    requires Below(a, limit) && c != BACKSLASH && c !in t && EndsEscaped(a.split[|a.split| - 1])
    ensures var b := Step(a, t, [c], limit);
            Below(b, limit) && Outcome(b, s, c, limit) == Outcome(a, t + [c] + s, c, limit)
  {
    var k, n := |a.split|, Allowance(limit, |a.split|);
    var last := a.split[k - 1];
    Joins(a, t, c, limit);
    ParseToken(c, n, last[..|last| - 1] + [c], t, s);
  }

  lemma PushStep(a: Acc, t: string, s: string, c: char, limit: nat)
    requires Below(a, limit) && c != BACKSLASH && c !in t && !EndsEscaped(a.split[|a.split| - 1])
    requires limit != |a.split| + 1
    ensures var b := Step(a, t, [c], limit);
            Below(b, limit) && Outcome(b, s, c, limit) == Outcome(a, t + [c] + s, c, limit)
  {
    var k, n := |a.split|, Allowance(limit, |a.split|);
    Pushes(a, t, c, limit);
    OutcomePushed(a, t + [c] + s, c, limit);
    ParseToken(c, Allowed(n), "", t, s);
    assert "" + t == t;
    assert (a.split + [t])[..k] == a.split;
  }

  lemma LimitStep(a: Acc, t: string, s: string, c: char, limit: nat)
    requires Below(a, limit) && c != BACKSLASH && !EndsEscaped(a.split[|a.split| - 1])
    requires limit == |a.split| + 1
    ensures var b := Step(a, t, [c], limit);
            Steps(b, Tokens(s, [c], 0), [c], limit).split == Stale(Outcome(a, t + [c] + s, c, limit), c, limit)
  {
    var b := Step(a, t, [c], limit);
    Pushes(a, t, c, limit);
    RawTail(b, s, c, limit);
    var u := t + [c] + s;
    assert u[|t|] == c;
    OutcomePushed(a, u, c, limit);
    StaleJoin(a.split, t, c, s, limit);
  }

  lemma StaleJoin(ps: seq<string>, t: string, c: char, s: string, limit: nat)
    requires ps != [] && limit == |ps| + 1
    ensures AppendLast(Truncate(Acc(ps + [t], FindEscape(ps, |ps| - 1))), [c], s) == Stale(ps + [t + [c] + s], c, limit)
  {
    var k := |ps|;
    var e := FindEscape(ps, k - 1);
    var u := t + [c] + s;
    assert u[|t|] == c;
    if e.At? {
      var cut := ps[k - 1][..e.pos];
      assert Truncate(Acc(ps + [t], e)) == ps[k - 1 := cut] + [t];
      assert Stale(ps + [u], c, limit) == ps[k - 1 := cut] + [u];
    }
  }

  lemma {:induction false} StepsParse(a: Acc, s: string, c: char, limit: nat)
    requires Below(a, limit) && c != BACKSLASH
    ensures Steps(a, Tokens(s, [c], 0), [c], limit).split == Stale(Outcome(a, s, c, limit), c, limit)
    decreases |s|
  {
    FirstToken(s, c);
    match StrStr(s, [c], 0)
    case None =>
      OneStep(a, s, [c], limit);
      LastStep(a, s, c, limit);
    case Some(i) =>
      var t, rest := s[..i], s[i + 1..];
      FirstStep(a, t, Tokens(rest, [c], 0), [c], limit);
      if EndsEscaped(a.split[|a.split| - 1]) {
        JoinStep(a, t, rest, c, limit);
        StepsParse(Step(a, t, [c], limit), rest, c, limit);
      } else if limit == |a.split| + 1 {
        LimitStep(a, t, rest, c, limit);
      } else {
        PushStep(a, t, rest, c, limit);
        StepsParse(Step(a, t, [c], limit), rest, c, limit);
      }
  }

  lemma FirstPush(t: string, s: string, c: char, limit: nat)
    requires c != BACKSLASH && c !in t && limit != 1
    ensures Steps(Acc([t], Null), Tokens(s, [c], 0), [c], limit).split
         == Stale(Parse(c, limit, "", t + [c] + s), c, limit)
  {
    var b := Acc([t], Null);
    StepsParse(b, s, c, limit);
    ParseToken(c, limit, "", t, s);
    assert "" + t == t;
    assert Outcome(b, s, c, limit) == ParseFrom(c, limit, t, s);
  }

  /** What the splitter returns, for every string and limit: the pieces between unescaped separators,
      up to what the left-over pointer cuts off. */
  lemma SplitIsParse(s: string, c: char, limit: nat)
    requires c != BACKSLASH
    ensures Split(s, [c], limit) == Stale(Pieces(s, c, limit), c, limit)
  {
    if s != "" {
      var a := Acc([], Null);
      FirstToken(s, c);
      match StrStr(s, [c], 0)
      case None =>
        OneStep(a, s, [c], limit);
        if limit != 1 { ParseLastToken(c, limit, "", s); }
        assert "" + s == s;
      case Some(i) =>
        FirstStep(a, s[..i], Tokens(s[i + 1..], [c], 0), [c], limit);
        if limit == 1 {
          RawTail(Acc([s[..i]], Null), s[i + 1..], c, limit);
        } else {
          FirstPush(s[..i], s[i + 1..], c, limit);
        }
    }
  }

  /** The splitter cuts exactly at the unescaped separators, up to its limit, unless the pieces reach
      the limit, the last one holds a separator and the one before it a backslash. */
  lemma SplitExactIff(s: string, c: char, limit: nat)
    requires c != BACKSLASH
    ensures Split(s, [c], limit) == Pieces(s, c, limit) <==> !LeftOver(Pieces(s, c, limit), c, limit)
  {
    SplitIsParse(s, c, limit);
    var ps := Pieces(s, c, limit);
    if LeftOver(ps, c, limit) {
      assert |Stale(ps, c, limit)[limit - 2]| < |ps[limit - 2]|;
    }
  }

  /** A named option, for every key that is one piece and every value: the value is kept whole, and so
      is the key unless it holds a backslash and the value a separator. */
  lemma KeyedOption(key: string, value: string, c: char)
    requires c != BACKSLASH && c !in key && !EndsEscaped(key)
    ensures Split(key + [c] + value, [c], 2) ==
            [if BACKSLASH in key && c in value then key[..LastBackslash(key).value] else key, value]
  {
    ParseToken(c, 2, "", key, value);
    assert "" + key == key;
    SplitIsParse(key + [c] + value, c, 2);
  }

  /** Such a key: it loses what follows its backslash. */
  lemma KeyCutShort()
    ensures Split("a\\b" + [','] + "c,d", [','], 2) == ["a", "c,d"]
  {
    var key := "a\\b";
    assert key[1] == BACKSLASH && "c,d"[1] == ',';
    assert key[..1] == "a";
    KeyedOption(key, "c,d", ',');
  }

  // ----- Escaped joining

  function Escaped(p: string, c: char): string {
    if p == "" then "" else (if p[0] == c then [BACKSLASH, c] else [p[0]]) + Escaped(p[1..], c)
  }

  function EscapedJoin(ps: seq<string>, c: char): string {
    if ps == [] then ""
    else if |ps| == 1 then Escaped(ps[0], c)
    else Escaped(ps[0], c) + [c] + EscapedJoin(ps[1..], c)
  }

  lemma EscapedSeparator(p: string, c: char, rest: string)
    requires p != "" && c != BACKSLASH && p[0] == c
    ensures var u := Escaped(p, c) + rest;
            |u| > 1 && u[0] == BACKSLASH && u[1] == c && u[2..] == Escaped(p[1..], c) + rest
  {
    assert [BACKSLASH, c] + Escaped(p[1..], c) + rest == [BACKSLASH, c] + (Escaped(p[1..], c) + rest);
  }

  lemma EscapedOther(p: string, c: char, rest: string)
    requires p != "" && p[0] != c
    ensures var u := Escaped(p, c) + rest;
            |u| > 0 && u[0] == p[0] && u[1..] == Escaped(p[1..], c) + rest
  {
    assert [p[0]] + Escaped(p[1..], c) + rest == [p[0]] + (Escaped(p[1..], c) + rest);
  }

  // Reading an escaped piece up to its separator; only its own final backslash can spoil it.
  lemma {:induction false} ParseEscaped(c: char, cur: string, p: string, rest: string)
    requires c != BACKSLASH
    ensures var u := Escaped(p, c) + [c] + rest;
            Parse(c, 0, cur, u) == if EndsEscaped(p) then Parse(c, 0, cur + p[..|p| - 1] + [c], rest)
                                   else [cur + p] + Parse(c, 0, "", rest)
    decreases |p|
  {
    var u := Escaped(p, c) + [c] + rest;
    if p == "" {
      assert u == [c] + rest && u[1..] == rest && cur + p == cur;
    } else if p == [BACKSLASH] {
      EscapedAlone(c);
      assert u[0] == BACKSLASH && u[1] == c && u[2..] == rest;
      assert cur + p[..0] == cur;
    } else {
      assert u == Escaped(p, c) + ([c] + rest);
      if p[0] == c { EscapedSeparator(p, c, [c] + rest); } else { EscapedOther(p, c, [c] + rest); }
      assert Escaped(p[1..], c) + ([c] + rest) == Escaped(p[1..], c) + [c] + rest;
      if |p| > 1 { EscapedFirst(p, c); }
      ParseEscaped(c, cur + [p[0]], p[1..], rest);
      assert cur + [p[0]] + p[1..] == cur + p;
      if EndsEscaped(p) && |p| > 1 {
        assert cur + [p[0]] + p[1..][..|p| - 2] == cur + p[..|p| - 1];
      }
    }
  }

  lemma EscapedAlone(c: char)
    requires c != BACKSLASH
    ensures Escaped([BACKSLASH], c) == [BACKSLASH]
  {
    assert Escaped([BACKSLASH][1..], c) == "";
  }

  // No escaped text begins with the separator.
  lemma EscapedFirst(p: string, c: char)
    requires c != BACKSLASH && |p| > 1
    ensures Escaped(p[1..], c) != "" && Escaped(p[1..], c)[0] != c
  {
  }

  lemma {:induction false} ParseEscapedLast(c: char, cur: string, p: string)
    requires c != BACKSLASH
    ensures Parse(c, 0, cur, Escaped(p, c)) == [cur + p]
    decreases |p|
  {
    if p == "" {
      assert cur + p == cur;
    } else {
      var u := Escaped(p, c);
      assert u + "" == u && Escaped(p[1..], c) + "" == Escaped(p[1..], c);
      if p[0] == c { EscapedSeparator(p, c, ""); } else { EscapedOther(p, c, ""); }
      if |p| > 1 { EscapedFirst(p, c); }
      ParseEscapedLast(c, cur + [p[0]], p[1..]);
      assert cur + [p[0]] + p[1..] == cur + p;
    }
  }

  predicate NoneEscapes(ps: seq<string>) {
    forall i :: 0 <= i < |ps| - 1 ==> !EndsEscaped(ps[i])
  }

  lemma {:induction false} ParseJoined(c: char, cur: string, ps: seq<string>)
    requires c != BACKSLASH && ps != []
    ensures var r := Parse(c, 0, cur, EscapedJoin(ps, c));
            && |r| <= |ps|
            && (NoneEscapes(ps) ==> r == [cur + ps[0]] + ps[1..])
            && (!NoneEscapes(ps) ==> |r| < |ps|)
    decreases |ps|
  {
    if |ps| == 1 {
      ParseEscapedLast(c, cur, ps[0]);
    } else {
      var p, rest := ps[0], ps[1..];
      ParseEscaped(c, cur, p, EscapedJoin(rest, c));
      assert NoneEscapes(ps) <==> !EndsEscaped(p) && NoneEscapes(rest) by {
        assert forall i :: 0 <= i < |rest| ==> rest[i] == ps[i + 1];
        if !EndsEscaped(p) && NoneEscapes(rest) {
          forall i | 0 <= i < |ps| - 1 ensures !EndsEscaped(ps[i]) {
            if i > 0 { assert rest[i - 1] == ps[i]; }
          }
        }
      }
      if EndsEscaped(p) {
        ParseJoined(c, cur + p[..|p| - 1] + [c], rest);
      } else {
        ParseJoined(c, "", rest);
        assert "" + rest[0] == rest[0];
        assert [rest[0]] + rest[1..] == rest;
      }
    }
  }

  lemma {:induction false} EscapedJoinEmpty(ps: seq<string>, c: char)
    ensures EscapedJoin(ps, c) == "" <==> ps == [] || ps == [""]
  {
  }

  /** Escaped joining is undone for all pieces, exactly unless they are one empty piece or one but the
      last ends in a backslash. */
  lemma EscapedJoinSplits(ps: seq<string>, c: char)
    requires c != BACKSLASH
    ensures Split(EscapedJoin(ps, c), [c], 0) == ps <==> ps != [""] && NoneEscapes(ps)
  {
    EscapedJoinEmpty(ps, c);
    if ps != [] && ps != [""] {
      SplitIsParse(EscapedJoin(ps, c), c, 0);
      ParseJoined(c, "", ps);
      assert "" + ps[0] == ps[0];
      assert [ps[0]] + ps[1..] == ps;
    }
  }

  // ----- Strings without backslashes

  function Join(ps: seq<string>, c: char): string
    requires ps != []
  {
    if |ps| == 1 then ps[0] else ps[0] + [c] + Join(ps[1..], c)
  }

  // All pieces but the last hold no separator, and the last holds one only if no more may be produced.
  predicate CutAtFirst(ps: seq<string>, c: char, n: nat) {
    && ps != []
    && (n > 0 ==> |ps| <= n)
    && (forall i :: 0 <= i < |ps| - 1 ==> c !in ps[i])
    && (|ps| != n ==> c !in ps[|ps| - 1])
  }

  lemma CutCons(p: string, ps: seq<string>, c: char, n: nat)
    requires n != 1 && c !in p && CutAtFirst(ps, c, Allowed(n))
    ensures CutAtFirst([p] + ps, c, n) && Join([p] + ps, c) == p + [c] + Join(ps, c)
  {
    var qs := [p] + ps;
    assert qs[1..] == ps && forall i :: 1 <= i < |qs| ==> qs[i] == ps[i - 1];
  }

  lemma {:induction false} ParsePlain(c: char, n: nat, cur: string, s: string)
    requires n != 1 && c != BACKSLASH && BACKSLASH !in s && c !in cur
    ensures CutAtFirst(Parse(c, n, cur, s), c, n) && Join(Parse(c, n, cur, s), c) == cur + s
    decreases |s|
  {
    if s == "" {
      assert cur + s == cur;
    } else if s[0] == c {
      var m := Allowed(n);
      var rest := ParseAll(c, n, s[1..]);
      if n != 2 {
        ParsePlain(c, m, "", s[1..]);
        assert "" + s[1..] == s[1..];
      }
      assert CutAtFirst(rest, c, m) && Join(rest, c) == s[1..];
      CutCons(cur, rest, c, n);
      assert cur + [c] + s[1..] == cur + s;
    } else {
      ParsePlain(c, n, cur + [s[0]], s[1..]);
      assert cur + [s[0]] + s[1..] == cur + s;
    }
  }

  /** Without backslashes a limit cuts at the first separators only; joining gives the string back. */
  lemma PlainSplit(s: string, c: char, limit: nat)
    requires c != BACKSLASH && BACKSLASH !in s && s != ""
    ensures var r := Split(s, [c], limit); CutAtFirst(r, c, limit) && Join(r, c) == s
  {
    SplitIsParse(s, c, limit);
    if limit != 1 {
      ParsePlain(c, limit, "", s);
      assert "" + s == s;
    }
    var ps := Pieces(s, c, limit);
    if LeftOver(ps, c, limit) { JoinHolds(ps, c, limit - 2, BACKSLASH); }
  }

  lemma {:induction false} JoinHolds(ps: seq<string>, c: char, i: nat, x: char)
    requires i < |ps| && x in ps[i]
    ensures x in Join(ps, c)
    decreases |ps|
  {
    if i > 0 { JoinHolds(ps[1..], c, i - 1, x); }
  }
}
