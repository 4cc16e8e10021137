/** grep.c's matcher against a declarative meaning of its patterns: literals, `.`, `c*`, a
    leading `^` and a final `$`. Strings are C strings without their terminator. */
module Grep {
  import opened Common

  datatype Atom = Lit(c: char) | Any | Star(c: char)

  /** A pattern: atoms in sequence, and whether the text must end after them. */
  datatype Pattern = Pattern(atoms: seq<Atom>, atEnd: bool)

  /** The pattern a string stands for, with no `^` in front. */
  function Parse(re: CString): Pattern {
    if |re| == 0 then Pattern([], false)
    else if |re| > 1 && re[1] == '*' then Cons(Star(re[0]), Parse(re[2..]))
    else if re == ['$'] then Pattern([], true)
    else Cons(if re[0] == '.' then Any else Lit(re[0]), Parse(re[1..]))
  }

  function Cons(a: Atom, p: Pattern): Pattern {
    Pattern([a] + p.atoms, p.atEnd)
  }

  predicate Fits(c: char, x: char) {
    c == '.' || x == c
  }

  /** The texts one atom stands for. */
  predicate InLanguage(a: Atom, s: seq<char>) {
    match a
    case Lit(c) => s == [c]
    case Any => |s| == 1
    case Star(c) => forall i :: 0 <= i < |s| ==> Fits(c, s[i])
  }

  function Flatten(pieces: seq<seq<char>>): seq<char> {
    if pieces == [] then [] else pieces[0] + Flatten(pieces[1..])
  }

  /** A prefix of text is put together from one piece for each atom, in order. */
  predicate Splits(p: Pattern, text: seq<char>, pieces: seq<seq<char>>) {
    && |pieces| == |p.atoms|
    && (forall i :: 0 <= i < |pieces| ==> InLanguage(p.atoms[i], pieces[i]))
    && Flatten(pieces) <= text
    && (p.atEnd ==> Flatten(pieces) == text)
  }

  /** p matches at the beginning of text. */
  ghost predicate MatchesHere(p: Pattern, text: seq<char>) {
    exists pieces :: Splits(p, text, pieces)
  }

  /** The whole meaning: anchored by `^`, or somewhere in the text. */
  ghost predicate Matches(re: CString, text: seq<char>) {
    if |re| > 0 && re[0] == '^' then MatchesHere(Parse(re[1..]), text)
    else exists k :: 0 <= k <= |text| && MatchesHere(Parse(re), text[k..])
  }

  lemma MatchesNil(p: Pattern, text: seq<char>)
    requires p.atoms == []
    ensures MatchesHere(p, text) <==> !p.atEnd || text == []
  {
    if !p.atEnd || text == [] {
      assert Splits(p, text, []);
    }
  }

  /** A pattern matches when its first atom takes a prefix and the rest matches after it. */
  lemma MatchesCons(a: Atom, p: Pattern, text: seq<char>)
    ensures MatchesHere(Cons(a, p), text) <==>
            exists k :: 0 <= k <= |text| && InLanguage(a, text[..k]) && MatchesHere(p, text[k..])
  {
    if MatchesHere(Cons(a, p), text) {
      var pieces :| Splits(Cons(a, p), text, pieces);
      ConsSplit(a, p, text, pieces);
    }
    if k :| 0 <= k <= |text| && InLanguage(a, text[..k]) && MatchesHere(p, text[k..]) {
      var pieces :| Splits(p, text[k..], pieces);
      ConsJoin(a, p, text, k, pieces);
    }
  }

  lemma ConsSplit(a: Atom, p: Pattern, text: seq<char>, pieces: seq<seq<char>>)
    requires Splits(Cons(a, p), text, pieces)
    ensures var k := |pieces[0]|;
            k <= |text| && InLanguage(a, text[..k]) && MatchesHere(p, text[k..])
  {
    var rest := pieces[1..];
    var k := |pieces[0]|;
    assert Flatten(pieces)[..k] == pieces[0] && Flatten(pieces)[k..] == Flatten(rest);
    assert text[..k] == pieces[0];
    forall i | 0 <= i < |rest|
      ensures InLanguage(p.atoms[i], rest[i])
    {
      assert Cons(a, p).atoms[i + 1] == p.atoms[i] && pieces[i + 1] == rest[i];
    }
    assert Splits(p, text[k..], rest);
  }

  lemma ConsJoin(a: Atom, p: Pattern, text: seq<char>, k: nat, pieces: seq<seq<char>>)
    requires k <= |text| && InLanguage(a, text[..k]) && Splits(p, text[k..], pieces)
    ensures MatchesHere(Cons(a, p), text)
  {
    var all := [text[..k]] + pieces;
    assert all[1..] == pieces;
    assert text == text[..k] + text[k..];
    assert Splits(Cons(a, p), text, all);
  }

  /** matchhere: re at the beginning of text. */
  method MatchHere(re: CString, text: CString) returns (r: bool)
    ensures r <==> MatchesHere(Parse(re), text)
    decreases |re|, 1
  {
    hide MatchesHere;
    if |re| == 0 {
      MatchesNil(Parse(re), text);
      return true;
    }
    if |re| > 1 && re[1] == '*' {
      MatchesCons(Star(re[0]), Parse(re[2..]), text);
      r := MatchStar(re[0], re[2..], text);
      return;
    }
    if re[0] == '$' && |re| == 1 {
      MatchesNil(Parse(re), text);
      return |text| == 0;
    }
    ghost var a := if re[0] == '.' then Any else Lit(re[0]);
    MatchesCons(a, Parse(re[1..]), text);
    if |text| > 0 && (re[0] == '.' || re[0] == text[0]) {
      assert InLanguage(a, text[..1]);
      r := MatchHere(re[1..], text[1..]);
      return;
    }
    return false;
  }

  /** matchstar: c*re at the beginning of text, trying the fewest c first. */
  method MatchStar(c: char, re: CString, text: CString) returns (r: bool)
    ensures r <==> exists k :: 0 <= k <= |text| && InLanguage(Star(c), text[..k]) && MatchesHere(Parse(re), text[k..])
    decreases |re|, 2
  {
    hide MatchesHere;
    var i := 0;
    while true
      invariant 0 <= i <= |text| && InLanguage(Star(c), text[..i])
      invariant forall k :: 0 <= k < i ==> !MatchesHere(Parse(re), text[k..])
      decreases |text| - i
    {
      var m := MatchHere(re, text[i..]);
      if m {
        return true;
      }
      if !(i < |text| && (text[i] == c || c == '.')) {
        break;
      }
      i := i + 1;
    }
    forall k | i < k <= |text|
      ensures !InLanguage(Star(c), text[..k])
    {
      assert text[..k][i] == text[i];
    }
    return false;
  }

  /** match: 1 exactly when the pattern matches, for every pattern and every text. */
  method Match(re: CString, text: CString) returns (r: bool)
    ensures r <==> Matches(re, text)
  {
    hide MatchesHere;
    if |re| > 0 && re[0] == '^' {
      r := MatchHere(re[1..], text);
      return;
    }
    var i := 0;
    while true
      invariant 0 <= i <= |text|
      invariant forall k :: 0 <= k < i ==> !MatchesHere(Parse(re), text[k..])
      decreases |text| - i
    {
      var m := MatchHere(re, text[i..]);
      if m {
        return true;
      }
      if i == |text| {
        return false;
      }
      i := i + 1;
    }
  }

  // ----- What that means for the strings themselves -----

  /** The first k characters of text are all c, or anything if c is `.`. */
  predicate IsRun(c: char, text: seq<char>, k: int) {
    0 <= k <= |text| && forall i :: 0 <= i < k ==> c == '.' || text[i] == c
  }

  /** Nothing matches anything; `$` matches the end; c* takes any run of c; any other character takes itself,
      and `.` whatever there is. */
  lemma HereIs(re: CString, text: seq<char>)
    ensures re == [] ==> MatchesHere(Parse(re), text)
    ensures re == ['$'] ==> (MatchesHere(Parse(re), text) <==> text == [])
    ensures |re| > 1 && re[1] == '*' ==>
              (MatchesHere(Parse(re), text) <==>
               exists k :: IsRun(re[0], text, k) && MatchesHere(Parse(re[2..]), text[k..]))
    ensures |re| > 0 && re != ['$'] && (|re| == 1 || re[1] != '*') ==>
              (MatchesHere(Parse(re), text) <==>
               text != [] && (re[0] == '.' || text[0] == re[0]) && MatchesHere(Parse(re[1..]), text[1..]))
  {
    hide MatchesHere;
    if re == [] || re == ['$'] {
      MatchesNil(Parse(re), text);
    } else if |re| > 1 && re[1] == '*' {
      StarRun(re, text);
    } else {
      OneChar(re, text);
    }
  }

  lemma StarRun(re: CString, text: seq<char>)
    requires |re| > 1 && re[1] == '*'
    ensures MatchesHere(Parse(re), text) <==>
            exists k :: IsRun(re[0], text, k) && MatchesHere(Parse(re[2..]), text[k..])
  {
    ParseStar(re);
    hide *;
    var p := Parse(re[2..]);
    MatchesCons(Star(re[0]), p, text);
    if k :| 0 <= k <= |text| && InLanguage(Star(re[0]), text[..k]) && MatchesHere(p, text[k..]) {
      RunIs(re[0], text, k);
    }
    if k :| IsRun(re[0], text, k) && MatchesHere(p, text[k..]) {
      RunIs(re[0], text, k);
    }
  }

  lemma ParseStar(re: CString)
    requires |re| > 1 && re[1] == '*'
    ensures Parse(re) == Cons(Star(re[0]), Parse(re[2..]))
  {
  }

  lemma RunIs(c: char, text: seq<char>, k: int)
    ensures IsRun(c, text, k) <==> 0 <= k <= |text| && InLanguage(Star(c), text[..k])
  {
  }

  lemma OneChar(re: CString, text: seq<char>)
    requires |re| > 0 && re != ['$'] && (|re| == 1 || re[1] != '*')
    ensures MatchesHere(Parse(re), text) <==>
            text != [] && (re[0] == '.' || text[0] == re[0]) && MatchesHere(Parse(re[1..]), text[1..])
  {
    var a := if re[0] == '.' then Any else Lit(re[0]);
    MatchesCons(a, Parse(re[1..]), text);
    if text != [] {
      assert text[..1] == [text[0]];
    }
    forall k | 0 <= k <= |text| && InLanguage(a, text[..k])
      ensures k == 1
    {
      assert |text[..k]| == 1;
    }
  }

  /** The characters of re, where `.` stands for any, are those of text from k on. */
  predicate SameAt(re: seq<char>, text: seq<char>, k: nat) {
    k + |re| <= |text| && forall j :: 0 <= j < |re| ==> re[j] == '.' || re[j] == text[k + j]
  }

  lemma {:induction false} PlainHere(re: CString, end: bool, text: seq<char>)
    requires forall c :: c in re ==> c != '*' && c != '$' && c != '^'
    ensures MatchesHere(Parse(re + if end then ['$'] else []), text) <==>
            SameAt(re, text, 0) && (end ==> |text| == |re|)
  {
    var all: CString := re + if end then ['$'] else [];
    HereIs(all, text);
    if re != [] {
      assert re[0] in re && (|all| > 1 ==> all[1] == '$' || all[1] in re);
      assert all[1..] == re[1..] + if end then ['$'] else [];
      if text != [] {
        assert forall c :: c in re[1..] ==> c in re;
        PlainHere(re[1..], end, text[1..]);
        assert SameAt(re, text, 0) <==> (re[0] == '.' || re[0] == text[0]) && SameAt(re[1..], text[1..], 0) by {
          assert forall j :: 0 < j < |re| ==> re[j] == re[1..][j - 1];
          assert forall j :: 0 < j < |text| ==> text[j] == text[1..][j - 1];
        }
      }
    }
  }

  /** A pattern of plain characters and dots is found where it stands: anywhere, or at the start after `^`,
      at the end before `$`. */
  lemma PlainMatches(re: CString, start: bool, end: bool, text: seq<char>)
    requires forall c :: c in re ==> c != '*' && c != '$' && c != '^'
    ensures Matches((if start then ['^'] else []) + re + (if end then ['$'] else []), text) <==>
            exists k: nat :: SameAt(re, text, k) && (start ==> k == 0) && (end ==> k + |re| == |text|)
  {
    var tail := re + if end then ['$'] else [];
    var all: CString := (if start then ['^'] else []) + re + (if end then ['$'] else []);
    assert all == (if start then ['^'] else []) + tail;
    if start {
      assert all[1..] == tail;
      PlainHere(re, end, text);
    } else {
      assert all == tail && (all != [] ==> all[0] == '$' || all[0] in re);
      forall k: nat | k <= |text|
        ensures MatchesHere(Parse(tail), text[k..]) <==> SameAt(re, text, k) && (end ==> k + |re| == |text|)
      {
        PlainHere(re, end, text[k..]);
      }
    }
  }
}
