/** The globbing matcher behind source-ID selections: an iterative matcher that remembers only the
    last '*', against the language that a pattern denotes. */
module Glob {

  /** A C string: the terminator is not part of the text. */
  ghost predicate CString(s: string) {
    '\0' !in s
  }

  /** The character a C pointer sees at offset i, the terminator included. */
  function At(s: string, i: nat): char
  {
    if i < |s| then s[i] else '\0'
  }

  // ---------------------------------------------------------------- what a pattern denotes

  datatype ClassItem = One(c: char) | Span(lo: char, hi: char)

  datatype Token =
    | Star
    | AnyChar
    | Literal(lit: char)
    | Class(negated: bool, items: seq<ClassItem>)
    | Malformed

  predicate InItem(it: ClassItem, c: char) {
    match it
    case One(d) => c == d
    case Span(lo, hi) => lo <= c <= hi
  }

  predicate InItems(items: seq<ClassItem>, c: char) {
    items != [] && (InItem(items[0], c) || InItems(items[1..], c))
  }

  /** The single characters a token accepts; a class without its ']' accepts none. */
  predicate Accepts(t: Token, c: char) {
    match t
    case Star => false
    case AnyChar => true
    case Literal(d) => c == d
    case Class(negated, items) => InItems(items, c) != negated
    case Malformed => false
  }

  /** The strings that a token sequence denotes: '*' any string, any other token one character. */
  ghost predicate Denotes(ts: seq<Token>, s: string)
    decreases |ts|
  {
    if ts == [] then s == []
    else if ts[0].Star? then exists k :: 0 <= k <= |s| && Denotes(ts[1..], s[k..])
    else s != [] && Accepts(ts[0], s[0]) && Denotes(ts[1..], s[1..])
  }

  // ---------------------------------------------------------------- how a pattern is read

  /** X-Y with X <= Y, neither end the closing bracket. */
  predicate IsSpan(p: string, i: nat) {
    i + 2 < |p| && p[i + 1] == '-' && p[i + 2] != ']' && p[i] <= p[i + 2]
  }

  /** The items from position i up to the closing ']' (or the end), and where they stop. */
  function ClassItems(p: string, i: nat): (r: (seq<ClassItem>, nat))
    requires i <= |p|
    ensures i <= r.1 <= |p|
    ensures r.1 < |p| ==> p[r.1] == ']'
    decreases |p| - i
  {
    if i == |p| || p[i] == ']' then ([], i)
    else if IsSpan(p, i) then
      var rest := ClassItems(p, i + 3);
      ([Span(p[i], p[i + 2])] + rest.0, rest.1)
    else
      var rest := ClassItems(p, i + 1);
      ([One(p[i])] + rest.0, rest.1)
  }

  predicate Negates(p: string, i: nat) {
    At(p, i) == '^' || At(p, i) == '!'
  }

  /** The class positions after an optional negation mark, and then after an optional literal c. */
  function AfterNegation(p: string, i: nat): nat {
    if Negates(p, i) then i + 1 else i
  }

  function AfterLiteral(p: string, i: nat, c: char): nat {
    if At(p, i) == c then i + 1 else i
  }

  /** Right after the negation mark a ']' and then a '-' are literal. */
  function LeadingItems(p: string, i: nat): seq<ClassItem> {
    (if At(p, i) == ']' then [One(']')] else []) +
    (if At(p, AfterLiteral(p, i, ']')) == '-' then [One('-')] else [])
  }

  /** The class whose text starts at i, just past '[', and the position after it. */
  function ParseClass(p: string, i: nat): (r: (Token, nat))
    requires i <= |p|
    ensures i <= r.1 <= |p|
    ensures r.0.Class? || r.0.Malformed?
  {
    var start := AfterNegation(p, i);
    var (items, end) := ClassItems(p, AfterLiteral(p, AfterLiteral(p, start, ']'), '-'));
    if end == |p| then (Malformed, end)
    else (Class(Negates(p, i), LeadingItems(p, start) + items), end + 1)
  }

  function TokenAt(p: string, i: nat): (r: (Token, nat))
    requires i < |p|
    ensures i < r.1 <= |p|
    ensures r.0.Star? <==> p[i] == '*'
  {
    if p[i] == '*' then (Star, i + 1)
    else if p[i] == '?' then (AnyChar, i + 1)
    else if p[i] == '[' then ParseClass(p, i + 1)
    else if p[i] == '\\' && i + 1 < |p| then (Literal(p[i + 1]), i + 2)
    else (Literal(p[i]), i + 1)
  }

  function Tokens(p: string, i: nat): seq<Token>
    requires i <= |p|
    decreases |p| - i
  {
    if i == |p| then [] else [TokenAt(p, i).0] + Tokens(p, TokenAt(p, i).1)
  }

  /** The text of s from j on is in the language of the pattern from i on. */
  ghost predicate Rest(p: string, i: nat, s: string, j: nat)
    requires i <= |p| && j <= |s|
  {
    Denotes(Tokens(p, i), s[j..])
  }

  /** The pattern from i on matches the text from some position not before from. */
  ghost predicate Later(p: string, i: nat, s: string, from: nat)
    requires i <= |p|
  {
    exists k :: from <= k <= |s| && Rest(p, i, s, k)
  }

  /** Every later match of the pattern from a on carries over, n characters further, to the pattern from b on. */
  ghost predicate Carried(p: string, a: nat, b: nat, s: string, from: nat, n: nat)
    requires a <= |p| && b <= |p|
  {
    forall k :: from <= k <= |s| && Rest(p, a, s, k) ==> k + n <= |s| && Rest(p, b, s, k + n)
  }

  lemma RestStep(p: string, i: nat, s: string, j: nat)
    requires i < |p| && j <= |s| && p[i] != '*'
    ensures Rest(p, i, s, j) <==> j < |s| && Accepts(TokenAt(p, i).0, s[j]) && Rest(p, TokenAt(p, i).1, s, j + 1)
  {
    var ts := Tokens(p, i);
    assert ts[1..] == Tokens(p, TokenAt(p, i).1);
    if j < |s| {
      assert s[j..][0] == s[j] && s[j..][1..] == s[j + 1..];
    }
  }

  lemma RestStar(p: string, i: nat, s: string, j: nat)
    requires i < |p| && j <= |s| && p[i] == '*'
    ensures Rest(p, i, s, j) <==> Later(p, i + 1, s, j)
  {
    var ts := Tokens(p, i);
    assert ts[1..] == Tokens(p, i + 1);
    forall k | 0 <= k <= |s[j..]| ensures s[j..][k..] == s[j + k..] {}
    if Rest(p, i, s, j) {
      var k :| 0 <= k <= |s[j..]| && Denotes(ts[1..], s[j..][k..]);
      assert Rest(p, i + 1, s, j + k);
    }
    if Later(p, i + 1, s, j) {
      var n := i + 1;
      var k :| j <= k <= |s| && Rest(p, n, s, k);
      assert s[j..][k - j..] == s[k..];
      assert Denotes(ts[1..], s[j..][k - j..]);
    }
  }

  /** A run of stars denotes what its last star denotes. */
  lemma {:induction false} StarRun(p: string, i: nat, last: nat, s: string, j: nat)
    requires i <= last < |p| && j <= |s|
    requires forall q :: i <= q <= last ==> p[q] == '*'
    ensures Rest(p, i, s, j) <==> Later(p, last + 1, s, j)
    decreases last - i
  {
    RestStar(p, i, s, j);
    if i < last {
      StarRun(p, i + 1, last, s, j);
      var n := i + 1;
      if k :| j <= k <= |s| && Rest(p, n, s, k) {
        StarRun(p, n, last, s, k);
      }
    }
  }

  // ---------------------------------------------------------------- the matcher

  /** The main loop of _match_charclass: every item from q up to the closing ']' or the end. */
  method MatchItems(p: string, start: nat, c: char, early: bool) returns (matched: bool, q: nat)
    requires start <= |p| && CString(p)
    ensures q == ClassItems(p, start).1
    ensures matched == (early || InItems(ClassItems(p, start).0, c))
  {
    matched, q := early, start;
    while At(p, q) != '\0' && At(p, q) != ']'
      invariant q <= |p| && ClassItems(p, q).1 == ClassItems(p, start).1
      invariant (early || InItems(ClassItems(p, start).0, c)) == (matched || InItems(ClassItems(p, q).0, c))
      decreases |p| - q
    {
      ClassItemsStep(p, q, c);
      var pc := p[q];
      if At(p, q + 1) == '-' && At(p, q + 2) != '\0' && At(p, q + 2) != ']' && pc <= At(p, q + 2) {
        matched := matched || pc <= c <= At(p, q + 2);
        q := q + 3;
      } else {
        matched := matched || c == pc;
        q := q + 1;
      }
    }
  }

  /** _match_charclass: reads the class at i while testing c against its items. */
  method MatchCharClass(p: string, i: nat, c: char) returns (matched: bool, next: nat)
    requires i <= |p| && CString(p)
    ensures next == ParseClass(p, i).1
    ensures matched == Accepts(ParseClass(p, i).0, c)
  {
    hide *;
    ClassStart(p, i);
    var q := i;
    var negate := false;
    matched := false;
    if At(p, q) == '^' || At(p, q) == '!' {
      negate := true;
      q := q + 1;
    }
    ghost var start := q;
    if At(p, q) == ']' {
      matched := c == ']';
      q := q + 1;
    }
    if At(p, q) == '-' {
      matched := matched || c == '-';
      q := q + 1;
    }
    AfterLiteralIs(p, start, ']');
    AfterLiteralIs(p, AfterLiteral(p, start, ']'), '-');
    LeadingItemsTest(p, start, c, ClassItems(p, q).0, matched);
    ClassVerdict(p, i, q, c);
    matched, q := MatchItems(p, q, c, matched);
    AtIs(p, q);
    if At(p, q) != ']' {
      return false, q;
    }
    return if negate then !matched else matched, q + 1;
  }

  lemma ClassStart(p: string, i: nat)
    ensures Negates(p, i) == (At(p, i) == '^' || At(p, i) == '!')
    ensures AfterNegation(p, i) == if Negates(p, i) then i + 1 else i
    ensures i <= |p| ==> AfterNegation(p, i) <= |p|
  {}

  lemma AfterLiteralIs(p: string, i: nat, c: char)
    ensures AfterLiteral(p, i, c) == if At(p, i) == c then i + 1 else i
    ensures i <= |p| && c != '\0' ==> AfterLiteral(p, i, c) <= |p|
  {}

  /** A class is malformed unless its items end at a ']'; it accepts what is, or is not, in its items. */
  lemma ClassVerdict(p: string, i: nat, q: nat, c: char)
    requires i <= |p| && q == AfterLiteral(p, AfterLiteral(p, AfterNegation(p, i), ']'), '-') <= |p|
    ensures var (items, end) := ClassItems(p, q);
            if end == |p| then ParseClass(p, i).1 == end && !Accepts(ParseClass(p, i).0, c)
            else
              && ParseClass(p, i).1 == end + 1
              && Accepts(ParseClass(p, i).0, c)
                 == (InItems(LeadingItems(p, AfterNegation(p, i)) + items, c) != Negates(p, i))
  {
    hide ClassItems, LeadingItems, AfterLiteral, AfterNegation, Negates;
  }

  lemma ClassItemsStep(p: string, q: nat, c: char)
    requires q < |p| && p[q] != ']'
    ensures IsSpan(p, q) ==> ClassItems(p, q).1 == ClassItems(p, q + 3).1
                             && InItems(ClassItems(p, q).0, c)
                                == (p[q] <= c <= p[q + 2] || InItems(ClassItems(p, q + 3).0, c))
    ensures !IsSpan(p, q) ==> ClassItems(p, q).1 == ClassItems(p, q + 1).1
                              && InItems(ClassItems(p, q).0, c) == (c == p[q] || InItems(ClassItems(p, q + 1).0, c))
  {
    var step := if IsSpan(p, q) then 3 else 1;
    assert ClassItems(p, q).0[1..] == ClassItems(p, q + step).0;
  }

  lemma LeadingItemsTest(p: string, start: nat, c: char, items: seq<ClassItem>, early: bool)
    requires early <==> (At(p, start) == ']' && c == ']') || (At(p, AfterLiteral(p, start, ']')) == '-' && c == '-')
    ensures InItems(LeadingItems(p, start) + items, c) <==> early || InItems(items, c)
  {
    var all := LeadingItems(p, start) + items;
    match |LeadingItems(p, start)|
    case 0 => assert all == items;
    case 1 => assert all[1..] == items;
    case _ => assert all[1..][1..] == items;
  }

  /** One pattern token other than '*' against the character at string_. */
  method MatchOne(s: string, string_: nat, p: string, pattern: nat) returns (ok: bool, after: nat)
    requires CString(s) && CString(p) && string_ <= |s| && pattern < |p| && p[pattern] != '*'
    ensures ok == (string_ < |s| && Accepts(TokenAt(p, pattern).0, s[string_]))
    ensures ok ==> after == TokenAt(p, pattern).1
  {
    var c := p[pattern];
    after := pattern + 1;
    if c == '?' {
      ok := At(s, string_) != '\0';
    } else if c == '[' {
      if At(s, string_) == '\0' {
        return false, after;
      }
      ok, after := MatchCharClass(p, after, At(s, string_));
    } else {
      if c == '\\' && At(p, after) != '\0' {
        c := At(p, after);
        after := after + 1;
      }
      ok := At(s, string_) == c;
    }
  }

  /** The literal that must follow a star whose next pattern position is i, if the fast-forward knows one. */
  function NextLiteral(p: string, i: nat): char
  {
    if At(p, i) == '\\' && At(p, i + 1) != '\0' then At(p, i + 1) else At(p, i)
  }

  /** Skip to the next occurrence of the literal after a star: no match is lost. */
  method FastForward(s: string, string_: nat, p: string, i: nat) returns (at: nat)
    requires CString(s) && CString(p) && string_ <= |s| && i < |p| && p[i] != '*'
    ensures string_ <= at <= |s|
    ensures Later(p, i, s, string_) == Later(p, i, s, at)
  {
    at := string_;
    var next := NextLiteral(p, i);
    if next != '?' && next != '[' && next != '*' {
      while At(s, at) != '\0' && At(s, at) != next
        invariant string_ <= at <= |s|
        invariant Later(p, i, s, string_) == Later(p, i, s, at)
        decreases |s| - at
      {
        RestStep(p, i, s, at);
        assert !Rest(p, i, s, at);
        at := at + 1;
      }
    }
  }

  /** What the loop keeps: the verdict depends only on the cursors and on the last star. */
  ghost predicate Tracks(goal: bool, s: string, p: string, pattern: nat, string_: nat, starP: int, starS: nat) {
    && pattern <= |p| && string_ <= |s| && -1 <= starP < pattern && starS <= string_
    && (starP == -1 ==> goal == Rest(p, pattern, s, string_))
    && (starP >= 0 ==>
          && goal == Later(p, starP + 1, s, starS)
          && Rest(p, starP + 1, s, starS) == Rest(p, pattern, s, string_)
          && Carried(p, starP + 1, pattern, s, starS, string_ - starS))
  }

  lemma TracksStart(s: string, p: string)
    ensures Tracks(Denotes(Tokens(p, 0), s), s, p, 0, 0, -1, 0)
  {
    assert s[0..] == s;
  }

  lemma TracksFromStar(goal: bool, s: string, p: string, star: nat, at: nat)
    requires star < |p| && at <= |s| && goal == Later(p, star + 1, s, at)
    ensures Tracks(goal, s, p, star + 1, at, star, at)
  {}

  /** The empty pattern is matched by the empty rest only. */
  lemma RestEnd(s: string, p: string, j: nat)
    requires j <= |s|
    ensures Rest(p, |p|, s, j) <==> j == |s|
  {}

  lemma LaterEnd(s: string, p: string, from: nat)
    requires from <= |s|
    ensures Later(p, |p|, s, from)
  {
    RestEnd(s, p, |s|);
  }

  lemma TracksEnd(goal: bool, s: string, p: string, string_: nat, starP: int, starS: nat)
    requires Tracks(goal, s, p, |p|, string_, starP, starS)
    ensures Rest(p, |p|, s, string_) <==> string_ == |s|
    ensures string_ == |s| ==> goal
  {
    if starP >= 0 && string_ == |s| {
      RestEnd(s, p, string_);
      assert Rest(p, starP + 1, s, starS);
    }
  }

  lemma CarriedToken(p: string, a: nat, b: nat, s: string, from: nat, n: nat)
    requires a <= |p| && b < |p| && p[b] != '*' && Carried(p, a, b, s, from, n)
    ensures Carried(p, a, TokenAt(p, b).1, s, from, n + 1)
  {
    forall k | from <= k <= |s| && Rest(p, a, s, k)
      ensures k + n + 1 <= |s| && Rest(p, TokenAt(p, b).1, s, k + (n + 1))
    {
      RestStep(p, b, s, k + n);
    }
  }

  /** Matching one token moves both cursors and keeps every remembered alternative. */
  lemma TracksToken(goal: bool, s: string, p: string, pattern: nat, string_: nat, starP: int, starS: nat, after: nat)
    requires Tracks(goal, s, p, pattern, string_, starP, starS) && pattern < |p| && p[pattern] != '*'
    requires after == TokenAt(p, pattern).1
    requires string_ < |s| && Accepts(TokenAt(p, pattern).0, s[string_])
    ensures Tracks(goal, s, p, after, string_ + 1, starP, starS)
  {
    hide Rest;
    RestStep(p, pattern, s, string_);
    if starP >= 0 {
      CarriedToken(p, starP + 1, pattern, s, starS, string_ - starS);
    }
  }

  /** Reaching a new star makes the old one superfluous. */
  lemma TracksStar(goal: bool, s: string, p: string, first: nat, last: nat, string_: nat, starP: int, starS: nat)
    requires Tracks(goal, s, p, first, string_, starP, starS)
    requires first <= last < |p| && forall q :: first <= q <= last ==> p[q] == '*'
    ensures goal == Later(p, last + 1, s, string_)
  {
    hide *;
    TracksGives(goal, s, p, first, string_, starP, starS);
    StarRun(p, first, last, s, string_);
    if starP >= 0 {
      OldStar(p, starP + 1, first, last, s, starS, string_ - starS);
      LaterHas(p, starP + 1, s, starS, starS);
    }
  }

  lemma TracksGives(goal: bool, s: string, p: string, pattern: nat, string_: nat, starP: int, starS: nat)
    requires Tracks(goal, s, p, pattern, string_, starP, starS)
    ensures pattern <= |p| && string_ <= |s| && -1 <= starP < pattern && starS <= string_
    ensures starP == -1 ==> goal == Rest(p, pattern, s, string_)
    ensures starP >= 0 ==>
              && goal == Later(p, starP + 1, s, starS)
              && Rest(p, starP + 1, s, starS) == Rest(p, pattern, s, string_)
              && Carried(p, starP + 1, pattern, s, starS, string_ - starS)
  {
    hide Rest, Later, Carried;
  }

  lemma LaterHas(p: string, i: nat, s: string, from: nat, k: nat)
    requires i <= |p| && from <= k <= |s|
    ensures Rest(p, i, s, k) || Later(p, i, s, k) ==> Later(p, i, s, from)
  {
    hide Rest;
  }

  /** Whatever the old star can still match, the new one can. */
  lemma OldStar(p: string, a: nat, first: nat, last: nat, s: string, from: nat, n: nat)
    requires a <= |p| && first <= last < |p| && Carried(p, a, first, s, from, n)
    requires forall q :: first <= q <= last ==> p[q] == '*'
    ensures Later(p, a, s, from) ==> Later(p, last + 1, s, from + n)
  {
    hide Rest;
    if k :| from <= k <= |s| && Rest(p, a, s, k) {
      StarRun(p, first, last, s, k + n);
      LaterHas(p, last + 1, s, from + n, k + n);
    }
  }

  /** A dead end is left by the one star that is remembered, or there is no match at all. */
  lemma TracksDeadEnd(goal: bool, s: string, p: string, pattern: nat, string_: nat, starP: int, starS: nat)
    requires Tracks(goal, s, p, pattern, string_, starP, starS) && !Rest(p, pattern, s, string_)
    ensures starP == -1 || starS == |s| ==> !goal
    ensures starP >= 0 && starS < |s| ==> Tracks(goal, s, p, starP + 1, starS + 1, starP, starS + 1)
  {}

  lemma AtIs(s: string, i: nat)
    requires CString(s)
    ensures i < |s| ==> At(s, i) == s[i] != '\0'
    ensures i >= |s| ==> At(s, i) == '\0'
  {}

  /** The loop that skips consecutive stars, up to the last of them. */
  method LastStar(p: string, first: nat) returns (last: nat)
    requires first < |p| && p[first] == '*'
    ensures first <= last < |p| && At(p, last + 1) != '*' && forall q :: first <= q <= last ==> p[q] == '*'
  {
    last := first;
    while At(p, last + 1) == '*'
      invariant first <= last < |p| && forall q :: first <= q <= last ==> p[q] == '*'
      decreases |p| - last
    {
      last := last + 1;
    }
  }

  /** The branch for a star: it is the one to remember, unless it ends the pattern. */
  method TakeStar(ghost goal: bool, s: string, p: string, pattern: nat, string_: nat,
                  ghost starP: int, ghost starS: nat)
    returns (done: bool, last: nat, at: nat)
    requires CString(s) && CString(p) && pattern < |p| && p[pattern] == '*' && string_ <= |s|
    requires Tracks(goal, s, p, pattern, string_, starP, starS)
    ensures pattern <= last < |p| && at <= |s|
    ensures if done then goal else Tracks(goal, s, p, last + 1, at, last, at)
  {
    hide *;
    at := string_;
    last := LastStar(p, pattern);
    TracksStar(goal, s, p, pattern, last, string_, starP, starS);
    AtIs(p, last + 1);
    if At(p, last + 1) == '\0' {
      LaterEnd(s, p, string_);
      done := true;
    } else {
      done := false;
      at := FastForward(s, string_, p, last + 1);
      TracksFromStar(goal, s, p, last, at);
    }
  }

  /** The branches for any other token, which takes one character or is a dead end. */
  method TakeToken(ghost goal: bool, s: string, p: string, pattern: nat, string_: nat,
                  ghost starP: int, ghost starS: nat)
    returns (ok: bool, after: nat)
    requires CString(s) && CString(p) && pattern < |p| && p[pattern] != '*' && string_ <= |s|
    requires Tracks(goal, s, p, pattern, string_, starP, starS)
    ensures ok ==> pattern < after <= |p| && string_ < |s| && Tracks(goal, s, p, after, string_ + 1, starP, starS)
    ensures !ok ==> !Rest(p, pattern, s, string_)
  {
    hide *;
    ok, after := MatchOne(s, string_, p, pattern);
    if ok {
      TracksToken(goal, s, p, pattern, string_, starP, starS, after);
    } else {
      RestStep(p, pattern, s, string_);
    }
  }

  /** ms_globmatch: true exactly when the string is in the pattern's language. */
  method GlobMatch(s: string, p: string) returns (matches: bool)
    requires CString(s) && CString(p)
    ensures matches <==> Denotes(Tokens(p, 0), s)
  {
    hide *;
    ghost var goal := Denotes(Tokens(p, 0), s);
    TracksStart(s, p);
    var string_: nat, pattern: nat := 0, 0;   // the two cursors
    var starP: int, starS: nat := -1, 0;      // the last '*' and where its continuation was last tried
    while true
      invariant 0 <= pattern <= |p| && 0 <= string_ <= |s| && -1 <= starP < pattern && starS <= string_
      invariant Tracks(goal, s, p, pattern, string_, starP, starS)
      decreases |p| - starP, |s| - starS, |p| - pattern
    {
      var c := At(p, pattern);
      AtIs(p, pattern);
      AtIs(s, string_);
      if c == '\0' {
        TracksEnd(goal, s, p, string_, starP, starS);
        if At(s, string_) == '\0' {
          return true;
        }
      } else if c == '*' {
        var done;
        done, starP, starS := TakeStar(goal, s, p, pattern, string_, starP, starS);
        if done {
          return true;
        }
        string_, pattern := starS, starP + 1;
        continue;
      } else {
        var ok, after := TakeToken(goal, s, p, pattern, string_, starP, starS);
        if ok {
          string_, pattern := string_ + 1, after;
          continue;
        }
      }
      // star_backtrack
      TracksDeadEnd(goal, s, p, pattern, string_, starP, starS);
      AtIs(s, starS);
      if starP == -1 || At(s, starS) == '\0' {
        return false;
      }
      starS := starS + 1;
      string_, pattern := starS, starP + 1;
    }
  }

  // ---------------------------------------------------------------- escaping

  /** Prefix every character with a backslash. */
  function Escape(s: string): string {
    if s == [] then [] else ['\\', s[0]] + Escape(s[1..])
  }

  /** The language of an escaped text is that text alone. */
  lemma {:induction false} EscapeDenotesItself(s: string, t: string)
    ensures Denotes(Tokens(Escape(s), 0), t) <==> t == s
  {
    EscapeTokens(s, [], t);
    assert [] + Escape(s) == Escape(s);
  }

  lemma {:induction false} EscapeTokens(s: string, pre: string, t: string)
    ensures Denotes(Tokens(pre + Escape(s), |pre|), t) <==> t == s
    decreases |s|
  {
    var p := pre + Escape(s);
    if s != [] {
      var pre' := pre + ['\\', s[0]];
      assert p == pre' + Escape(s[1..]);
      assert p[|pre|] == '\\' && p[|pre| + 1] == s[0];
      var ts := Tokens(p, |pre|);
      assert ts[1..] == Tokens(p, |pre'|);
      if t != [] {
        EscapeTokens(s[1..], pre', t[1..]);
        assert t == [t[0]] + t[1..] && s == [s[0]] + s[1..];
      }
    }
  }
}
