/** The language of glob patterns by the text of the pattern. */
module GlobLaws {
  import opened Glob

  /** The pattern matches the string, as GlobMatch decides. */
  ghost predicate Matches(p: string, s: string) {
    Denotes(Tokens(p, 0), s)
  }

  // ---------------------------------------------------------------- a pattern after other text

  lemma AtShift(q: string, p: string, i: nat)
    ensures At(q + p, |q| + i) == At(p, i)
  {}

  lemma {:induction false} ItemsShift(q: string, p: string, i: nat)
    requires i <= |p|
    ensures ClassItems(q + p, |q| + i).0 == ClassItems(p, i).0
            && ClassItems(q + p, |q| + i).1 == |q| + ClassItems(p, i).1
    decreases |p| - i
  {
    var n := |q|;
    if i < |p| && p[i] != ']' {
      assert (q + p)[n + i] == p[i] && IsSpan(q + p, n + i) == IsSpan(p, i);
      if IsSpan(p, i) {
        assert (q + p)[n + i + 2] == p[i + 2];
        ItemsShift(q, p, i + 3);
      } else {
        ItemsShift(q, p, i + 1);
      }
    }
  }

  lemma LiteralShift(q: string, p: string, i: nat, c: char)
    ensures AfterLiteral(q + p, |q| + i, c) == |q| + AfterLiteral(p, i, c)
  {
    AtShift(q, p, i);
    hide At;
  }

  lemma MarkShift(q: string, p: string, i: nat)
    ensures Negates(q + p, |q| + i) == Negates(p, i) && AfterNegation(q + p, |q| + i) == |q| + AfterNegation(p, i)
  {
    AtShift(q, p, i);
    hide At;
  }

  lemma LeadShift(q: string, p: string, i: nat)
    ensures LeadingItems(q + p, |q| + i) == LeadingItems(p, i)
  {
    AtShift(q, p, i);
    LiteralShift(q, p, i, ']');
    AtShift(q, p, AfterLiteral(p, i, ']'));
    hide At, AfterLiteral;
  }

  /** Where the items of a class begin. */
  function ItemsStart(p: string, i: nat): nat {
    AfterLiteral(p, AfterLiteral(p, AfterNegation(p, i), ']'), '-')
  }

  lemma StartWithin(p: string, i: nat)
    ensures i <= |p| ==> ItemsStart(p, i) <= |p|
  {}

  lemma ParseOf(p: string, i: nat)
    requires i <= |p|
    ensures ItemsStart(p, i) <= |p|
    ensures var (items, end) := ClassItems(p, ItemsStart(p, i));
            ParseClass(p, i) == if end == |p| then (Malformed, end)
                                else (Class(Negates(p, i), LeadingItems(p, AfterNegation(p, i)) + items), end + 1)
  {
    StartWithin(p, i);
    hide ClassItems, LeadingItems, AfterLiteral, AfterNegation, Negates;
  }

  lemma ClassShift(q: string, p: string, i: nat)
    requires i <= |p|
    ensures ParseClass(q + p, |q| + i).0 == ParseClass(p, i).0
            && ParseClass(q + p, |q| + i).1 == |q| + ParseClass(p, i).1
  {
    hide *;
    ParseOf(p, i);
    ParseOf(q + p, |q| + i);
    StartShift(q, p, i);
    MarkShift(q, p, i);
    LeadShift(q, p, AfterNegation(p, i));
    ItemsShift(q, p, ItemsStart(p, i));
  }

  lemma StartShift(q: string, p: string, i: nat)
    ensures ItemsStart(q + p, |q| + i) == |q| + ItemsStart(p, i)
  {
    MarkShift(q, p, i);
    var k := AfterNegation(p, i);
    LiteralShift(q, p, k, ']');
    LiteralShift(q, p, AfterLiteral(p, k, ']'), '-');
    hide AfterNegation, AfterLiteral;
  }

  lemma TokenShift(q: string, p: string, i: nat)
    requires i < |p|
    ensures TokenAt(q + p, |q| + i).0 == TokenAt(p, i).0 && TokenAt(q + p, |q| + i).1 == |q| + TokenAt(p, i).1
  {
    ClassShift(q, p, i + 1);
    hide ParseClass;
    assert (q + p)[|q| + i] == p[i] && (i + 1 < |p| ==> (q + p)[|q| + i + 1] == p[i + 1]);
  }

  /** The tokens of a pattern are the same after other text. */
  lemma {:induction false} TokensShift(q: string, p: string, i: nat)
    requires i <= |p|
    ensures Tokens(q + p, |q| + i) == Tokens(p, i)
    decreases |p| - i
  {
    hide TokenAt;
    if i < |p| {
      TokenShift(q, p, i);
      TokensShift(q, p, TokenAt(p, i).1);
    }
  }

  /** A pattern is its first token and the pattern that follows it. */
  lemma FirstToken(q: string, p: string)
    requires q != [] && TokenAt(q + p, 0).1 == |q|
    ensures Tokens(q + p, 0) == [TokenAt(q + p, 0).0] + Tokens(p, 0)
  {
    TokensShift(q, p, 0);
    hide TokenAt;
  }

  lemma MatchesFirst(q: string, p: string, s: string)
    requires q != [] && TokenAt(q + p, 0).1 == |q| && !TokenAt(q + p, 0).0.Star?
    ensures Matches(q + p, s) <==> s != [] && Accepts(TokenAt(q + p, 0).0, s[0]) && Matches(p, s[1..])
  {
    FirstToken(q, p);
    hide TokenAt, Accepts, Tokens;
    var ts := [TokenAt(q + p, 0).0] + Tokens(p, 0);
    assert ts[1..] == Tokens(p, 0);
  }

  // ---------------------------------------------------------------- single characters

  /** The empty pattern matches the empty string alone. */
  lemma Nothing(s: string)
    ensures Matches([], s) <==> s == []
  {}

  /** '?' matches any one character. */
  lemma Question(p: string, s: string)
    ensures Matches(['?'] + p, s) <==> s != [] && Matches(p, s[1..])
  {
    MatchesFirst(['?'], p, s);
    hide Matches;
  }

  /** A character that is not special matches itself. */
  lemma Ordinary(c: char, p: string, s: string)
    requires c != '*' && c != '?' && c != '[' && c != '\\'
    ensures Matches([c] + p, s) <==> s != [] && s[0] == c && Matches(p, s[1..])
  {
    MatchesFirst([c], p, s);
    hide Matches;
  }

  /** So does any character after a backslash, and a backslash that ends the pattern. */
  lemma Escaped(c: char, p: string, s: string)
    ensures Matches(['\\', c] + p, s) <==> s != [] && s[0] == c && Matches(p, s[1..])
    ensures Matches(['\\'], s) <==> s == ['\\']
  {
    MatchesFirst(['\\', c], p, s);
    assert ['\\'] + [] == ['\\'];
    MatchesFirst(['\\'], [], s);
    if s != [] {
      Nothing(s[1..]);
    }
    hide Matches;
  }

  /** '*' matches any text, and the rest of the pattern what follows it. */
  lemma Asterisk(p: string, s: string)
    ensures Matches(['*'] + p, s) <==> exists k :: 0 <= k <= |s| && Matches(p, s[k..])
  {
    FirstToken(['*'], p);
    hide Tokens;
    var ts := [Star] + Tokens(p, 0);
    assert ts[1..] == Tokens(p, 0);
    if Matches(['*'] + p, s) {
      var k :| 0 <= k <= |s| && Denotes(ts[1..], s[k..]);
      assert Matches(p, s[k..]);
    }
    if k :| 0 <= k <= |s| && Matches(p, s[k..]) {
      assert Denotes(ts[1..], s[k..]);
    }
  }

  // ---------------------------------------------------------------- classes

  /** A character or a range as it is written in a class. */
  function Text(it: ClassItem): string {
    match it
    case One(c) => [c]
    case Span(lo, hi) => [lo, '-', hi]
  }

  function Texts(items: seq<ClassItem>): string {
    if items == [] then [] else Text(items[0]) + Texts(items[1..])
  }

  predicate Plain(c: char) {
    c != ']' && c != '-'
  }

  /** Without brackets and dashes of its own. */
  predicate Written(it: ClassItem) {
    match it
    case One(c) => Plain(c)
    case Span(lo, hi) => Plain(lo) && Plain(hi) && lo <= hi
  }

  /** The character, or one in the range. */
  predicate Has(it: ClassItem, c: char) {
    match it
    case One(d) => c == d
    case Span(lo, hi) => lo <= c && c <= hi
  }

  ghost predicate Among(items: seq<ClassItem>, c: char) {
    exists i :: 0 <= i < |items| && Has(items[i], c)
  }

  lemma {:induction false} AmongIs(items: seq<ClassItem>, c: char)
    ensures InItems(items, c) <==> Among(items, c)
  {
    if items != [] {
      AmongIs(items[1..], c);
      var rest := items[1..];
      if Among(rest, c) {
        var i :| 0 <= i < |rest| && Has(rest[i], c);
        assert items[i + 1] == rest[i];
      }
      if Among(items, c) && !InItem(items[0], c) {
        var i :| 0 <= i < |items| && Has(items[i], c);
        assert i > 0 && items[1..][i - 1] == items[i];
      }
    }
  }

  lemma TextsPlain(items: seq<ClassItem>)
    requires forall i :: 0 <= i < |items| ==> Written(items[i])
    ensures items != [] ==> Texts(items) != [] && Plain(Texts(items)[0])
  {}

  lemma ItemStep(t: string)
    requires t != [] && t[0] != ']'
    ensures IsSpan(t, 0) ==> |t| >= 3
    ensures IsSpan(t, 0) ==> ClassItems(t, 0) == ([Span(t[0], t[2])] + ClassItems(t, 3).0, ClassItems(t, 3).1)
    ensures !IsSpan(t, 0) ==> ClassItems(t, 0) == ([One(t[0])] + ClassItems(t, 1).0, ClassItems(t, 1).1)
  {}

  lemma OneFirst(c: char, tail: string)
    requires Plain(c) && tail != [] && tail[0] != '-'
    ensures ClassItems([c] + tail, 0) == ([One(c)] + ClassItems(tail, 0).0, 1 + ClassItems(tail, 0).1)
  {
    hide *;
    ItemsShift([c], tail, 0);
    OneText(c, tail);
    ItemStep([c] + tail);
  }

  lemma OneText(c: char, tail: string)
    requires Plain(c) && tail != [] && tail[0] != '-'
    ensures ([c] + tail)[0] == c != ']' && !IsSpan([c] + tail, 0)
  {
    assert ([c] + tail)[1] == tail[0];
  }

  lemma SpanText(lo: char, hi: char, tail: string)
    requires Plain(lo) && Plain(hi) && lo <= hi
    ensures var t := [lo, '-', hi] + tail; t[0] == lo != ']' && t[2] == hi && IsSpan(t, 0)
  {
    var t := [lo, '-', hi] + tail;
    assert t[0] == lo && t[1] == '-' && t[2] == hi;
  }

  lemma SpanFirst(lo: char, hi: char, tail: string)
    requires Plain(lo) && Plain(hi) && lo <= hi
    ensures ClassItems([lo, '-', hi] + tail, 0) == ([Span(lo, hi)] + ClassItems(tail, 0).0, 3 + ClassItems(tail, 0).1)
  {
    hide *;
    ItemsShift([lo, '-', hi], tail, 0);
    SpanText(lo, hi, tail);
    ItemStep([lo, '-', hi] + tail);
  }

  lemma ItemFirst(it: ClassItem, tail: string)
    requires Written(it) && tail != [] && tail[0] != '-'
    ensures ClassItems(Text(it) + tail, 0) == ([it] + ClassItems(tail, 0).0, |Text(it)| + ClassItems(tail, 0).1)
  {
    match it {
      case One(c) => OneFirst(c, tail);
      case Span(lo, hi) => SpanFirst(lo, hi, tail);
    }
    hide ClassItems, Plain;
  }

  /** The items written are the items read. */
  lemma {:induction false} ItemsRead(items: seq<ClassItem>, rest: string)
    requires forall i :: 0 <= i < |items| ==> Written(items[i])
    ensures ClassItems(Texts(items) + ([']'] + rest), 0) == (items, |Texts(items)|)
    decreases |items|
  {
    hide *;
    var close := [']'] + rest;
    TextsFirst(items);
    if items == [] {
      assert Texts(items) + close == close;
      ItemsEnd(close);
    } else {
      var more := items[1..];
      var tail := Texts(more) + close;
      ThreeTexts(Text(items[0]), Texts(more), close);
      ItemsRead(more, rest);
      TextsPlain(more);
      TextsFirst(more);
      TailStarts(Texts(more), rest);
      ItemFirst(items[0], tail);
      assert [items[0]] + more == items;
    }
  }

  lemma ThreeTexts(a: string, b: string, c: string)
    ensures a + b + c == a + (b + c)
  {}

  lemma TailStarts(text: string, rest: string)
    requires text == [] || Plain(text[0])
    ensures var tail := text + ([']'] + rest); tail != [] && tail[0] != '-'
  {
    assert (text + ([']'] + rest))[0] == if text == [] then ']' else text[0];
  }

  lemma ItemsEnd(close: string)
    requires close != [] && close[0] == ']'
    ensures ClassItems(close, 0) == ([], 0)
  {}

  lemma TextsFirst(items: seq<ClassItem>)
    ensures Texts(items) == if items == [] then [] else Text(items[0]) + Texts(items[1..])
  {
    hide Text;
  }

  /** The text of a class: perhaps a mark that negates it, perhaps a ']' and then a '-' that stand for themselves, and
      characters and ranges. */
  predicate ClassText(mark: string, lead: string, items: seq<ClassItem>) {
    && (mark == [] || mark == ['^'] || mark == ['!'])
    && (lead == [] || lead == [']'] || lead == ['-'] || lead == [']', '-'])
    && lead + Texts(items) != [] && (forall i :: 0 <= i < |items| ==> Written(items[i]))
    && (mark == [] ==> (lead + Texts(items))[0] != '^' && (lead + Texts(items))[0] != '!')
  }

  function Leading(lead: string): seq<ClassItem> {
    if lead == [] then [] else [One(lead[0])] + Leading(lead[1..])
  }

  /** A class is read as it is written. */
  lemma ClassRead(mark: string, lead: string, items: seq<ClassItem>, p: string)
    requires ClassText(mark, lead, items)
    ensures var body := mark + lead + Texts(items);
            ParseClass(body + ([']'] + p), 0) == (Class(mark != [], Leading(lead) + items), |body| + 1)
  {
    hide *;
    var text, close := Texts(items), [']'] + p;
    var tail, t := text + close, mark + lead + text + close;
    Regroup(mark, lead, text, close);
    TailFirst(mark, lead, items, p);
    LeadRead(t, mark, lead, tail);
    WrittenAll(mark, lead, items);
    ItemsRead(items, p);
    ItemsShift(mark + lead, tail, 0);
    ParseOf(t, 0);
    StartIs(t);
  }

  lemma WrittenAll(mark: string, lead: string, items: seq<ClassItem>)
    requires ClassText(mark, lead, items)
    ensures (forall i :: 0 <= i < |items| ==> Written(items[i])) && (mark == [] || mark == ['^'] || mark == ['!'])
    ensures lead == [] || lead == [']'] || lead == ['-'] || lead == [']', '-']
  {
    hide Written, Texts;
  }

  lemma TailFirst(mark: string, lead: string, items: seq<ClassItem>, p: string)
    requires ClassText(mark, lead, items)
    ensures var tail := Texts(items) + ([']'] + p);
            && tail != [] && tail[0] != '-' && (lead == [] ==> tail[0] != ']')
            && (mark == [] ==> (lead + tail)[0] != '^' && (lead + tail)[0] != '!')
            && (mark == [] || mark == ['^'] || mark == ['!'])
            && (lead == [] || lead == [']'] || lead == ['-'] || lead == [']', '-'])
  {
    TextsPlain(items);
    var text, close := Texts(items), [']'] + p;
    assert (text + close)[0] == if text == [] then ']' else text[0];
    assert items == [] ==> text == [];
    hide Texts, Written;
    assert mark == [] ==> (lead + (text + close))[0] == (lead + text)[0];
  }

  lemma Regroup<T>(a: seq<T>, b: seq<T>, c: seq<T>, d: seq<T>)
    ensures a + b + c + d == a + (b + (c + d)) == (a + b) + (c + d)
  {}

  lemma StartIs(t: string)
    ensures ItemsStart(t, 0) == AfterLiteral(t, AfterLiteral(t, AfterNegation(t, 0), ']'), '-')
  {}

  lemma LeadRead(t: string, mark: string, lead: string, tail: string)
    requires t == mark + (lead + tail) && tail != []
    requires mark == [] || mark == ['^'] || mark == ['!']
    requires lead == [] || lead == [']'] || lead == ['-'] || lead == [']', '-']
    requires tail[0] != '-' && (lead == [] ==> tail[0] != ']')
    requires mark == [] ==> (lead + tail)[0] != '^' && (lead + tail)[0] != '!'
    ensures Negates(t, 0) == (mark != []) && AfterNegation(t, 0) == |mark|
    ensures LeadingItems(t, |mark|) == Leading(lead)
    ensures AfterLiteral(t, AfterLiteral(t, |mark|, ']'), '-') == |mark + lead|
  {
    LeadingIs(lead);
    var n := |mark|;
    assert t[n] == (lead + tail)[0];
    if |lead| == 1 {
      assert t[n] == lead[0] && t[n + 1] == tail[0];
    } else if |lead| == 2 {
      assert t[n] == ']' && t[n + 1] == '-' && t[n + 2] == tail[0];
    }
    hide Leading;
  }

  lemma LeadingIs(lead: string)
    ensures lead == [] ==> Leading(lead) == []
    ensures |lead| == 1 ==> Leading(lead) == [One(lead[0])]
    ensures |lead| == 2 ==> Leading(lead) == [One(lead[0]), One(lead[1])]
  {
    if |lead| == 2 {
      assert lead[1..][0] == lead[1] && lead[1..][1..] == [];
      assert Leading(lead[1..]) == [One(lead[1])] + Leading([]);
    }
  }

  lemma BracketToken(mark: string, lead: string, items: seq<ClassItem>, p: string)
    requires ClassText(mark, lead, items)
    ensures var q := ['['] + mark + lead + Texts(items) + [']'];
            TokenAt(q + p, 0) == (Class(mark != [], Leading(lead) + items), |q|)
  {
    hide *;
    var body, close := mark + lead + Texts(items), [']'] + p;
    var q := ['['] + mark + lead + Texts(items) + [']'];
    BracketText(mark, lead, Texts(items), p);
    ClassRead(mark, lead, items, p);
    ClassShift(['['], body + close, 0);
    BracketIs(q + p);
  }

  lemma BracketText(mark: string, lead: string, text: string, p: string)
    ensures ['['] + mark + lead + text + [']'] + p == ['['] + ((mark + lead + text) + ([']'] + p))
  {}

  lemma BracketIs(t: string)
    requires t != [] && t[0] == '['
    ensures TokenAt(t, 0) == ParseClass(t, 1)
  {
    hide ParseClass;
  }

  /** A class matches one character: one in its text, or with the mark one that is not. */
  lemma Bracket(mark: string, lead: string, items: seq<ClassItem>, p: string, s: string)
    requires ClassText(mark, lead, items)
    ensures Matches(['['] + mark + lead + Texts(items) + [']'] + p, s)
            <==> && s != [] && Matches(p, s[1..])
                 && (if mark == [] then s[0] in lead || Among(items, s[0]) else !(s[0] in lead || Among(items, s[0])))
  {
    hide *;
    var q := ['['] + mark + lead + Texts(items) + [']'];
    BracketToken(mark, lead, items, p);
    MatchesFirst(q, p, s);
    if s != [] {
      AmongIs(Leading(lead) + items, s[0]);
      AmongLeading(lead, items, s[0]);
      AcceptsClass(mark != [], Leading(lead) + items, s[0]);
    }
  }

  lemma AcceptsClass(negated: bool, items: seq<ClassItem>, c: char)
    ensures Accepts(Class(negated, items), c) == (InItems(items, c) != negated)
  {}

  lemma {:induction false} AmongLeading(lead: string, items: seq<ClassItem>, c: char)
    ensures Among(Leading(lead) + items, c) <==> c in lead || Among(items, c)
    decreases |lead|
  {
    if lead == [] {
      assert Leading(lead) + items == items;
    } else {
      var first, rest := [One(lead[0])], Leading(lead[1..]) + items;
      assert Leading(lead) + items == first + rest;
      AmongLeading(lead[1..], items, c);
      AmongIs(first + rest, c);
      AmongIs(rest, c);
      assert (first + rest)[1..] == rest;
      hide Among, Leading;
    }
  }

  lemma {:induction false} NeverCloses(t: string, i: nat)
    requires i <= |t| && forall k :: i <= k < |t| ==> t[k] != ']'
    ensures ClassItems(t, i).1 == |t|
    decreases |t| - i
  {
    hide IsSpan;
    if i < |t| {
      SpanFits(t, i);
      NeverCloses(t, if IsSpan(t, i) then i + 3 else i + 1);
    }
  }

  lemma SpanFits(t: string, i: nat)
    ensures IsSpan(t, i) ==> i + 3 <= |t|
  {}

  /** A bracket that is not closed matches nothing. */
  lemma Unclosed(t: string, s: string)
    requires ']' !in t
    ensures !Matches(['['] + t, s)
  {
    var p := ['['] + t;
    var k := AfterLiteral(p, AfterLiteral(p, AfterNegation(p, 1), ']'), '-');
    assert forall i :: 1 <= i < |p| ==> p[i] == t[i - 1];
    assert k <= |p|;
    NeverCloses(p, k);
    assert ParseClass(p, 1).0.Malformed?;
    hide ParseClass, ClassItems;
  }
}
