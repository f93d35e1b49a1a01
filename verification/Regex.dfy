/**
 The regular expressions of grep: literals, `.`, `c*`, a leading `^` and a
 final `$`. A string here is what comes before the terminating NUL.
 */
module Regex {

  // ----- what patterns mean -----

  /** One character, or any number of the same; '.' stands for any. */
  datatype Item = One(c: char) | Star(c: char)

  /** `toEnd` says that the match must end where the text does. */
  datatype Pattern = Pattern(items: seq<Item>, toEnd: bool)

  predicate CharFits(c: char, d: char) {
    c == '.' || c == d
  }

  predicate Fits(item: Item, s: string) {
    match item
    case One(c) => |s| == 1 && CharFits(c, s[0])
    case Star(c) => forall i :: 0 <= i < |s| ==> CharFits(c, s[i])
  }

  function Concat(pieces: seq<string>): string {
    if pieces == [] then [] else pieces[0] + Concat(pieces[1..])
  }

  /** `pieces` split `s` into one part for each item. */
  predicate Splits(items: seq<Item>, s: string, pieces: seq<string>) {
    && |pieces| == |items| && Concat(pieces) == s
    && forall i :: 0 <= i < |items| ==> Fits(items[i], pieces[i])
  }

  ghost predicate InLanguage(items: seq<Item>, s: string) {
    exists pieces :: Splits(items, s, pieces)
  }

  /** The first `j` characters of the text match the pattern. */
  ghost predicate Accepts(p: Pattern, text: string, j: nat) {
    j <= |text| && InLanguage(p.items, text[..j]) && (p.toEnd ==> j == |text|)
  }

  ghost predicate AcceptsPrefix(p: Pattern, text: string) {
    exists j: nat :: Accepts(p, text, j)
  }

  /** How a pattern is written: a star belongs to the character before it,
      and only a `$` at the very end is not a literal. */
  function Parse(re: string): (p: Pattern)
  {
    if re == [] then Pattern([], false)
    else if |re| >= 2 && re[1] == '*' then var p := Parse(re[2..]); p.(items := [Star(re[0])] + p.items)
    else if re == "$" then Pattern([], true)
    else var p := Parse(re[1..]); p.(items := [One(re[0])] + p.items)
  }

  /** Some part of the text, at its start if the pattern begins with `^`, matches. */
  ghost predicate Matches(re: string, text: string) {
    if re != [] && re[0] == '^' then AcceptsPrefix(Parse(re[1..]), text)
    else exists i: nat :: MatchesAt(re, text, i)
  }

  ghost predicate MatchesAt(re: string, text: string, i: nat) {
    i <= |text| && AcceptsPrefix(Parse(re), text[i..])
  }

  // ----- the language, item by item -----

  lemma ConsLanguage(item: Item, rest: seq<Item>, s: string, k: nat)
    requires k <= |s| && Fits(item, s[..k]) && InLanguage(rest, s[k..])
    ensures InLanguage([item] + rest, s)
  {
    var pieces :| Splits(rest, s[k..], pieces);
    assert ([s[..k]] + pieces)[1..] == pieces && s[..k] + s[k..] == s;
    assert Splits([item] + rest, s, [s[..k]] + pieces);
  }

  lemma UnconsLanguage(item: Item, rest: seq<Item>, s: string) returns (k: nat)
    requires InLanguage([item] + rest, s)
    ensures k <= |s| && Fits(item, s[..k]) && InLanguage(rest, s[k..])
  {
    var pieces :| Splits([item] + rest, s, pieces);
    k := |pieces[0]|;
    assert s[..k] == pieces[0] && s[k..] == Concat(pieces[1..]);
    assert ([item] + rest)[0] == item && forall i :: 0 <= i < |rest| ==> rest[i] == ([item] + rest)[i + 1];
    assert Splits(rest, s[k..], pieces[1..]);
  }

  lemma EmptyLanguage(s: string)
    ensures InLanguage([], s) <==> s == []
  {
    if s == [] {
      assert Splits([], s, []);
    }
  }

  /** A pattern starting with `item` accepts what `item` and then the rest accept. */
  lemma ConsAccepts(item: Item, p: Pattern, text: string, k: nat)
    requires k <= |text| && Fits(item, text[..k]) && AcceptsPrefix(p, text[k..])
    ensures AcceptsPrefix(p.(items := [item] + p.items), text)
  {
    var j: nat :| Accepts(p, text[k..], j);
    var s := text[..k + j];
    assert s[..k] == text[..k] && s[k..] == text[k..][..j];
    ConsLanguage(item, p.items, s, k);
    assert Accepts(p.(items := [item] + p.items), text, k + j);
  }

  lemma UnconsAccepts(item: Item, p: Pattern, text: string) returns (k: nat)
    requires AcceptsPrefix(p.(items := [item] + p.items), text)
    ensures k <= |text| && Fits(item, text[..k]) && AcceptsPrefix(p, text[k..])
  {
    var j: nat :| Accepts(p.(items := [item] + p.items), text, j);
    k := UnconsLanguage(item, p.items, text[..j]);
    assert text[..j][..k] == text[..k] && text[..j][k..] == text[k..][..j - k];
    assert Accepts(p, text[k..], j - k);
  }

  // ----- the matcher -----

  /** Some number of characters that fit `c`, and then a match of `re`. */
  ghost predicate StarThen(c: char, re: string, text: string, k: nat) {
    k <= |text| && Fits(Star(c), text[..k]) && AcceptsPrefix(Parse(re), text[k..])
  }

  /** matchhere: `re` matches at the beginning of the text. */
  method MatchHere(re: string, text: string) returns (r: bool)
    ensures r <==> AcceptsPrefix(Parse(re), text)
    decreases |re|, |text|, 0
  {
    if re == [] {
      HereEmpty(text);
      return true;
    }
    if |re| >= 2 && re[1] == '*' {
      r := MatchStar(re[0], re[2..], text);
      HereStar(re, text);
      return;
    }
    if re == "$" {
      HereEnd(text);
      return text == [];
    }
    HereOne(re, text);
    if text != [] && (re[0] == '.' || re[0] == text[0]) {
      r := MatchHere(re[1..], text[1..]);
      return;
    }
    return false;
  }

  /** matchstar: `c*re` matches at the beginning of the text. */
  method MatchStar(c: char, re: string, text: string) returns (r: bool)
    ensures r <==> exists k: nat :: StarThen(c, re, text, k)
    decreases |re|, |text|, 1
  {
    var k := 0;
    while true
      invariant 0 <= k <= |text| && Fits(Star(c), text[..k])
      invariant forall i: nat :: i < k ==> !StarThen(c, re, text, i)
      decreases |text| - k
    {
      var here := MatchHere(re, text[k..]);
      if here {
        assert StarThen(c, re, text, k);
        return true;
      }
      if !(k < |text| && (text[k] == c || c == '.')) {
        NoMoreStar(c, re, text, k);
        return false;
      }
      assert text[..k + 1] == text[..k] + [text[k]];
      k := k + 1;
    }
  }

  /** match: `re` matches somewhere in the text. */
  method Match(re: string, text: string) returns (r: bool)
    ensures r <==> Matches(re, text)
  {
    if re != [] && re[0] == '^' {
      r := MatchHere(re[1..], text);
      return;
    }
    var i := 0;
    while true
      invariant 0 <= i <= |text| && forall j: nat :: j < i ==> !MatchesAt(re, text, j)
      decreases |text| - i
    {
      var here := MatchHere(re, text[i..]);
      if here {
        assert MatchesAt(re, text, i);
        return true;
      }
      if i == |text| {
        return false;
      }
      i := i + 1;
    }
  }

  lemma HereEmpty(text: string)
    ensures AcceptsPrefix(Parse([]), text)
  {
    EmptyLanguage(text[..0]);
    assert Accepts(Parse([]), text, 0);
  }

  lemma HereEnd(text: string)
    ensures AcceptsPrefix(Parse("$"), text) <==> text == []
  {
    EmptyLanguage(text);
    assert text[..|text|] == text;
    if text == [] {
      assert Accepts(Parse("$"), text, 0);
    }
  }

  lemma HereStar(re: string, text: string)
    requires |re| >= 2 && re[1] == '*'
    ensures AcceptsPrefix(Parse(re), text) <==> exists k: nat :: StarThen(re[0], re[2..], text, k)
  {
    var p := Parse(re[2..]);
    if AcceptsPrefix(Parse(re), text) {
      var k := UnconsAccepts(Star(re[0]), p, text);
      assert StarThen(re[0], re[2..], text, k);
    }
    if k: nat :| StarThen(re[0], re[2..], text, k) {
      ConsAccepts(Star(re[0]), p, text, k);
    }
  }

  lemma HereOne(re: string, text: string)
    requires re != [] && re != "$" && !(|re| >= 2 && re[1] == '*')
    ensures AcceptsPrefix(Parse(re), text)
        <==> text != [] && CharFits(re[0], text[0]) && AcceptsPrefix(Parse(re[1..]), text[1..])
  {
    var p := Parse(re[1..]);
    if AcceptsPrefix(Parse(re), text) {
      var k := UnconsAccepts(One(re[0]), p, text);
    }
    if text != [] && CharFits(re[0], text[0]) && AcceptsPrefix(p, text[1..]) {
      ConsAccepts(One(re[0]), p, text, 1);
    }
  }

  lemma NoMoreStar(c: char, re: string, text: string, k: nat)
    requires k <= |text| && !(k < |text| && CharFits(c, text[k]))
    requires !AcceptsPrefix(Parse(re), text[k..]) && forall i: nat :: i < k ==> !StarThen(c, re, text, i)
    ensures forall i: nat :: !StarThen(c, re, text, i)
  {
  }
}
