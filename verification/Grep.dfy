/** grep.c's matcher, against the language its patterns denote. */
module Grep {
  // ---- What a pattern means -------------------------------------------------------------

  datatype Pattern = Nothing | AtEnd | One(c: char, rest: Pattern) | Star(c: char, rest: Pattern)

  /** How the code reads a pattern: a star after any character repeats it, `$` is an anchor only at the
      very end, and every other character, a leading star or a later `^` among them, stands for
      itself. */
  function Parse(re: string): Pattern {
    if re == [] then Nothing
    else if |re| >= 2 && re[1] == '*' then Star(re[0], Parse(re[2..]))
    else if re == "$" then AtEnd
    else One(re[0], Parse(re[1..]))
  }

  predicate Fits(c: char, x: char) {
    c == '.' || c == x
  }

  predicate AllFit(c: char, s: string) {
    forall i :: 0 <= i < |s| ==> Fits(c, s[i])
  }

  /** `s` belongs to the language of `p`; `last` says whether the text ends where `s` does. */
  ghost predicate In(p: Pattern, s: string, last: bool)
    decreases p, 0
  {
    match p
    case Nothing => s == []
    case AtEnd => s == [] && last
    case One(c, rest) => s != [] && Fits(c, s[0]) && In(rest, s[1..], last)
    case Star(c, rest) => exists k :: 0 <= k <= |s| && Repeats(c, rest, s, k, last)
  }

  ghost predicate Repeats(c: char, rest: Pattern, s: string, k: nat, last: bool)
    requires k <= |s|
    decreases rest, 1
  {
    AllFit(c, s[..k]) && In(rest, s[k..], last)
  }

  /** The part of `text` from `m` to `n` is in the language. */
  ghost predicate Hit(p: Pattern, text: string, m: nat, n: nat) {
    m <= n <= |text| && In(p, text[m..n], n == |text|)
  }

  /** Some prefix of `text` is in the language. */
  ghost predicate Prefix(p: Pattern, text: string) {
    exists n: nat :: Hit(p, text, 0, n)
  }

  /** Some substring is; a prefix, if the pattern starts with `^`. */
  ghost predicate Matches(re: string, text: string) {
    if re != [] && re[0] == '^' then Prefix(Parse(re[1..]), text)
    else exists m: nat, n: nat :: Hit(Parse(re), text, m, n)
  }

  // ---- Prefixes, one pattern character at a time ------------------------------------------

  lemma PrefixNothing(text: string)
    ensures Prefix(Nothing, text)
  {
    assert Hit(Nothing, text, 0, 0);
  }

  lemma PrefixAtEnd(text: string)
    ensures Prefix(AtEnd, text) <==> text == []
  {
    assert text == [] ==> Hit(AtEnd, text, 0, 0);
  }

  lemma PrefixOne(c: char, rest: Pattern, text: string)
    ensures Prefix(One(c, rest), text) <==> text != [] && Fits(c, text[0]) && Prefix(rest, text[1..])
  {
    if Prefix(One(c, rest), text) {
      var n: nat :| Hit(One(c, rest), text, 0, n);
      assert text[0..n][1..] == text[1..][0..n - 1];
      assert Hit(rest, text[1..], 0, n - 1);
    }
    if text != [] && Fits(c, text[0]) && Prefix(rest, text[1..]) {
      var n: nat :| Hit(rest, text[1..], 0, n);
      assert text[0..n + 1][1..] == text[1..][0..n];
      assert Hit(One(c, rest), text, 0, n + 1);
    }
  }

  /** Skipping `k` characters that fit, then matching the rest. */
  ghost predicate After(c: char, rest: Pattern, text: string, k: nat) {
    k <= |text| && AllFit(c, text[..k]) && Prefix(rest, text[k..])
  }

  lemma PrefixStar(c: char, rest: Pattern, text: string)
    ensures Prefix(Star(c, rest), text) <==> exists k: nat :: After(c, rest, text, k)
  {
    if Prefix(Star(c, rest), text) {
      var n: nat :| Hit(Star(c, rest), text, 0, n);
      var k :| 0 <= k <= |text[0..n]| && Repeats(c, rest, text[0..n], k, n == |text|);
      assert text[0..n][..k] == text[..k] && text[0..n][k..] == text[k..][0..n - k];
      assert Hit(rest, text[k..], 0, n - k);
      assert After(c, rest, text, k);
    }
    if k: nat :| After(c, rest, text, k) {
      var n: nat :| Hit(rest, text[k..], 0, n);
      assert text[0..k + n][..k] == text[..k] && text[0..k + n][k..] == text[k..][0..n];
      assert Repeats(c, rest, text[0..k + n], k, k + n == |text|);
      assert Hit(Star(c, rest), text, 0, k + n);
    }
  }

  lemma MatchesSomewhere(re: string, text: string)
    requires !(re != [] && re[0] == '^')
    ensures Matches(re, text) <==> exists m: nat :: m <= |text| && Prefix(Parse(re), text[m..])
  {
    if Matches(re, text) {
      var m: nat, n: nat :| Hit(Parse(re), text, m, n);
      assert text[m..][0..n - m] == text[m..n];
      assert Hit(Parse(re), text[m..], 0, n - m);
    }
    if m: nat :| m <= |text| && Prefix(Parse(re), text[m..]) {
      var n: nat :| Hit(Parse(re), text[m..], 0, n);
      assert text[m..][0..n] == text[m..m + n];
      assert Hit(Parse(re), text, m, m + n);
    }
  }

  // ---- Patterns and the strings that spell them -------------------------------------------

  /** The string of a pattern: each character, with a star after it if it is repeated. */
  function Unparse(p: Pattern): string {
    match p
    case Nothing => []
    case AtEnd => "$"
    case One(c, rest) => [c] + Unparse(rest)
    case Star(c, rest) => [c] + "*" + Unparse(rest)
  }

  predicate StartsWithStar(p: Pattern) {
    (p.One? || p.Star?) && p.c == '*'
  }

  /** What a string can spell: a character that stands for itself is not followed by a star, and a last
      `$` is the anchor. */
  predicate Proper(p: Pattern) {
    match p
    case Nothing => true
    case AtEnd => true
    case One(c, rest) => !StartsWithStar(rest) && !(c == '$' && rest == Nothing) && Proper(rest)
    case Star(_, rest) => Proper(rest)
  }

  /** No two proper patterns have the same string. */
  lemma {:induction false} ParseUnparse(p: Pattern)
    requires Proper(p)
    ensures Parse(Unparse(p)) == p
  {
    var re := Unparse(p);
    match p
    case Nothing =>
    case AtEnd =>
    case One(c, rest) =>
      ParseUnparse(rest);
      assert re[1..] == Unparse(rest);
      assert rest != Nothing ==> |re| >= 2 && re[1] == Unparse(rest)[0];
    case Star(c, rest) =>
      ParseUnparse(rest);
      assert re[2..] == Unparse(rest);
  }

  /** Every string spells the pattern it is read as. */
  lemma {:induction false} UnparseParse(re: string)
    ensures Proper(Parse(re)) && Unparse(Parse(re)) == re
    decreases |re|
  {
    if re == [] {
    } else if |re| >= 2 && re[1] == '*' {
      UnparseParse(re[2..]);
      assert re == [re[0]] + "*" + re[2..];
    } else if re != "$" {
      UnparseParse(re[1..]);
      assert re == [re[0]] + re[1..];
    }
  }

  // ---- What the special characters do -------------------------------------------------------

  /** No character that match treats specially. */
  predicate Literal(w: string) {
    forall i :: 0 <= i < |w| ==> w[i] !in "^$.*"
  }

  lemma {:induction false} InLiteral(w: string, s: string, last: bool)
    requires Literal(w)
    ensures In(Parse(w), s, last) <==> s == w
    decreases |w|
  {
    if w != [] {
      assert w == [w[0]] + w[1..];
      assert |w| >= 2 ==> w[1] !in "^$.*";
      if s != [] {
        assert s == [s[0]] + s[1..];
        InLiteral(w[1..], s[1..], last);
      }
    }
  }

  /** A pattern without special characters is searched for as it stands. */
  lemma LiteralIsSubstring(w: string, text: string)
    requires Literal(w)
    ensures Matches(w, text) <==> exists m: nat, n: nat :: m <= n <= |text| && text[m..n] == w
  {
    if m: nat, n: nat :| m <= n <= |text| && text[m..n] == w {
      InLiteral(w, text[m..n], n == |text|);
      assert Hit(Parse(w), text, m, n);
    }
    if Matches(w, text) {
      var m: nat, n: nat :| Hit(Parse(w), text, m, n);
      InLiteral(w, text[m..n], n == |text|);
    }
  }

  lemma {:induction false} ParseAnchored(w: string, s: string, last: bool)
    requires Literal(w)
    ensures In(Parse(w + "$"), s, last) <==> s == w && last
    decreases |w|
  {
    var re := w + "$";
    if w != [] {
      assert w == [w[0]] + w[1..] && re[1..] == w[1..] + "$";
      assert re[1] == if |w| >= 2 then w[1] else '$';
      if s != [] {
        assert s == [s[0]] + s[1..];
        ParseAnchored(w[1..], s[1..], last);
      }
    }
  }

  /** Between `^` and `$` it is compared with the whole text. */
  lemma AnchoredIsWhole(w: string, text: string)
    requires Literal(w)
    ensures Matches("^" + w + "$", text) <==> text == w
  {
    var re := "^" + w + "$";
    assert re[1..] == w + "$";
    if text == w {
      ParseAnchored(w, text[0..|text|], true);
      assert Hit(Parse(w + "$"), text, 0, |text|);
    }
    if Matches(re, text) {
      var n: nat :| Hit(Parse(w + "$"), text, 0, n);
      ParseAnchored(w, text[0..n], n == |text|);
    }
  }

  /** A star repeats the character before it any number of times, none included; `.` is any character. */
  lemma StarIsAnyNumber(c: char, text: string)
    ensures Matches("^" + [c] + "*$", text) <==> forall i :: 0 <= i < |text| ==> c == '.' || text[i] == c
  {
    var re := "^" + [c] + "*$";
    var rest := re[1..];
    assert rest == [c, '*', '$'] && rest[2..] == "$" && Parse(rest) == Star(c, AtEnd);
    PrefixStar(c, AtEnd, text);
    if k: nat :| After(c, AtEnd, text, k) {
      PrefixAtEnd(text[k..]);
      assert text[..k] == text;
    }
    if AllFit(c, text) {
      assert text[..|text|] == text;
      PrefixAtEnd(text[|text|..]);
      assert After(c, AtEnd, text, |text|);
    }
  }

  /** A single `.` stands for exactly one character. */
  lemma DotIsOne(text: string)
    ensures Matches("^.$", text) <==> |text| == 1
  {
    assert "^.$"[1..] == ".$" && ".$"[1..] == "$";
    PrefixOne('.', AtEnd, text);
    if text != [] {
      PrefixAtEnd(text[1..]);
    }
  }

  // ---- The matcher ------------------------------------------------------------------------

  /** match */
  method Match(re: string, text: string) returns (b: bool)
    ensures b <==> Matches(re, text)
  {
    if re != [] && re[0] == '^' {
      b := MatchHere(re[1..], text);
      return;
    }
    MatchesSomewhere(re, text);
    var t := 0;
    while true
      invariant 0 <= t <= |text|
      invariant forall m: nat :: m < t ==> !Prefix(Parse(re), text[m..])
      decreases |text| - t
    {
      var here := MatchHere(re, text[t..]);
      if here {
        return true;
      }
      if t == |text| {
        return false;
      }
      t := t + 1;
    }
  }

  /** matchhere */
  method MatchHere(re: string, text: string) returns (b: bool)
    ensures b <==> Prefix(Parse(re), text)
    decreases |re|, |text|
  {
    if re == [] {
      PrefixNothing(text);
      return true;
    }
    if |re| >= 2 && re[1] == '*' {
      b := MatchStar(re[0], re[2..], text);
      return;
    }
    if re == "$" {
      PrefixAtEnd(text);
      return text == [];
    }
    PrefixOne(re[0], Parse(re[1..]), text);
    if text != [] && (re[0] == '.' || re[0] == text[0]) {
      b := MatchHere(re[1..], text[1..]);
      return;
    }
    return false;
  }

  /** matchstar */
  method MatchStar(c: char, re: string, text: string) returns (b: bool)
    ensures b <==> Prefix(Star(c, Parse(re)), text)
    decreases |re| + 1, |text|
  {
    PrefixStar(c, Parse(re), text);
    var t := 0;
    while true
      invariant 0 <= t <= |text| && AllFit(c, text[..t])
      invariant forall k: nat :: k < t ==> !After(c, Parse(re), text, k)
      decreases |text| - t
    {
      var here := MatchHere(re, text[t..]);
      if here {
        assert After(c, Parse(re), text, t);
        return true;
      }
      if t == |text| || !(text[t] == c || c == '.') {
        NoFurther(c, Parse(re), text, t);
        return false;
      }
      t := t + 1;
    }
  }

  lemma NoFurther(c: char, rest: Pattern, text: string, t: nat)
    requires t <= |text| && !Prefix(rest, text[t..]) && (t == |text| || !Fits(c, text[t]))
    requires forall k: nat :: k < t ==> !After(c, rest, text, k)
    ensures !exists k: nat :: After(c, rest, text, k)
  {
    forall k: nat ensures !After(c, rest, text, k) {
      if t < k <= |text| {
        assert text[..k][t] == text[t];
      }
    }
  }
}
