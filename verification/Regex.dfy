/**
 Regular expressions as the languages they denote, and the length of the longest match. A full match is
 membership in the language.
 */
module Regex {
  datatype Pattern =
    | Lit(text: string)
    | OneOf(words: seq<string>)
    | Class(chars: string)
    | Then(first: Pattern, second: Pattern)
    | Either(left: Pattern, right: Pattern)
    | Repeat(body: Pattern, low: nat, high: nat)

  function Optional(p: Pattern): Pattern { Repeat(p, 0, 1) }

  ghost predicate Matches(p: Pattern, s: string)
    decreases p, 0, 0
  {
    match p
    case Lit(text) => s == text
    case OneOf(words) => s in words
    case Class(chars) => |s| == 1 && s[0] in chars
    case Then(a, b) => exists i :: 0 <= i <= |s| && Matches(a, s[..i]) && Matches(b, s[i..])
    case Either(a, b) => Matches(a, s) || Matches(b, s)
    case Repeat(body, low, high) => MatchesTimes(body, low, high, s)
  }

  /** Between `low` and `high` matches one after the other. */
  ghost predicate MatchesTimes(p: Pattern, low: nat, high: nat, s: string)
    decreases p, 1, high
  {
    || (low == 0 && s == "")
    || (high > 0 && exists i :: 0 <= i <= |s| && Matches(p, s[..i])
                                && MatchesTimes(p, if low == 0 then 0 else low - 1, high - 1, s[i..]))
  }

  lemma MatchThen(a: Pattern, b: Pattern, s: string, t: string)
    requires Matches(a, s) && Matches(b, t)
    ensures Matches(Then(a, b), s + t)
  {
    var i := |s|;
    assert (s + t)[..i] == s && (s + t)[i..] == t;
  }

  lemma MatchOnceMore(p: Pattern, low: nat, high: nat, s: string, t: string)
    requires Matches(p, s) && MatchesTimes(p, if low == 0 then 0 else low - 1, high, t)
    ensures MatchesTimes(p, low, high + 1, s + t)
  {
    var i := |s|;
    assert (s + t)[..i] == s && (s + t)[i..] == t;
  }

  // ----- The longest match -----

  function Max(a: nat, b: nat): nat { if a < b then b else a }

  function LongestWord(words: seq<string>): nat {
    if words == [] then 0 else Max(|words[0]|, LongestWord(words[1..]))
  }

  function Longest(p: Pattern): nat {
    match p
    case Lit(text) => |text|
    case OneOf(words) => LongestWord(words)
    case Class(_) => 1
    case Then(a, b) => Longest(a) + Longest(b)
    case Either(a, b) => Max(Longest(a), Longest(b))
    case Repeat(body, _, high) => high * Longest(body)
  }

  lemma {:induction false} WordBound(words: seq<string>, s: string)
    requires s in words
    ensures |s| <= LongestWord(words)
  {
    if s != words[0] { WordBound(words[1..], s); }
  }

  /** No match is longer than `Longest` says. */
  lemma {:induction false} MatchIsBounded(p: Pattern, s: string)
    requires Matches(p, s)
    ensures |s| <= Longest(p)
    decreases p, 0, 0
  {
    match p
    case Lit(_) =>
    case OneOf(words) => WordBound(words, s);
    case Class(_) =>
    case Then(a, b) =>
      var i :| 0 <= i <= |s| && Matches(a, s[..i]) && Matches(b, s[i..]);
      MatchIsBounded(a, s[..i]);
      MatchIsBounded(b, s[i..]);
    case Either(a, b) => if Matches(a, s) { MatchIsBounded(a, s); } else { MatchIsBounded(b, s); }
    case Repeat(body, low, high) => TimesBounded(body, low, high, s);
  }

  lemma {:induction false} TimesBounded(p: Pattern, low: nat, high: nat, s: string)
    requires MatchesTimes(p, low, high, s)
    ensures |s| <= high * Longest(p)
    decreases p, 1, high
  {
    if s != "" {
      var i :| 0 <= i <= |s| && Matches(p, s[..i])
        && MatchesTimes(p, if low == 0 then 0 else low - 1, high - 1, s[i..]);
      MatchIsBounded(p, s[..i]);
      TimesBounded(p, if low == 0 then 0 else low - 1, high - 1, s[i..]);
      assert high * Longest(p) == Longest(p) + (high - 1) * Longest(p);
    }
  }

  /** Every choice offers something. */
  predicate Inhabited(p: Pattern) {
    match p
    case Lit(_) => true
    case OneOf(words) => words != []
    case Class(chars) => chars != []
    case Then(a, b) => Inhabited(a) && Inhabited(b)
    case Either(a, b) => Inhabited(a) && Inhabited(b)
    case Repeat(body, low, high) => low <= high && Inhabited(body)
  }

  lemma {:induction false} LongestWordOccurs(words: seq<string>) returns (s: string)
    requires words != []
    ensures s in words && |s| == LongestWord(words)
  {
    s := words[0];
    if |words| > 1 {
      var t := LongestWordOccurs(words[1..]);
      if |s| < |t| { s := t; }
    }
  }

  /** The bound is attained. */
  lemma {:induction false} LongestOccurs(p: Pattern) returns (s: string)
    requires Inhabited(p)
    ensures Matches(p, s) && |s| == Longest(p)
    decreases p, 0, 0
  {
    match p
    case Lit(text) => s := text;
    case OneOf(words) => s := LongestWordOccurs(words);
    case Class(chars) => s := [chars[0]];
    case Then(a, b) =>
      var t := LongestOccurs(a);
      var u := LongestOccurs(b);
      MatchThen(a, b, t, u);
      s := t + u;
    case Either(a, b) => if Longest(a) < Longest(b) { s := LongestOccurs(b); } else { s := LongestOccurs(a); }
    case Repeat(body, low, high) => s := LongestTimes(body, low, high);
  }

  lemma {:induction false} LongestTimes(p: Pattern, low: nat, high: nat) returns (s: string)
    requires Inhabited(p) && low <= high
    ensures MatchesTimes(p, low, high, s) && |s| == high * Longest(p)
    decreases p, 1, high
  {
    if high == 0 {
      s := "";
    } else {
      var t := LongestOccurs(p);
      var u := LongestTimes(p, if low == 0 then 0 else low - 1, high - 1);
      MatchOnceMore(p, low, high - 1, t, u);
      s := t + u;
      assert high * Longest(p) == Longest(p) + (high - 1) * Longest(p);
    }
  }

  // ----- Empty matches -----

  /** No match is empty. */
  predicate NeverEmpty(p: Pattern) {
    match p
    case Lit(text) => text != ""
    case OneOf(words) => "" !in words
    case Class(_) => true
    case Then(a, b) => NeverEmpty(a) || NeverEmpty(b)
    case Either(a, b) => NeverEmpty(a) && NeverEmpty(b)
    case Repeat(body, low, _) => low > 0 && NeverEmpty(body)
  }

  lemma {:induction false} MatchIsNotEmpty(p: Pattern, s: string)
    requires Matches(p, s) && NeverEmpty(p)
    ensures s != ""
  {
    match p
    case Lit(_) => case OneOf(_) => case Class(_) =>
    case Then(a, b) =>
      var i :| 0 <= i <= |s| && Matches(a, s[..i]) && Matches(b, s[i..]);
      if NeverEmpty(a) { MatchIsNotEmpty(a, s[..i]); } else { MatchIsNotEmpty(b, s[i..]); }
    case Either(a, b) => if Matches(a, s) { MatchIsNotEmpty(a, s); } else { MatchIsNotEmpty(b, s); }
    case Repeat(body, low, high) =>
      var i :| 0 <= i <= |s| && Matches(body, s[..i]) && MatchesTimes(body, low - 1, high - 1, s[i..]);
      MatchIsNotEmpty(body, s[..i]);
  }
}
