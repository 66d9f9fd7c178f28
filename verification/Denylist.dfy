/**
 The denylist every stored provisioning detail is held to, and how to see that a text is clean
 (api/domains/agents/provisioning_errors.py). Texts are ASCII here: case folding is lower-casing.
 */
module Denylist {
  import opened Regex

  const SENSITIVE := ["api_key", "apikey", "authorization", "bearer", "client_secret", "credential", "kubeconfig",
                      "password", "private_key", "refresh_token", "secret", "token"]

  /** Case folded, with dashes read as underscores. */
  function Fold(c: char): char {
    if 'A' <= c <= 'Z' then (c as int - 'A' as int + 'a' as int) as char else if c == '-' then '_' else c
  }

  /** `part` occurs in the folded text at position `i`. */
  predicate OccursAt(s: string, part: string, i: nat) {
    i + |part| <= |s| && forall j :: 0 <= j < |part| ==> Fold(s[i + j]) == part[j]
  }

  predicate ContainsSensitive(s: string) {
    exists part, i: nat :: part in SENSITIVE && i <= |s| && OccursAt(s, part, i)
  }

  // ----- Clean text -----

  predicate Clean(s: string) { !ContainsSensitive(s) }

  /** Characters denylisted words are made of, once folded. */
  predicate WordChar(c: char) { 'a' <= Fold(c) <= 'z' || Fold(c) == '_' }

  /** The text is empty, or begins or ends with a separator. */
  predicate OpensApart(s: string) { s == "" || !WordChar(s[0]) }
  predicate ClosesApart(s: string) { s == "" || !WordChar(s[|s| - 1]) }

  lemma SensitiveIsWord(part: string, j: nat)
    requires part in SENSITIVE && j < |part|
    ensures 'a' <= part[j] <= 'z' || part[j] == '_'
    ensures 5 <= |part|
  {
  }

  /** Every position an occurrence covers holds a word character. */
  lemma OccurrenceIsWord(s: string, part: string, i: nat, k: nat)
    requires part in SENSITIVE && OccursAt(s, part, i) && i <= k < i + |part|
    ensures k < |s| && WordChar(s[k])
  {
    SensitiveIsWord(part, k - i);
    assert Fold(s[i + (k - i)]) == part[k - i];
  }

  /** Clean pieces stay clean when a separator stands at the joint. */
  lemma JoinClean(a: string, b: string)
    requires Clean(a) && Clean(b)
    requires ClosesApart(a) || OpensApart(b)
    ensures Clean(a + b)
  {
    var s := a + b;
    forall part, i: nat | part in SENSITIVE && i <= |s| && OccursAt(s, part, i) ensures false {
      if i + |part| <= |a| {
        assert OccursAt(a, part, i);
      } else if i >= |a| {
        assert OccursAt(b, part, i - |a|);
      } else {
        OccurrenceIsWord(s, part, i, |a| - 1);
        OccurrenceIsWord(s, part, i, |a|);
      }
    }
  }

  /** Text too short to hold a denylisted word is clean. */
  lemma ShortClean(s: string)
    requires |s| < 5
    ensures Clean(s)
  {
    forall part, i: nat | part in SENSITIVE && i <= |s| ensures !OccursAt(s, part, i) {
      SensitiveIsWord(part, 0);
    }
  }

  /** Each denylisted word holds one of these pairs, or the triple s, e, c. */
  predicate TellTale(a: char, b: char) {
    || (b == 'k' && (a == '_' || a == 'i' || a == 'o')) || (a == 'i' && (b == 'a' || b == 'v'))
    || (a == 't' && b == 'h') || (a == 'b' && b == 'e') || (a == 'k' && b == 'u') || (a == 's' && b == 's')
  }

  /** No telltale from position `i` on. */
  predicate HarmlessFrom(s: string, i: nat)
    decreases |s| - i
  {
    i + 1 >= |s| || (!TellsAt(s, i) && HarmlessFrom(s, i + 1))
  }

  predicate TellsAt(s: string, i: nat) {
    && i + 1 < |s|
    && (TellTale(Fold(s[i]), Fold(s[i + 1]))
        || (i + 2 < |s| && Fold(s[i]) == 's' && Fold(s[i + 1]) == 'e' && Fold(s[i + 2]) == 'c'))
  }

  predicate Tells(part: string, j: nat) {
    || (j + 1 < |part| && TellTale(part[j], part[j + 1]))
    || (j + 2 < |part| && part[j] == 's' && part[j + 1] == 'e' && part[j + 2] == 'c')
  }

  lemma PartTells(part: string) returns (j: nat)
    requires part in SENSITIVE
    ensures Tells(part, j)
  {
    j := if part == "api_key" then 3
         else if part in ["bearer", "kubeconfig", "secret"] then 0
         else if part in ["apikey", "authorization", "password", "private_key"] then 2
         else if part in ["client_secret", "credential"] then 7
         else if part == "refresh_token" then 9
         else 1;
  }

  lemma {:induction false} HarmlessAt(s: string, i: nat, k: nat)
    requires HarmlessFrom(s, i) && i <= k
    ensures !TellsAt(s, k)
    decreases k - i
  {
    if i < k && i + 1 < |s| { HarmlessAt(s, i + 1, k); }
  }

  lemma HarmlessClean(s: string)
    requires HarmlessFrom(s, 0)
    ensures Clean(s)
  {
    forall part, i: nat | part in SENSITIVE && i <= |s| ensures !OccursAt(s, part, i) {
      var j := PartTells(part);
      HarmlessAt(s, 0, i + j);
      TellingPartMissed(s, part, i, j);
    }
  }

  lemma TellingPartMissed(s: string, part: string, i: nat, j: nat)
    requires Tells(part, j) && !TellsAt(s, i + j)
    ensures !OccursAt(s, part, i)
  {
  }

  // ----- Clean languages -----

  /** Every match is empty or begins with a separator. */
  predicate StartsApart(p: Pattern) {
    match p
    case Lit(text) => OpensApart(text)
    case OneOf(words) => forall w :: w in words ==> OpensApart(w)
    case Class(chars) => forall c :: c in chars ==> !WordChar(c)
    case Then(a, b) => StartsApart(a) && (NeverEmpty(a) || StartsApart(b))
    case Either(a, b) => StartsApart(a) && StartsApart(b)
    case Repeat(body, _, _) => StartsApart(body)
  }

  /** Every match is empty or ends with a separator. */
  predicate EndsApart(p: Pattern) {
    match p
    case Lit(text) => ClosesApart(text)
    case OneOf(words) => forall w :: w in words ==> ClosesApart(w)
    case Class(chars) => forall c :: c in chars ==> !WordChar(c)
    case Then(a, b) => EndsApart(b) && (NeverEmpty(b) || EndsApart(a))
    case Either(a, b) => EndsApart(a) && EndsApart(b)
    case Repeat(body, _, _) => EndsApart(body)
  }

  /** A check on the pattern alone: short, or clean pieces with a separator at every joint. */
  predicate Safe(p: Pattern) {
    Longest(p) < 5 ||
    match p
    case Lit(text) => Clean(text)
    case OneOf(words) => forall w :: w in words ==> Clean(w)
    case Class(_) => true
    case Then(a, b) => Safe(a) && Safe(b) && (EndsApart(a) || StartsApart(b))
    case Either(a, b) => Safe(a) && Safe(b)
    case Repeat(body, _, high) => Safe(body) && (high <= 1 || EndsApart(body) || StartsApart(body))
  }

  lemma {:induction false} StartOfMatch(p: Pattern, s: string)
    requires Matches(p, s) && StartsApart(p)
    ensures OpensApart(s)
    decreases p, 0, 0
  {
    match p
    case Lit(_) => case OneOf(_) => case Class(_) =>
    case Then(a, b) =>
      var i :| 0 <= i <= |s| && Matches(a, s[..i]) && Matches(b, s[i..]);
      StartOfMatch(a, s[..i]);
      if NeverEmpty(a) { MatchIsNotEmpty(a, s[..i]); } else { StartOfMatch(b, s[i..]); }
    case Either(a, b) => if Matches(a, s) { StartOfMatch(a, s); } else { StartOfMatch(b, s); }
    case Repeat(body, low, high) => StartOfTimes(body, low, high, s);
  }

  lemma {:induction false} StartOfTimes(p: Pattern, low: nat, high: nat, s: string)
    requires MatchesTimes(p, low, high, s) && StartsApart(p)
    ensures OpensApart(s)
    decreases p, 1, high
  {
    if s != "" {
      var fewer := if low == 0 then 0 else low - 1;
      var i :| 0 <= i <= |s| && Matches(p, s[..i]) && MatchesTimes(p, fewer, high - 1, s[i..]);
      StartOfMatch(p, s[..i]);
      StartOfTimes(p, fewer, high - 1, s[i..]);
    }
  }

  lemma {:induction false} EndOfMatch(p: Pattern, s: string)
    requires Matches(p, s) && EndsApart(p)
    ensures ClosesApart(s)
    decreases p, 0, 0
  {
    match p
    case Lit(_) => case OneOf(_) => case Class(_) =>
    case Then(a, b) =>
      var i :| 0 <= i <= |s| && Matches(a, s[..i]) && Matches(b, s[i..]);
      EndOfMatch(b, s[i..]);
      if NeverEmpty(b) { MatchIsNotEmpty(b, s[i..]); } else { EndOfMatch(a, s[..i]); }
    case Either(a, b) => if Matches(a, s) { EndOfMatch(a, s); } else { EndOfMatch(b, s); }
    case Repeat(body, low, high) => EndOfTimes(body, low, high, s);
  }

  lemma {:induction false} EndOfTimes(p: Pattern, low: nat, high: nat, s: string)
    requires MatchesTimes(p, low, high, s) && EndsApart(p)
    ensures ClosesApart(s)
    decreases p, 1, high
  {
    if s != "" {
      var fewer := if low == 0 then 0 else low - 1;
      var i :| 0 <= i <= |s| && Matches(p, s[..i]) && MatchesTimes(p, fewer, high - 1, s[i..]);
      EndOfMatch(p, s[..i]);
      EndOfTimes(p, fewer, high - 1, s[i..]);
    }
  }

  /** Every match of a pattern that passes the check is clean. */
  lemma {:induction false} SafeMatchIsClean(p: Pattern, s: string)
    requires Matches(p, s) && Safe(p)
    ensures Clean(s)
    decreases p, 0, 0
  {
    MatchIsBounded(p, s);
    if |s| < 5 {
      ShortClean(s);
    } else {
      match p
      case Lit(_) => case OneOf(_) => case Class(_) =>
      case Then(a, b) =>
        var i :| 0 <= i <= |s| && Matches(a, s[..i]) && Matches(b, s[i..]);
        SafeMatchIsClean(a, s[..i]);
        SafeMatchIsClean(b, s[i..]);
        if EndsApart(a) { EndOfMatch(a, s[..i]); } else { StartOfMatch(b, s[i..]); }
        CleanAcross(s, i);
      case Either(a, b) => if Matches(a, s) { SafeMatchIsClean(a, s); } else { SafeMatchIsClean(b, s); }
      case Repeat(body, low, high) => SafeTimesAreClean(body, low, high, s);
    }
  }

  lemma CleanAcross(s: string, i: nat)
    requires i <= |s| && Clean(s[..i]) && Clean(s[i..]) && (ClosesApart(s[..i]) || OpensApart(s[i..]))
    ensures Clean(s)
  {
    JoinClean(s[..i], s[i..]);
    assert s == s[..i] + s[i..];
  }

  lemma JointInTimes(p: Pattern, low: nat, high: nat, head: string, tail: string)
    requires Matches(p, head) && MatchesTimes(p, low, high, tail) && (high == 0 || EndsApart(p) || StartsApart(p))
    ensures ClosesApart(head) || OpensApart(tail)
  {
    if EndsApart(p) { EndOfMatch(p, head); } else if StartsApart(p) { StartOfTimes(p, low, high, tail); }
  }

  lemma {:induction false} SafeTimesAreClean(p: Pattern, low: nat, high: nat, s: string)
    requires MatchesTimes(p, low, high, s) && Safe(p) && (high <= 1 || EndsApart(p) || StartsApart(p))
    ensures Clean(s)
    decreases p, 1, high
  {
    if s == "" {
      ShortClean(s);
    } else {
      var fewer := if low == 0 then 0 else low - 1;
      var i :| 0 <= i <= |s| && Matches(p, s[..i]) && MatchesTimes(p, fewer, high - 1, s[i..]);
      SafeMatchIsClean(p, s[..i]);
      SafeTimesAreClean(p, fewer, high - 1, s[i..]);
      JointInTimes(p, fewer, high - 1, s[..i], s[i..]);
      CleanAcross(s, i);
    }
  }

  // ----- The check, piece by piece -----

  lemma LitSafe(text: string)
    requires Clean(text)
    ensures Safe(Lit(text))
  {
  }

  lemma OneOfSafe(words: seq<string>)
    requires forall w :: w in words ==> Clean(w)
    ensures Safe(OneOf(words))
  {
  }

  lemma ThenSafe(a: Pattern, b: Pattern)
    requires Safe(a) && Safe(b) && (EndsApart(a) || StartsApart(b))
    ensures Safe(Then(a, b)) && Longest(Then(a, b)) == Longest(a) + Longest(b)
  {
  }

  lemma EitherSafe(a: Pattern, b: Pattern)
    requires Safe(a) && Safe(b)
    ensures Safe(Either(a, b)) && Longest(Either(a, b)) == Max(Longest(a), Longest(b))
  {
  }

  lemma RepeatSafe(p: Pattern, low: nat, high: nat)
    requires Safe(p) && (high <= 1 || EndsApart(p) || StartsApart(p))
    ensures Safe(Repeat(p, low, high)) && Longest(Repeat(p, low, high)) == high * Longest(p)
  {
  }

  /** A piece set off by a separator literal on its left and its right. */
  lemma InfixSafe(a: Pattern, between: string, b: Pattern)
    requires Safe(a) && Safe(b) && Clean(between) && between != "" && OpensApart(between) && ClosesApart(between)
    ensures Safe(Then(a, Then(Lit(between), b)))
            && Longest(Then(a, Then(Lit(between), b))) == Longest(a) + |between| + Longest(b)
  {
    LitSafe(between);
    ThenSafe(Lit(between), b);
    ThenSafe(a, Then(Lit(between), b));
  }

  /** A literal that ends with a separator, then a piece. */
  lemma PrefixSafe(before: string, p: Pattern)
    requires Safe(p) && Clean(before) && ClosesApart(before)
    ensures Safe(Then(Lit(before), p)) && Longest(Then(Lit(before), p)) == |before| + Longest(p)
  {
    LitSafe(before);
    ThenSafe(Lit(before), p);
  }
}
