/**
 Validation of the alert threshold list (api/core/config.py): text in, canonical text out.
 Numbers are read as Python's `int` reads ASCII text: blanks around, an optional sign, digits with
 single underscores between them.
 */
module Thresholds {
  import opened Common

  const FALLBACK := "80,100"

  datatype Parsed<T> = Ok(value: T) | Malformed | OutOfRange

  // ----- Text -----

  predicate IsBlank(c: char) { c == ' ' || '\t' <= c <= '\r' || '\U{1c}' <= c <= '\U{1f}' }
  predicate IsDigit(c: char) { '0' <= c <= '9' }

  function Strip(s: string): string {
    if s == "" then ""
    else if IsBlank(s[0]) then Strip(s[1..])
    else if IsBlank(s[|s| - 1]) then Strip(s[..|s| - 1])
    else s
  }

  function Split(s: string): (parts: seq<string>)
    ensures parts != []
  {
    if s == "" then [""]
    else
      var rest := Split(s[1..]);
      if s[0] == ',' then [""] + rest else [[s[0]] + rest[0]] + rest[1..]
  }

  function Join(parts: seq<string>): string
    requires parts != []
  {
    if |parts| == 1 then parts[0] else parts[0] + "," + Join(parts[1..])
  }

  lemma {:induction false} SplitPart(part: string, rest: string)
    requires ',' !in part
    ensures Split(part + "," + rest) == [part] + Split(rest)
  {
    var s := part + "," + rest;
    if part == "" {
      assert s[1..] == rest;
    } else {
      SplitPart(part[1..], rest);
      assert s[1..] == part[1..] + "," + rest;
      assert [s[0]] + part[1..] == part;
    }
  }

  lemma {:induction false} SplitLone(part: string)
    requires ',' !in part
    ensures Split(part) == [part]
  {
    if part != "" {
      SplitLone(part[1..]);
      assert [part[0]] + part[1..] == part;
    }
  }

  /** Splitting undoes joining for parts without commas. */
  lemma {:induction false} SplitJoin(parts: seq<string>)
    requires parts != [] && forall i :: 0 <= i < |parts| ==> ',' !in parts[i]
    ensures Split(Join(parts)) == parts
  {
    if |parts| == 1 {
      SplitLone(parts[0]);
    } else {
      SplitJoin(parts[1..]);
      SplitPart(parts[0], Join(parts[1..]));
    }
  }

  // ----- Numbers -----

  function DigitValue(c: char): int { c as int - '0' as int }

  /** Digits with single underscores between digits, most significant first; the string ends in a digit. */
  function ParseDigits(s: string): Option<int> {
    if s == "" || !IsDigit(s[|s| - 1]) then None
    else if |s| == 1 then Some(DigitValue(s[0]))
    else
      var head := if s[|s| - 2] == '_' then s[..|s| - 2] else s[..|s| - 1];
      var high := ParseDigits(head);
      if high.None? then None else Some(10 * high.value + DigitValue(s[|s| - 1]))
  }

  function ParseInt(text: string): Option<int> {
    var s := Strip(text);
    if s == "" then None
    else if s[0] == '+' then ParseDigits(s[1..])
    else if s[0] == '-' then (var n := ParseDigits(s[1..]); if n.None? then None else Some(-n.value))
    else ParseDigits(s)
  }

  function Digit(n: nat): char
    requires n < 10
  {
    ('0' as int + n) as char
  }

  function Print(n: nat): string {
    if n < 10 then [Digit(n)] else Print(n / 10) + [Digit(n % 10)]
  }

  lemma {:induction false} PrintIsDigits(n: nat)
    ensures Print(n) != "" && forall i :: 0 <= i < |Print(n)| ==> IsDigit(Print(n)[i])
  {
    if n >= 10 { PrintIsDigits(n / 10); }
  }

  lemma {:induction false} ParsePrint(n: nat)
    ensures ParseInt(Print(n)) == Some(n) && ',' !in Print(n)
  {
    PrintIsDigits(n);
    ParseDigitsPrint(n);
    assert Strip(Print(n)) == Print(n);
  }

  lemma {:induction false} ParseDigitsPrint(n: nat)
    ensures ParseDigits(Print(n)) == Some(n)
  {
    if n >= 10 {
      PrintIsDigits(n / 10);
      ParseDigitsPrint(n / 10);
      var s := Print(n);
      assert s[..|s| - 1] == Print(n / 10);
    }
  }

  // ----- The list -----

  // ----- What `int` reads -----

  /** Space, the line and tab characters, and the four separator controls. */
  lemma BlankIs(c: char)
    ensures IsBlank(c) <==> c as int in {9, 10, 11, 12, 13, 28, 29, 30, 31, 32}
  {
  }

  lemma {:induction false} StripLast(s: string, c: char)
    requires IsBlank(c)
    ensures Strip(s + [c]) == Strip(s)
  {
    var t := s + [c];
    if s == "" {
      assert t[1..] == "";
    } else if IsBlank(s[0]) {
      assert t[1..] == s[1..] + [c];
      StripLast(s[1..], c);
    } else {
      assert t[..|t| - 1] == s;
    }
  }

  /** Blanks around a number do not matter. */
  lemma BlanksAreStripped(s: string, c: char)
    requires IsBlank(c)
    ensures ParseInt([c] + s) == ParseInt(s) && ParseInt(s + [c]) == ParseInt(s)
  {
    assert ([c] + s)[1..] == s;
    StripLast(s, c);
  }

  /** A sign is read. */
  lemma SignIsRead(n: int)
    requires n >= 0
    ensures ParseInt("+" + Print(n)) == Some(n) && ParseInt("-" + Print(n)) == Some(-n)
  {
    PrintIsDigits(n);
    ParseDigitsPrint(n);
    var plus, minus := "+" + Print(n), "-" + Print(n);
    assert plus[1..] == Print(n) && minus[1..] == Print(n);
    assert plus[|plus| - 1] == Print(n)[|Print(n)| - 1] && minus[|minus| - 1] == Print(n)[|Print(n)| - 1];
    assert Strip(plus) == plus && Strip(minus) == minus;
  }

  /** An underscore between digits is skipped. */
  lemma UnderscoreIsSkipped(s: string, d: char)
    requires s != "" && IsDigit(s[|s| - 1]) && IsDigit(d)
    ensures ParseDigits(s + "_" + [d]) == ParseDigits(s + [d])
  {
    ParseStep(s + "_" + [d], s, d);
    ParseStep(s + [d], s, d);
  }

  lemma ParseStep(text: string, head: string, d: char)
    requires head != "" && IsDigit(head[|head| - 1]) && IsDigit(d) && (text == head + [d] || text == head + "_" + [d])
    ensures ParseDigits(text)
         == var high := ParseDigits(head); if high.None? then None else Some(10 * high.value + DigitValue(d))
  {
    assert text[|text| - 1] == d && |text| > 1;
    if text == head + "_" + [d] {
      assert text[|text| - 2] == '_' && text[..|text| - 2] == head;
    } else {
      assert text[|text| - 2] == head[|head| - 1] && text[..|text| - 1] == head;
    }
  }

  /** Nothing but digits and underscores is read as a number, and no underscore first or last. */
  lemma {:induction false} OnlyDigitsAreRead(s: string)
    requires ParseDigits(s).Some?
    ensures s != "" && IsDigit(s[0]) && IsDigit(s[|s| - 1]) && forall c :: c in s ==> IsDigit(c) || c == '_'
  {
    if |s| > 1 {
      var head := if s[|s| - 2] == '_' then s[..|s| - 2] else s[..|s| - 1];
      OnlyDigitsAreRead(head);
      assert s == if s[|s| - 2] == '_' then head + ['_'] + [s[|s| - 1]] else head + [s[|s| - 1]];
    }
  }

  function ParseAll(parts: seq<string>): Option<seq<int>> {
    if parts == [] then Some([])
    else
      var n, rest := ParseInt(parts[0]), ParseAll(parts[1..]);
      if n.None? || rest.None? then None else Some([n.value] + rest.value)
  }

  ghost predicate Ascending(s: seq<int>) { forall i, j :: 0 <= i < j < |s| ==> s[i] < s[j] }

  function Insert(x: int, s: seq<int>): seq<int> {
    if s == [] || x < s[0] then [x] + s
    else if x == s[0] then s
    else [s[0]] + Insert(x, s[1..])
  }

  /** sorted({...}): ascending, without repeats. */
  function SortedSet(s: seq<int>): seq<int> {
    if s == [] then [] else Insert(s[0], SortedSet(s[1..]))
  }

  lemma {:induction false} InsertAscends(x: int, s: seq<int>)
    requires Ascending(s)
    ensures Ascending(Insert(x, s)) && forall y :: y in Insert(x, s) <==> y == x || y in s
  {
    if s != [] && x > s[0] {
      InsertAscends(x, s[1..]);
      var r := Insert(x, s[1..]);
      assert s == [s[0]] + s[1..];
      forall i | 0 <= i < |r| ensures s[0] < r[i] { assert r[i] in r; }
    } else if s != [] {
      assert s[0] in s;
    }
  }

  lemma {:induction false} SortedSetAscends(s: seq<int>)
    ensures Ascending(SortedSet(s)) && forall y :: y in SortedSet(s) <==> y in s
  {
    if s != [] {
      SortedSetAscends(s[1..]);
      InsertAscends(s[0], SortedSet(s[1..]));
      assert s == [s[0]] + s[1..];
    }
  }

  lemma {:induction false} SortedSetOfAscending(s: seq<int>)
    requires Ascending(s)
    ensures SortedSet(s) == s
  {
    if s != [] {
      SortedSetOfAscending(s[1..]);
      assert s == [s[0]] + s[1..];
    }
  }

  function PrintAll(ns: seq<nat>): seq<string> {
    seq(|ns|, i requires 0 <= i < |ns| => Print(ns[i]))
  }

  /** A list alerts can use: ascending percentages ending at the enforcement boundary. */
  ghost predicate Valid(ts: seq<int>) {
    && ts != [] && Ascending(ts) && ts[|ts| - 1] == 100
    && forall i :: 0 <= i < |ts| ==> 1 <= ts[i] <= 100
  }

  function Validated(ns: seq<int>): Parsed<seq<nat>>
  {
    var sorted := SortedSet(ns);
    if sorted == [] || sorted[0] < 1 || sorted[|sorted| - 1] > 100 then OutOfRange
    else
      SortedSetAscends(ns);
      assert forall i :: 0 <= i < |sorted| ==> sorted[0] <= sorted[i];
      if sorted[|sorted| - 1] != 100 then Ok(sorted + [100]) else Ok(sorted)
  }

  /** The stored text for a setting; a missing or blank one is the fallback. */
  function Validate(value: Option<string>): Parsed<string> {
    if value.None? || Strip(value.value) == "" then Ok(FALLBACK)
    else
      match ParseAll(Split(value.value))
      case None => Malformed
      case Some(ns) =>
        match Validated(ns)
        case Ok(ts) => if ts == [] then OutOfRange else Ok(Join(PrintAll(ts)))
        case Malformed => Malformed
        case OutOfRange => OutOfRange
  }

  /** The list read back from stored text. */
  function Thresholds(stored: string): Option<seq<int>> { ParseAll(Split(stored)) }

  /**
   A setting is refused as malformed exactly when one of its parts is no number, and a blank one means the
   fallback.
   */
  lemma MalformedIff(text: string)
    ensures Validate(None) == Ok("80,100") && (Strip(text) == "" ==> Validate(Some(text)) == Ok("80,100"))
    ensures Strip(text) != "" ==>
              (Validate(Some(text)) == Malformed <==>
                 exists i :: 0 <= i < |Split(text)| && ParseInt(Split(text)[i]).None?)
  {
    if Strip(text) != "" { MalformedWhenUnread(text); }
    ParseAllIff(Split(text));
  }

  lemma MalformedWhenUnread(text: string)
    requires Strip(text) != ""
    ensures Validate(Some(text)) == Malformed <==> ParseAll(Split(text)).None?
  {
  }

  lemma {:induction false} ParseAllIff(parts: seq<string>)
    ensures ParseAll(parts).Some? <==> forall i :: 0 <= i < |parts| ==> ParseInt(parts[i]).Some?
    ensures ParseAll(parts).Some? ==>
              |ParseAll(parts).value| == |parts|
              && forall i :: 0 <= i < |parts| ==> ParseInt(parts[i]) == Some(ParseAll(parts).value[i])
  {
    if parts != [] { ParseAllIff(parts[1..]); }
  }

  lemma {:induction false} ParseAllPrinted(ns: seq<nat>)
    ensures ParseAll(PrintAll(ns)) == Some(ns)
  {
    if ns != [] {
      ParseAllPrinted(ns[1..]);
      ParsePrint(ns[0]);
      assert PrintAll(ns)[1..] == PrintAll(ns[1..]);
      assert ns == [ns[0]] + ns[1..];
    }
  }

  lemma ReadBack(ts: seq<nat>)
    requires ts != []
    ensures Thresholds(Join(PrintAll(ts))) == Some(ts)
  {
    forall i | 0 <= i < |ts| ensures ',' !in PrintAll(ts)[i] { ParsePrint(ts[i]); }
    SplitJoin(PrintAll(ts));
    ParseAllPrinted(ts);
  }

  /** The bounds of the sorted list bound the numbers. */
  lemma SortedBounds(ns: seq<int>)
    ensures SortedSet(ns) == [] <==> ns == []
    ensures ns != [] ==>
              var sorted := SortedSet(ns);
              && sorted != [] && sorted[0] in ns && sorted[|sorted| - 1] in ns
              && forall n :: n in ns ==> sorted[0] <= n <= sorted[|sorted| - 1]
  {
    var sorted := SortedSet(ns);
    SortedSetAscends(ns);
    if ns != [] {
      assert ns[0] in ns && ns[0] in sorted;
      assert sorted[0] in sorted && sorted[|sorted| - 1] in sorted;
    } else {
      assert sorted == [];
    }
  }

  /** Accepted exactly when there is a number and all lie in range. */
  lemma AcceptedIff(ns: seq<int>)
    ensures Validated(ns).Ok? <==> ns != [] && forall n :: n in ns ==> 1 <= n <= 100
  {
    SortedBounds(ns);
  }

  /** An accepted list is read as its numbers and 100, ascending. */
  lemma AcceptedIsValid(ns: seq<int>)
    requires Validated(ns).Ok?
    ensures Valid(Validated(ns).value) && forall n :: n in Validated(ns).value <==> n in ns || n == 100
  {
    SortedSetAscends(ns);
    var sorted := SortedSet(ns);
    assert forall i :: 0 <= i < |sorted| ==> 1 <= sorted[i] <= 100;
    if sorted[|sorted| - 1] == 100 { assert 100 in sorted; }
  }

  lemma ValidIsFixed(ns: seq<int>)
    requires Valid(ns)
    ensures Validated(ns) == Ok(ns)
  {
    SortedSetOfAscending(ns);
  }

  lemma ValidatedIsValid(ns: seq<int>)
    ensures Validated(ns).Ok? <==> ns != [] && forall n :: n in ns ==> 1 <= n <= 100
    ensures Validated(ns).Ok? ==>
              && Valid(Validated(ns).value)
              && forall n :: n in Validated(ns).value <==> n in ns || n == 100
    ensures Valid(ns) ==> Validated(ns) == Ok(ns)
  {
    AcceptedIff(ns);
    if Validated(ns).Ok? { AcceptedIsValid(ns); }
    if Valid(ns) { ValidIsFixed(ns); }
  }

  lemma {:induction false} JoinNotBlank(parts: seq<string>)
    requires parts != [] && parts[0] != "" && IsDigit(parts[0][0])
    ensures Strip(Join(parts)) != ""
  {
    var s := Join(parts);
    assert s[0] == parts[0][0];
    StripKeepsFirst(s);
  }

  lemma {:induction false} StripKeepsFirst(s: string)
    requires s != "" && !IsBlank(s[0])
    ensures Strip(s) != ""
  {
    if IsBlank(s[|s| - 1]) { StripKeepsFirst(s[..|s| - 1]); }
  }

  lemma FallbackIsCanonical()
    ensures Join(PrintAll([80, 100])) == FALLBACK && Valid([80, 100])
  {
    assert Print(80) == "80" by { assert Print(8) == "8"; }
    assert Print(100) == "100" by { assert Print(10) == "10" by { assert Print(1) == "1"; } }
    assert PrintAll([80, 100]) == ["80", "100"];
    assert ["80", "100"][1..] == ["100"];
    assert Join(["100"]) == "100";
  }

  /** Whatever was configured, the stored text reads back as a valid list and validates to itself. */
  lemma ValidateIsIdempotent(value: Option<string>)
    requires Validate(value).Ok?
    ensures var stored := Validate(value).value;
            && Thresholds(stored).Some? && Valid(Thresholds(stored).value)
            && Validate(Some(stored)) == Ok(stored)
  {
    FallbackIsCanonical();
    var ts: seq<nat>;
    if value.None? || Strip(value.value) == "" {
      ts := [80, 100];
    } else {
      var ns := ParseAll(Split(value.value)).value;
      ts := Validated(ns).value;
      ValidatedIsValid(ns);
    }
    assert Validate(value).value == Join(PrintAll(ts));
    ReadBack(ts);
    ValidatedIsValid(ts);
    PrintIsDigits(ts[0]);
    JoinNotBlank(PrintAll(ts));
  }
}
