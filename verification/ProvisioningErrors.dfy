/**
 The safe detail of a provisioning failure: rebuilt from matched fragments, checked against a bounded
 grammar, stored, and checked again when read (api/domains/agents/provisioning_errors.py).

 What the pattern search extracts from a message is any sequence of fragments in the patterns'
 languages, and the category is any.
 */
module ProvisioningErrors {
  import opened Common
  import opened Regex
  import opened Denylist
  import opened DetailGrammar

  const MAX_DETAIL := 500
  const MAX_QUOTA_AXES := 3

  /** The guard on both sides of storage. */
  ghost function BoundedSafeDetail(detail: Option<string>, c: Category): Option<string> {
    if detail.None? || detail.value == "" || |detail.value| > MAX_DETAIL || ContainsSensitive(detail.value) then None
    else if InGrammar(detail.value, c) then detail else None
  }

  /** The cap and the denylist are a second line of defence: the pattern alone decides. */
  lemma GrammarAloneDecides(s: string, c: Category)
    ensures BoundedSafeDetail(Some(s), c) == if InGrammar(s, c) then Some(s) else None
  {
    if InGrammar(s, c) { GrammarIsSafe(s, c); }
  }

  // ----- Rebuilding a detail -----

  /** One `axis=quantity` pair of a quota section. */
  datatype Pair = Pair(axis: string, quantity: string)

  /** A match of the quota pattern: three sections of at least one pair. */
  datatype QuotaMatch = QuotaMatch(requested: seq<Pair>, used: seq<Pair>, limited: seq<Pair>)

  datatype LimitMatch = LimitMatch(bound: string, axis: string, scope: string, limit: string, requested: string)

  /** What each pattern finds in the cluster's message, and the exception's class name. */
  datatype Findings = Findings(quota: Option<QuotaMatch>, limit: Option<LimitMatch>, denied: Option<(string, string)>,
                               kind: Option<string>, exceptionName: string)

  ghost predicate ValidSection(pairs: seq<Pair>) {
    && pairs != []
    && forall i :: 0 <= i < |pairs| ==> Matches(Axis(), pairs[i].axis) && Matches(Quantity(), pairs[i].quantity)
  }

  ghost predicate ValidFindings(f: Findings) {
    && (f.quota.Some? ==> ValidSection(f.quota.value.requested) && ValidSection(f.quota.value.used)
                          && ValidSection(f.quota.value.limited))
    && (f.limit.Some? ==> var m := f.limit.value;
          && m.axis in RANGE_AXES && m.scope in RANGE_SCOPES && m.bound in BOUNDS
          && Matches(Quantity(), m.requested) && Matches(Quantity(), m.limit))
    && (f.denied.Some? ==> f.denied.value.0 in VERBS && f.denied.value.1 in RESOURCES)
    && (f.kind.Some? ==> f.kind.value in RESOURCES)
  }

  // Text is put together here, and only here; the patterns it must match are spelled out on their own.

  function Join(separator: string, parts: seq<string>): string {
    if parts == [] then "" else if |parts| == 1 then parts[0] else parts[0] + separator + Join(separator, parts[1..])
  }

  datatype Row = Row(axis: string, requested: string, used: string, limit: string)

  function PrintRow(r: Row): string {
    r.axis + ": " + Join(", ", ["requested" + " " + r.requested, "used" + " " + r.used, "limit" + " " + r.limit])
  }

  function PrintAll(rows: seq<Row>): seq<string> { seq(|rows|, i requires 0 <= i < |rows| => PrintRow(rows[i])) }

  function PrintRows(rows: seq<Row>): string { Join("; ", PrintAll(rows)) }

  /** A dictionary built from pairs: keys in order of first appearance, the last value wins. */
  function Keys(pairs: seq<Pair>): (keys: seq<string>)
    ensures forall a :: a in keys <==> exists i :: 0 <= i < |pairs| && pairs[i].axis == a
    ensures forall i, j :: 0 <= i < j < |keys| ==> keys[i] != keys[j]
    ensures pairs != [] ==> keys != []
  {
    if pairs == [] then []
    else
      var last := pairs[|pairs| - 1].axis;
      var before := Keys(pairs[..|pairs| - 1]);
      if last in before then before else before + [last]
  }

  lemma KeyEarlier(pairs: seq<Pair>, axis: string)
    requires axis in Keys(pairs) && pairs != [] && pairs[|pairs| - 1].axis != axis
    ensures axis in Keys(pairs[..|pairs| - 1])
  {
  }

  /** Where the value of an axis comes from: its last appearance. */
  function LastIndex(pairs: seq<Pair>, axis: string): (i: nat)
    requires axis in Keys(pairs)
    ensures i < |pairs| && pairs[i].axis == axis
    ensures forall j :: i < j < |pairs| ==> pairs[j].axis != axis
  {
    var n := |pairs| - 1;
    if pairs[n].axis == axis then n
    else
      KeyEarlier(pairs, axis);
      LastIndex(pairs[..n], axis)
  }

  function ValueOf(pairs: seq<Pair>, axis: string): string
    requires axis in Keys(pairs)
  {
    pairs[LastIndex(pairs, axis)].quantity
  }

  /** Keys stand in the order of first appearance: later pairs only add keys at the end. */
  lemma {:induction false} KeysInOrder(pairs: seq<Pair>, k: nat)
    requires k <= |pairs|
    ensures Keys(pairs[..k]) <= Keys(pairs)
    decreases |pairs|
  {
    if k < |pairs| {
      var before := pairs[..|pairs| - 1];
      KeysInOrder(before, k);
      assert before[..k] == pairs[..k];
    } else {
      assert pairs[..k] == pairs;
    }
  }

  function KeySet(pairs: seq<Pair>): (keys: set<string>)
    ensures forall a :: a in keys <==> a in Keys(pairs)
  {
    set i | 0 <= i < |pairs| :: pairs[i].axis
  }

  predicate SameKeys(a: seq<Pair>, b: seq<Pair>) { KeySet(a) == KeySet(b) }

  /** The reported rows: the first three axes, in the order they were requested. */
  function QuotaRows(m: QuotaMatch): (rows: seq<Row>)
    requires SameKeys(m.requested, m.used) && SameKeys(m.requested, m.limited)
  {
    var axes := Keys(m.requested);
    var count := if |axes| < MAX_QUOTA_AXES then |axes| else MAX_QUOTA_AXES;
    seq(count, i requires 0 <= i < count => RowOf(m, axes[i]))
  }

  function RowOf(m: QuotaMatch, axis: string): Row
    requires SameKeys(m.requested, m.used) && SameKeys(m.requested, m.limited) && axis in Keys(m.requested)
  {
    KeyShared(m.requested, m.used, axis);
    KeyShared(m.requested, m.limited, axis);
    Row(axis, ValueOf(m.requested, axis), ValueOf(m.used, axis), ValueOf(m.limited, axis))
  }

  lemma KeyShared(a: seq<Pair>, b: seq<Pair>, axis: string)
    requires SameKeys(a, b) && axis in Keys(a)
    ensures axis in Keys(b)
  {
    assert axis in KeySet(a);
  }

  function QuotaDetail(m: QuotaMatch): Option<string>
    requires m.requested != []
  {
    if SameKeys(m.requested, m.used) && SameKeys(m.requested, m.limited) then Some(PrintRows(QuotaRows(m))) else None
  }

  function LimitDetail(m: LimitMatch): string {
    m.axis + " per " + m.scope + ": requested " + m.requested + ", " + m.bound + " " + m.limit
  }

  function RbacDetail(f: Findings): Option<string> {
    if f.denied.Some? then Some("cannot " + f.denied.value.0 + " " + f.denied.value.1)
    else if f.kind.Some? then Some("creating " + f.kind.value)
    else None
  }

  /** The rebuilt detail, before the guard. */
  ghost function Rebuilt(c: Category, f: Findings): Option<string>
    requires ValidFindings(f)
  {
    match c
    case QuotaExhausted => if f.quota.Some? then QuotaDetail(f.quota.value) else None
    case LimitExceeded => if f.limit.Some? then Some(LimitDetail(f.limit.value)) else None
    case ClusterPermissionDenied => RbacDetail(f)
    case Unknown => if f.exceptionName in EXCEPTION_NAMES then Some(f.exceptionName) else None
    case _ => None
  }

  lemma ValuesValid(pairs: seq<Pair>, axis: string)
    requires ValidSection(pairs) && axis in Keys(pairs)
    ensures Matches(Axis(), axis) && Matches(Quantity(), ValueOf(pairs, axis))
  {
  }

  ghost predicate ValidRow(r: Row) {
    && Matches(Axis(), r.axis)
    && Matches(Quantity(), r.requested) && Matches(Quantity(), r.used) && Matches(Quantity(), r.limit)
  }

  predicate Matched(m: QuotaMatch, r: Row) {
    Pair(r.axis, r.requested) in m.requested && Pair(r.axis, r.used) in m.used && Pair(r.axis, r.limit) in m.limited
  }

  /** The rows report the first three requested axes, each with figures matched for it. */
  lemma QuotaRowsReport(m: QuotaMatch)
    requires ValidSection(m.requested) && ValidSection(m.used) && ValidSection(m.limited)
    requires SameKeys(m.requested, m.used) && SameKeys(m.requested, m.limited)
    ensures 1 <= |QuotaRows(m)| <= MAX_QUOTA_AXES
    ensures |QuotaRows(m)| < MAX_QUOTA_AXES ==> |QuotaRows(m)| == |Keys(m.requested)|
    ensures |QuotaRows(m)| <= |Keys(m.requested)|
    ensures forall i :: 0 <= i < |QuotaRows(m)| ==> QuotaRows(m)[i].axis == Keys(m.requested)[i]
    ensures forall i :: 0 <= i < |QuotaRows(m)| ==> ValidRow(QuotaRows(m)[i]) && Matched(m, QuotaRows(m)[i])
  {
    forall i | 0 <= i < |QuotaRows(m)| ensures ValidRow(QuotaRows(m)[i]) && Matched(m, QuotaRows(m)[i]) {
      RowReports(m, Keys(m.requested)[i]);
    }
  }

  lemma RowReports(m: QuotaMatch, axis: string)
    requires ValidSection(m.requested) && ValidSection(m.used) && ValidSection(m.limited)
    requires SameKeys(m.requested, m.used) && SameKeys(m.requested, m.limited) && axis in Keys(m.requested)
    ensures ValidRow(RowOf(m, axis)) && Matched(m, RowOf(m, axis)) && RowOf(m, axis).axis == axis
    ensures Pair(axis, RowOf(m, axis).requested) in m.requested && Pair(axis, RowOf(m, axis).used) in m.used
    ensures Pair(axis, RowOf(m, axis).limit) in m.limited
  {
    KeyShared(m.requested, m.used, axis);
    KeyShared(m.requested, m.limited, axis);
    ValuesValid(m.requested, axis); ValuesValid(m.used, axis); ValuesValid(m.limited, axis);
  }

  /** A detail is rebuilt exactly when its category's pattern found what it needs, and says what was found. */
  lemma RebuiltReports(c: Category, f: Findings)
    requires ValidFindings(f)
    ensures Rebuilt(c, f).Some? <==>
              || (c == QuotaExhausted && f.quota.Some? && SameKeys(f.quota.value.requested, f.quota.value.used)
                  && SameKeys(f.quota.value.requested, f.quota.value.limited))
              || (c == LimitExceeded && f.limit.Some?)
              || (c == ClusterPermissionDenied && (f.denied.Some? || f.kind.Some?))
              || (c == Unknown && f.exceptionName in EXCEPTION_NAMES)
    ensures Rebuilt(c, f).Some? && c == QuotaExhausted ==> Rebuilt(c, f).value == PrintRows(QuotaRows(f.quota.value))
    ensures Rebuilt(c, f).Some? && c == LimitExceeded ==>
              var m := f.limit.value;
              Rebuilt(c, f).value
              == m.axis + " per " + m.scope + ": requested " + m.requested + ", " + m.bound + " " + m.limit
    ensures Rebuilt(c, f).Some? && c == ClusterPermissionDenied ==>
              Rebuilt(c, f).value == if f.denied.Some? then "cannot " + f.denied.value.0 + " " + f.denied.value.1
                                     else "creating " + f.kind.value
    ensures Rebuilt(c, f).Some? && c == Unknown ==> Rebuilt(c, f).value == f.exceptionName
  {
  }

  // ----- What is printed matches the stored patterns -----

  lemma MatchText(text: string)
    ensures Matches(Lit(text), text)
  {
  }

  lemma MatchWord(words: seq<string>, word: string)
    requires word in words
    ensures Matches(OneOf(words), word)
  {
  }

  /** Two pieces with fixed text between them. */
  lemma MatchAround(a: Pattern, text: string, b: Pattern, s: string, t: string)
    requires Matches(a, s) && Matches(b, t)
    ensures Matches(Then(a, Then(Lit(text), b)), s + (text + t))
  {
    MatchText(text);
    MatchThen(Lit(text), b, text, t);
    MatchThen(a, Then(Lit(text), b), s, text + t);
  }

  lemma JoinThree(separator: string, a: string, b: string, c: string)
    ensures Join(separator, [a, b, c]) == a + separator + (b + separator + c)
  {
    var parts := [a, b, c];
    assert parts[1..] == [b, c] && [b, c][1..] == [c];
    assert Join(separator, [b, c]) == b + separator + Join(separator, [c]);
    assert Join(separator, parts) == a + separator + Join(separator, [b, c]);
  }

  lemma PrintedRow(r: Row)
    ensures PrintRow(r) == r.axis + (": requested " + (r.requested + (", used " + (r.used + (", limit " + r.limit)))))
  {
    JoinThree(", ", "requested" + " " + r.requested, "used" + " " + r.used, "limit" + " " + r.limit);
  }

  lemma RowMatches(r: Row)
    requires ValidRow(r)
    ensures Matches(QuotaRow(), PrintRow(r))
  {
    var q := Quantity();
    MatchAround(q, ", limit ", q, r.used, r.limit);
    var used, usedText := Then(q, Then(Lit(", limit "), q)), r.used + (", limit " + r.limit);
    MatchAround(q, ", used ", used, r.requested, usedText);
    var requested, requestedText := Then(q, Then(Lit(", used "), used)), r.requested + (", used " + usedText);
    MatchAround(Axis(), ": requested ", requested, r.axis, requestedText);
    PrintedRow(r);
  }

  /** Joined texts after the first, each with its separator. */
  function Further(texts: seq<string>): string {
    if texts == [] then "" else ("; " + texts[0]) + Further(texts[1..])
  }

  lemma {:induction false} JoinedTexts(texts: seq<string>)
    requires texts != []
    ensures Join("; ", texts) == texts[0] + Further(texts[1..])
  {
    if |texts| > 1 {
      JoinedTexts(texts[1..]);
      assert Further(texts[1..]) == "; " + texts[1] + Further(texts[1..][1..]);
    }
  }

  lemma {:induction false} FurtherMatches(further: Pattern, texts: seq<string>, high: nat)
    requires |texts| <= high && forall i :: 0 <= i < |texts| ==> Matches(further, "; " + texts[i])
    ensures MatchesTimes(further, 0, high, Further(texts))
  {
    if texts != [] {
      FurtherMatches(further, texts[1..], high - 1);
      MatchOnceMore(further, 0, high - 1, "; " + texts[0], Further(texts[1..]));
    }
  }

  lemma RowsMatch(row: Pattern, texts: seq<string>)
    requires 1 <= |texts| <= MAX_QUOTA_AXES && forall i :: 0 <= i < |texts| ==> Matches(row, texts[i])
    ensures Matches(Then(row, Repeat(Then(Lit("; "), row), 0, 2)), Join("; ", texts))
  {
    var further, rest := Then(Lit("; "), row), texts[1..];
    forall i | 0 <= i < |rest| ensures Matches(further, "; " + rest[i]) {
      MatchText("; ");
      MatchThen(Lit("; "), row, "; ", rest[i]);
    }
    FurtherMatches(further, rest, 2);
    JoinedTexts(texts);
    MatchThen(row, Repeat(further, 0, 2), texts[0], Further(rest));
  }

  lemma QuotaMatches(rows: seq<Row>)
    requires 1 <= |rows| <= MAX_QUOTA_AXES && forall i :: 0 <= i < |rows| ==> ValidRow(rows[i])
    ensures Matches(StoredQuota(), PrintRows(rows))
  {
    forall i | 0 <= i < |rows| ensures Matches(QuotaRow(), PrintAll(rows)[i]) { RowMatches(rows[i]); }
    RowsMatch(QuotaRow(), PrintAll(rows));
  }

  lemma LimitText(m: LimitMatch)
    ensures LimitDetail(m) ==
            m.axis + (" per " + (m.scope + (": requested " + (m.requested + (", " + (m.bound + (" " + m.limit)))))))
  {
  }

  lemma LimitTextMatches(axis: Pattern, scope: Pattern, quantity: Pattern, bound: Pattern, m: LimitMatch)
    requires Matches(axis, m.axis) && Matches(scope, m.scope) && Matches(bound, m.bound)
    requires Matches(quantity, m.requested) && Matches(quantity, m.limit)
    ensures Matches(Then(axis, Then(Lit(" per "), Then(scope, Then(Lit(": requested "), Then(quantity,
                      Then(Lit(", "), Then(bound, Then(Lit(" "), quantity)))))))), LimitDetail(m))
  {
    MatchAround(bound, " ", quantity, m.bound, m.limit);
    var bounded, boundText := Then(bound, Then(Lit(" "), quantity)), m.bound + (" " + m.limit);
    MatchAround(quantity, ", ", bounded, m.requested, boundText);
    var request, requestText := Then(quantity, Then(Lit(", "), bounded)), m.requested + (", " + boundText);
    MatchAround(scope, ": requested ", request, m.scope, requestText);
    var scoped, scopeText := Then(scope, Then(Lit(": requested "), request)), m.scope + (": requested " + requestText);
    MatchAround(axis, " per ", scoped, m.axis, scopeText);
    LimitText(m);
  }

  lemma LimitMatches(m: LimitMatch)
    requires m.axis in RANGE_AXES && m.scope in RANGE_SCOPES && m.bound in BOUNDS
    requires Matches(Quantity(), m.requested) && Matches(Quantity(), m.limit)
    ensures Matches(StoredLimit(), LimitDetail(m))
  {
    MatchWord(RANGE_AXES, m.axis); MatchWord(RANGE_SCOPES, m.scope); MatchWord(BOUNDS, m.bound);
    LimitTextMatches(OneOf(RANGE_AXES), OneOf(RANGE_SCOPES), Quantity(), OneOf(BOUNDS), m);
  }

  lemma Regroup(a: string, b: string, c: string, d: string)
    ensures a + b + c + d == a + (b + (c + d))
  {
  }

  lemma DeniedTextMatches(verbs: Pattern, resources: Pattern, verb: string, resource: string)
    requires Matches(verbs, verb) && Matches(resources, resource)
    ensures Matches(Then(Lit("cannot "), Then(verbs, Then(Lit(" "), resources))), "cannot " + verb + " " + resource)
  {
    MatchAround(verbs, " ", resources, verb, resource);
    MatchText("cannot ");
    MatchThen(Lit("cannot "), Then(verbs, Then(Lit(" "), resources)), "cannot ", verb + (" " + resource));
    Regroup("cannot ", verb, " ", resource);
  }

  lemma DeniedMatches(verb: string, resource: string)
    requires verb in VERBS && resource in RESOURCES
    ensures Matches(StoredRbac(), "cannot " + verb + " " + resource)
  {
    MatchWord(VERBS, verb);
    MatchWord(RESOURCES, resource);
    DeniedTextMatches(OneOf(VERBS), OneOf(RESOURCES), verb, resource);
  }

  lemma CreatingMatches(resource: string)
    requires resource in RESOURCES
    ensures Matches(StoredRbac(), "creating " + resource)
  {
    MatchWord(RESOURCES, resource);
    MatchText("creating ");
    MatchThen(Lit("creating "), OneOf(RESOURCES), "creating ", resource);
  }

  /** Whatever is rebuilt matches the stored pattern of its category. */
  lemma RebuiltInGrammar(c: Category, f: Findings)
    requires ValidFindings(f) && Rebuilt(c, f).Some?
    ensures InGrammar(Rebuilt(c, f).value, c)
  {
    match c
    case QuotaExhausted =>
      QuotaRowsReport(f.quota.value);
      QuotaMatches(QuotaRows(f.quota.value));
    case LimitExceeded => LimitMatches(f.limit.value);
    case ClusterPermissionDenied =>
      if f.denied.Some? { DeniedMatches(f.denied.value.0, f.denied.value.1); } else { CreatingMatches(f.kind.value); }
    case Unknown =>
    case _ =>
  }

  /** Hence the guard passes it unchanged: it is clean and at most 484 characters long. */
  lemma RebuiltIsAccepted(c: Category, f: Findings)
    requires ValidFindings(f) && Rebuilt(c, f).Some?
    ensures BoundedSafeDetail(Rebuilt(c, f), c) == Rebuilt(c, f)
    ensures Clean(Rebuilt(c, f).value) && |Rebuilt(c, f).value| <= 484
  {
    RebuiltInGrammar(c, f);
    GrammarIsSafe(Rebuilt(c, f).value, c);
  }

  // ----- Normalizing, storing and reading back -----

  datatype Operation = Start | Backup | Restore

  /** The fixed copy: a lead for the operation, then the condition of the category. */
  datatype Summary = Summary(lead: Operation, condition: Category)

  datatype Normalized = Normalized(code: string, category: Category, summary: Summary, detail: Option<string>)

  function ErrorCode(c: Category): string {
    match c
    case QuotaExhausted => "QUOTA_EXHAUSTED"
    case LimitExceeded => "LIMIT_EXCEEDED"
    case ClusterPermissionDenied => "CLUSTER_PERMISSION_DENIED"
    case ResourceRejected => "RESOURCE_REJECTED"
    case NamespaceMissing => "NAMESPACE_MISSING"
    case ClusterUnavailable => "CLUSTER_UNAVAILABLE"
    case Unknown => "PROVISIONING_FAILED"
  }

  /** The inverse dictionary, looked up with `Unknown` as the default. */
  ghost function CategoryByCode(code: string): Category {
    if c :| ErrorCode(c) == code then c else Unknown
  }

  lemma CodesIdentify(c: Category, d: Category)
    requires ErrorCode(c) == ErrorCode(d)
    ensures c == d
  {
    assert ErrorCode(c)[..2] == ErrorCode(d)[..2];
  }

  lemma CategoryOfCode(c: Category)
    ensures CategoryByCode(ErrorCode(c)) == c
  {
    CodesIdentify(c, CategoryByCode(ErrorCode(c)));
  }

  function ForCategory(c: Category, detail: Option<string>, operation: Operation): Normalized {
    Normalized(ErrorCode(c), c, Summary(operation, c), detail)
  }

  ghost function Normalize(c: Category, f: Findings, operation: Operation): Normalized
    requires ValidFindings(f)
  {
    ForCategory(c, BoundedSafeDetail(Rebuilt(c, f), c), operation)
  }

  ghost function Persisted(code: Option<string>, detail: Option<string>, legacyMessage: string): Option<Normalized> {
    if code.None? then (if legacyMessage != "" then Some(ForCategory(Unknown, None, Start)) else None)
    else
      var c := CategoryByCode(code.value);
      Some(ForCategory(c, BoundedSafeDetail(detail, c), Start))
  }

  /**
   A start failure stored as code and detail reads back as the same error, detail and all. Only start
   failures are stored this way: the lead of the summary is the one part a row does not carry, and it is
   read back as that of a start.
   */
  lemma StoredErrorReadsBack(c: Category, f: Findings, operation: Operation, legacyMessage: string)
    requires ValidFindings(f)
    ensures var n := Normalize(c, f, operation);
      && n.detail == Rebuilt(c, f)
      && Persisted(Some(n.code), n.detail, legacyMessage) == Some(n.(summary := Summary(Start, c)))
      && (Persisted(Some(n.code), n.detail, legacyMessage) == Some(n) <==> operation == Start)
  {
    CategoryOfCode(c);
    if Rebuilt(c, f).Some? { RebuiltIsAccepted(c, f); }
  }

  /** A row without a code is a failure from before codes if it has a message, and no failure otherwise. */
  lemma LegacyRow(detail: Option<string>, legacyMessage: string)
    ensures Persisted(None, detail, "") == None
    ensures legacyMessage != "" ==>
              Persisted(None, detail, legacyMessage)
              == Some(Normalized("PROVISIONING_FAILED", Unknown, Summary(Start, Unknown), None))
  {
  }

  /** Whatever a row holds, what is read from it is safe, and storing that again reads back the same. */
  lemma ReadIsSafeAndStable(code: Option<string>, detail: Option<string>, legacyMessage: string)
    requires Persisted(code, detail, legacyMessage).Some?
    ensures var n := Persisted(code, detail, legacyMessage).value;
      && n.code == ErrorCode(n.category)
      && (code.None? ==> n.category == Unknown && n.detail == None)
      && (n.detail.Some? ==> n.detail == detail && InGrammar(n.detail.value, n.category)
                             && Clean(n.detail.value) && |n.detail.value| <= 484)
      && Persisted(Some(n.code), n.detail, legacyMessage) == Some(n)
  {
    var n := Persisted(code, detail, legacyMessage).value;
    CategoryOfCode(n.category);
    if n.detail.Some? { GrammarIsSafe(n.detail.value, n.category); }
  }

  /** A quota or limit rejection found in an event's text: the quota pattern is tried first. */
  ghost function ClusterRejection(f: Findings): Option<(Category, string)>
    requires ValidFindings(f)
  {
    var quota := BoundedSafeDetail(Rebuilt(QuotaExhausted, f), QuotaExhausted);
    var limit := BoundedSafeDetail(Rebuilt(LimitExceeded, f), LimitExceeded);
    if quota.Some? then Some((QuotaExhausted, quota.value))
    else if limit.Some? then Some((LimitExceeded, limit.value))
    else None
  }

  /** Nothing extracted is lost to the guard, and nothing else is passed on. */
  lemma RejectionIsReported(f: Findings)
    requires ValidFindings(f)
    ensures ClusterRejection(f) ==
      if Rebuilt(QuotaExhausted, f).Some? then Some((QuotaExhausted, Rebuilt(QuotaExhausted, f).value))
      else if Rebuilt(LimitExceeded, f).Some? then Some((LimitExceeded, Rebuilt(LimitExceeded, f).value))
      else None
  {
    if Rebuilt(QuotaExhausted, f).Some? { RebuiltIsAccepted(QuotaExhausted, f); }
    if Rebuilt(LimitExceeded, f).Some? { RebuiltIsAccepted(LimitExceeded, f); }
  }
}
