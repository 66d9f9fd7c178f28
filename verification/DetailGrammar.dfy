/**
 The patterns stored provisioning details must match in full (api/domains/agents/provisioning_errors.py),
 transcribed as patterns. Whatever they match is free of denylisted words and well below the length cap.
 */
module DetailGrammar {
  import opened Common
  import opened Regex
  import opened Denylist

  datatype Category = QuotaExhausted | LimitExceeded | ClusterPermissionDenied | ResourceRejected
                    | NamespaceMissing | ClusterUnavailable | Unknown

  // ----- The patterns -----

  const RESOURCES := ["pods", "persistentvolumeclaims", "services", "configmaps", "deployments", "replicasets",
                      "statefulsets", "daemonsets", "jobs", "cronjobs", "replicationcontrollers", "resourcequotas"]
  const REQUEST_AXES := ["storage", "cpu", "memory", "ephemeral-storage"]
  const LIMIT_AXES := ["cpu", "memory", "ephemeral-storage"]
  const BARE_AXES := ["cpu", "memory"]
  const SERVICE_AXES := ["nodeports", "loadbalancers"]
  const GROUPS := ["apps", "batch"]
  const RANGE_AXES := ["storage", "cpu", "memory", "ephemeral-storage"]
  const RANGE_SCOPES := ["PersistentVolumeClaim", "Container", "Pod"]
  const BOUNDS := ["maximum", "minimum"]
  const VERBS := ["create", "get", "update", "delete", "list", "watch", "patch"]
  const EXCEPTION_NAMES := ["ValueError", "RuntimeError", "TypeError", "KeyError", "ApiException"]

  function Digits(low: nat, high: nat): Pattern { Repeat(Class("0123456789"), low, high) }

  function Counted(): Pattern { Then(OneOf(RESOURCES), Optional(Then(Lit("."), OneOf(GROUPS)))) }

  function Axis(): Pattern {
    Either(Then(Lit("requests."), OneOf(REQUEST_AXES)),
    Either(Then(Lit("limits."), OneOf(LIMIT_AXES)),
    Either(OneOf(BARE_AXES),
    Either(Then(Lit("services."), OneOf(SERVICE_AXES)),
    Either(OneOf(RESOURCES), Then(Lit("count/"), Counted()))))))
  }

  function Exponent(): Pattern { Then(Then(Class("eE"), Optional(Class("+-"))), Digits(1, 3)) }

  function Unit(): Pattern {
    Either(Then(Class("EPTGMK"), Lit("i")), Either(Class("numkKMGTPE"), Exponent()))
  }

  function Quantity(): Pattern {
    Then(Digits(1, 18), Then(Optional(Then(Lit("."), Digits(1, 9))), Optional(Unit())))
  }

  function QuotaRow(): Pattern {
    Then(Axis(), Then(Lit(": requested "), Then(Quantity(), Then(Lit(", used "), Then(Quantity(),
      Then(Lit(", limit "), Quantity()))))))
  }

  function FurtherRow(): Pattern { Then(Lit("; "), QuotaRow()) }

  function StoredQuota(): Pattern { Then(QuotaRow(), Repeat(FurtherRow(), 0, 2)) }

  function StoredLimit(): Pattern {
    Then(OneOf(RANGE_AXES), Then(Lit(" per "), Then(OneOf(RANGE_SCOPES), Then(Lit(": requested "), Then(Quantity(),
      Then(Lit(", "), Then(OneOf(BOUNDS), Then(Lit(" "), Quantity()))))))))
  }

  function DeniedVerb(): Pattern { Then(Lit("cannot "), Then(OneOf(VERBS), Then(Lit(" "), OneOf(RESOURCES)))) }
  function CreatingKind(): Pattern { Then(Lit("creating "), OneOf(RESOURCES)) }

  function StoredRbac(): Pattern { Either(DeniedVerb(), CreatingKind()) }

  /** The pattern of a category; categories without one store no detail. */
  function StoredPattern(c: Category): Option<Pattern> {
    match c
    case QuotaExhausted => Some(StoredQuota())
    case LimitExceeded => Some(StoredLimit())
    case ClusterPermissionDenied => Some(StoredRbac())
    case Unknown => Some(OneOf(EXCEPTION_NAMES))
    case _ => None
  }

  ghost predicate InGrammar(s: string, c: Category) {
    StoredPattern(c).Some? && Matches(StoredPattern(c).value, s)
  }

  // ----- The fixed words are clean -----

  lemma ResourceWordsA()
    ensures Clean("pods") && Clean("services") && Clean("configmaps") && Clean("deployments")
  {
    assert HarmlessFrom("deployments", 4);
    HarmlessClean("pods");
    HarmlessClean("services");
    HarmlessClean("configmaps");
    HarmlessClean("deployments");
  }

  lemma ResourceWordsB()
    ensures Clean("replicasets") && Clean("statefulsets")
  {
    assert HarmlessFrom("replicasets", 4);
    assert HarmlessFrom("statefulsets", 5);
    HarmlessClean("replicasets");
    HarmlessClean("statefulsets");
  }

  lemma ResourceWordsC()
    ensures Clean("daemonsets") && Clean("jobs") && Clean("cronjobs") && Clean("resourcequotas")
  {
    assert HarmlessFrom("resourcequotas", 7) && HarmlessFrom("resourcequotas", 1);
    HarmlessClean("daemonsets");
    HarmlessClean("jobs");
    HarmlessClean("cronjobs");
    HarmlessClean("resourcequotas");
  }

  lemma ResourceWordsD()
    ensures Clean("persistentvolumeclaims")
  {
    assert HarmlessFrom("persistentvolumeclaims", 15) && HarmlessFrom("persistentvolumeclaims", 9)
      && HarmlessFrom("persistentvolumeclaims", 3);
    HarmlessClean("persistentvolumeclaims");
  }

  lemma ResourceWordsE()
    ensures Clean("replicationcontrollers")
  {
    assert HarmlessFrom("replicationcontrollers", 15) && HarmlessFrom("replicationcontrollers", 9)
      && HarmlessFrom("replicationcontrollers", 3);
    HarmlessClean("replicationcontrollers");
  }

  lemma AxisWordsA()
    ensures Clean("storage") && Clean("cpu") && Clean("memory") && Clean("nodeports")
  {
    HarmlessClean("storage");
    HarmlessClean("cpu");
    HarmlessClean("memory");
    HarmlessClean("nodeports");
  }

  lemma AxisWordsB()
    ensures Clean("ephemeral-storage")
  {
    assert HarmlessFrom("ephemeral-storage", 10) && HarmlessFrom("ephemeral-storage", 4);
    HarmlessClean("ephemeral-storage");
  }

  lemma AxisWordsC()
    ensures Clean("loadbalancers") && Clean("requests.") && Clean("limits.")
  {
    assert HarmlessFrom("loadbalancers", 6);
    HarmlessClean("loadbalancers");
    HarmlessClean("requests.");
    HarmlessClean("limits.");
  }

  lemma AxisWordsD()
    ensures Clean("services.") && Clean("count/") && Clean("apps") && Clean("batch")
  {
    HarmlessClean("services.");
    HarmlessClean("count/");
    HarmlessClean("apps");
    HarmlessClean("batch");
  }

  lemma RowWords()
    ensures Clean(": requested ") && Clean(", used ") && Clean(", limit ")
  {
    assert HarmlessFrom(": requested ", 5);
    HarmlessClean(": requested ");
    HarmlessClean(", used ");
    HarmlessClean(", limit ");
  }

  lemma LimitWordsA()
    ensures Clean("maximum") && Clean("minimum") && Clean(" per ") && Clean("Container") && Clean("Pod")
  {
    HarmlessClean("maximum");
    HarmlessClean("minimum");
    HarmlessClean(" per ");
    HarmlessClean("Container");
    HarmlessClean("Pod");
  }

  lemma LimitWordsB()
    ensures Clean("PersistentVolumeClaim")
  {
    assert HarmlessFrom("PersistentVolumeClaim", 14) && HarmlessFrom("PersistentVolumeClaim", 8)
      && HarmlessFrom("PersistentVolumeClaim", 2);
    HarmlessClean("PersistentVolumeClaim");
  }

  lemma VerbWords()
    ensures Clean("create") && Clean("get") && Clean("update") && Clean("delete") && Clean("list") && Clean("watch")
            && Clean("patch")
  {
    HarmlessClean("create");
    HarmlessClean("get");
    HarmlessClean("update");
    HarmlessClean("delete");
    HarmlessClean("list");
    HarmlessClean("watch");
    HarmlessClean("patch");
  }

  lemma RbacWords()
    ensures Clean("cannot ") && Clean("creating ")
  {
    HarmlessClean("cannot ");
    HarmlessClean("creating ");
  }

  lemma ExceptionWordsA()
    ensures Clean("ValueError") && Clean("RuntimeError")
  {
    assert HarmlessFrom("RuntimeError", 5);
    HarmlessClean("ValueError");
    HarmlessClean("RuntimeError");
  }

  lemma ExceptionWordsB()
    ensures Clean("TypeError") && Clean("KeyError") && Clean("ApiException")
  {
    assert HarmlessFrom("ApiException", 5);
    HarmlessClean("TypeError");
    HarmlessClean("KeyError");
    HarmlessClean("ApiException");
  }

  predicate AllClean(words: seq<string>) { forall w :: w in words ==> Clean(w) }

  lemma ResourcesClean()
    ensures AllClean(RESOURCES)
  {
    ResourceWordsA(); ResourceWordsB(); ResourceWordsC(); ResourceWordsD(); ResourceWordsE();
  }

  lemma AxesClean()
    ensures AllClean(REQUEST_AXES) && AllClean(LIMIT_AXES) && AllClean(BARE_AXES) && AllClean(SERVICE_AXES)
    ensures AllClean(RANGE_AXES)
  {
    AxisWordsA(); AxisWordsB(); AxisWordsC();
  }

  lemma OtherWordsClean()
    ensures AllClean(GROUPS) && AllClean(BOUNDS) && AllClean(RANGE_SCOPES) && AllClean(VERBS)
  {
    AxisWordsD(); LimitWordsA(); LimitWordsB(); VerbWords();
  }

  lemma ExceptionNamesClean()
    ensures AllClean(EXCEPTION_NAMES)
  {
    ExceptionWordsA(); ExceptionWordsB();
  }

  // ----- The patterns pass the check -----

  /** The pattern generates clean texts only, the longest of them `n` characters long. */
  predicate Fits(p: Pattern, n: nat) { Safe(p) && Longest(p) == n }

  lemma WordsFit(words: seq<string>)
    requires AllClean(words)
    ensures Fits(OneOf(words), LongestWord(words))
  {
    OneOfSafe(words);
  }

  lemma ResourcesFit()
    ensures Fits(OneOf(RESOURCES), 22)
  {
    ResourcesClean();
    WordsFit(RESOURCES);
    assert LongestWord(RESOURCES[6..]) == 22;
  }

  lemma {:induction false} WordLengths()
    ensures LongestWord(REQUEST_AXES) == LongestWord(RANGE_AXES) == LongestWord(LIMIT_AXES) == 17
    ensures LongestWord(BARE_AXES) == 6 && LongestWord(SERVICE_AXES) == 13 && LongestWord(GROUPS) == 5
  {
    assert LIMIT_AXES[1..] == ["memory", "ephemeral-storage"];
    assert RANGE_AXES[1..] == LIMIT_AXES;
    assert REQUEST_AXES[1..] == LIMIT_AXES;
  }

  lemma NoDigitIsWord()
    ensures forall c :: c in "0123456789" ==> !WordChar(c)
  {
  }

  lemma ClassFits(chars: string, low: nat, high: nat)
    requires forall c :: c in chars ==> !WordChar(c)
    ensures Fits(Repeat(Class(chars), low, high), high)
    ensures StartsApart(Repeat(Class(chars), low, high)) && EndsApart(Repeat(Class(chars), low, high))
  {
    RepeatSafe(Class(chars), low, high);
  }

  lemma DigitsFit(low: nat, high: nat)
    ensures Fits(Digits(low, high), high) && StartsApart(Digits(low, high)) && EndsApart(Digits(low, high))
  {
    NoDigitIsWord();
    ClassFits("0123456789", low, high);
  }

  lemma GroupsFit()
    ensures Fits(OneOf(GROUPS), 5)
  {
    OtherWordsClean();
    WordsFit(GROUPS);
    WordLengths();
  }

  lemma SuffixFits(p: Pattern, mark: string, q: Pattern, m: nat, n: nat)
    requires Fits(p, m) && Fits(q, n) && |mark| == 1 && !WordChar(mark[0])
    ensures Fits(Then(p, Optional(Then(Lit(mark), q))), m + n + 1)
  {
    ShortClean(mark);
    PrefixSafe(mark, q);
    RepeatSafe(Then(Lit(mark), q), 0, 1);
    assert StartsApart(Lit(mark)) && StartsApart(Then(Lit(mark), q));
    ThenSafe(p, Optional(Then(Lit(mark), q)));
  }

  lemma AxisFits()
    ensures Fits(Axis(), 34)
  {
    AxesClean(); AxisWordsC(); AxisWordsD(); WordLengths();
    WordsFit(REQUEST_AXES); WordsFit(LIMIT_AXES); WordsFit(BARE_AXES); WordsFit(SERVICE_AXES);
    ResourcesFit();
    GroupsFit();
    AxisFitsFor(OneOf(REQUEST_AXES), OneOf(LIMIT_AXES), OneOf(BARE_AXES), OneOf(SERVICE_AXES), OneOf(RESOURCES),
                OneOf(GROUPS));
  }

  lemma AxisFitsFor(requests: Pattern, limits: Pattern, bare: Pattern, services: Pattern, resources: Pattern,
                    groups: Pattern)
    requires Fits(requests, 17) && Fits(limits, 17) && Fits(bare, 6) && Fits(services, 13) && Fits(resources, 22)
             && Fits(groups, 5)
    requires Clean("requests.") && Clean("limits.") && Clean("services.") && Clean("count/")
    ensures Fits(Either(Then(Lit("requests."), requests),
                 Either(Then(Lit("limits."), limits),
                 Either(bare,
                 Either(Then(Lit("services."), services),
                 Either(resources, Then(Lit("count/"), Then(resources, Optional(Then(Lit("."), groups))))))))), 34)
  {
    var counted := Then(resources, Optional(Then(Lit("."), groups)));
    SuffixFits(resources, ".", groups, 22, 5);
    PrefixSafe("requests.", requests); PrefixSafe("limits.", limits); PrefixSafe("services.", services);
    PrefixSafe("count/", counted);
    var kinds := Either(resources, Then(Lit("count/"), counted));
    EitherSafe(resources, Then(Lit("count/"), counted));
    var more := Either(Then(Lit("services."), services), kinds);
    EitherSafe(Then(Lit("services."), services), kinds);
    EitherSafe(bare, more);
    EitherSafe(Then(Lit("limits."), limits), Either(bare, more));
    EitherSafe(Then(Lit("requests."), requests), Either(Then(Lit("limits."), limits), Either(bare, more)));
  }

  lemma UnitFits()
    ensures Fits(Unit(), 5)
  {
    var sign := Then(Class("eE"), Optional(Class("+-")));
    assert Longest(Optional(Class("+-"))) == 1 && Longest(sign) == 2;
    DigitsFit(1, 3);
    ThenSafe(sign, Digits(1, 3));
    var binary := Then(Class("EPTGMK"), Lit("i"));
    assert Longest(binary) == 2;
    EitherSafe(Class("numkKMGTPE"), Exponent());
    EitherSafe(binary, Either(Class("numkKMGTPE"), Exponent()));
  }

  lemma QuantityFits()
    ensures Fits(Quantity(), 33)
  {
    UnitFits();
    DigitsFit(1, 18); DigitsFit(1, 9);
    var fraction := Then(Lit("."), Digits(1, 9));
    ShortClean(".");
    PrefixSafe(".", Digits(1, 9));
    assert EndsApart(fraction) && StartsApart(fraction);
    RepeatSafe(fraction, 0, 1);
    RepeatSafe(Unit(), 0, 1);
    ThenSafe(Optional(fraction), Optional(Unit()));
    ThenSafe(Digits(1, 18), Then(Optional(fraction), Optional(Unit())));
  }

  lemma RowFits()
    ensures Fits(QuotaRow(), 160) && NeverEmpty(QuotaRow())
  {
    AxisFits(); QuantityFits(); RowWords();
    RowFitsFor(Axis(), Quantity());
  }

  lemma RowFitsFor(axis: Pattern, quantity: Pattern)
    requires Fits(axis, 34) && Fits(quantity, 33) && Clean(": requested ") && Clean(", used ") && Clean(", limit ")
    ensures var row := Then(axis, Then(Lit(": requested "), Then(quantity, Then(Lit(", used "), Then(quantity,
                         Then(Lit(", limit "), quantity))))));
            Fits(row, 160) && NeverEmpty(row)
  {
    InfixSafe(quantity, ", limit ", quantity);
    var limit := Then(quantity, Then(Lit(", limit "), quantity));
    InfixSafe(quantity, ", used ", limit);
    InfixSafe(axis, ": requested ", Then(quantity, Then(Lit(", used "), limit)));
    assert NeverEmpty(Then(Lit(": requested "), Then(quantity, Then(Lit(", used "), limit))));
  }

  lemma QuotaFits()
    ensures Fits(StoredQuota(), 484) && NeverEmpty(StoredQuota())
  {
    RowFits();
    RowsFitFor(QuotaRow());
  }

  lemma RowsFitFor(row: Pattern)
    requires Fits(row, 160) && NeverEmpty(row)
    ensures var rows := Then(row, Repeat(Then(Lit("; "), row), 0, 2)); Fits(rows, 484) && NeverEmpty(rows)
  {
    ShortClean("; ");
    PrefixSafe("; ", row);
    var further := Then(Lit("; "), row);
    assert OpensApart("; ") && NeverEmpty(Lit("; "));
    assert StartsApart(Lit("; ")) && StartsApart(further);
    RepeatSafe(further, 0, 2);
    ThenSafe(row, Repeat(further, 0, 2));
  }

  lemma LimitFits()
    ensures Fits(StoredLimit(), 131) && NeverEmpty(StoredLimit())
  {
    AxesClean(); OtherWordsClean(); WordLengths(); RowWords(); LimitWordsA(); QuantityFits();
    WordsFit(RANGE_AXES); WordsFit(RANGE_SCOPES); WordsFit(BOUNDS);
    LimitFitsFor(OneOf(RANGE_AXES), OneOf(RANGE_SCOPES), OneOf(BOUNDS), Quantity());
  }

  lemma LimitFitsFor(axis: Pattern, scope: Pattern, bound: Pattern, quantity: Pattern)
    requires Fits(axis, 17) && Fits(scope, 21) && Fits(bound, 7) && Fits(quantity, 33)
    requires Clean(" per ") && Clean(": requested ")
    ensures var limit := Then(axis, Then(Lit(" per "), Then(scope, Then(Lit(": requested "), Then(quantity,
                           Then(Lit(", "), Then(bound, Then(Lit(" "), quantity))))))));
            Fits(limit, 131) && NeverEmpty(limit)
  {
    ShortClean(", ");
    ShortClean(" ");
    InfixSafe(bound, " ", quantity);
    var bounded := Then(bound, Then(Lit(" "), quantity));
    InfixSafe(quantity, ", ", bounded);
    var requested := Then(quantity, Then(Lit(", "), bounded));
    InfixSafe(scope, ": requested ", requested);
    var scoped := Then(scope, Then(Lit(": requested "), requested));
    InfixSafe(axis, " per ", scoped);
    assert NeverEmpty(Then(Lit(" per "), scoped));
  }

  lemma RbacFits()
    ensures Fits(StoredRbac(), 36) && NeverEmpty(StoredRbac())
  {
    ResourcesFit(); OtherWordsClean(); RbacWords();
    WordsFit(VERBS);
    RbacFitsFor(OneOf(VERBS), OneOf(RESOURCES));
  }

  lemma RbacFitsFor(verb: Pattern, resource: Pattern)
    requires Fits(verb, 6) && Fits(resource, 22) && Clean("cannot ") && Clean("creating ")
    ensures var rbac := Either(Then(Lit("cannot "), Then(verb, Then(Lit(" "), resource))),
                               Then(Lit("creating "), resource));
            Fits(rbac, 36) && NeverEmpty(rbac)
  {
    ShortClean(" ");
    InfixSafe(verb, " ", resource);
    var denied := Then(verb, Then(Lit(" "), resource));
    PrefixSafe("cannot ", denied);
    PrefixSafe("creating ", resource);
    EitherSafe(Then(Lit("cannot "), denied), Then(Lit("creating "), resource));
  }

  lemma NamesFit()
    ensures Fits(OneOf(EXCEPTION_NAMES), 12) && NeverEmpty(OneOf(EXCEPTION_NAMES))
  {
    ExceptionNamesClean();
    WordsFit(EXCEPTION_NAMES);
  }

  /** The pattern of every category passes the check, is never empty, and stays within 484 characters. */
  lemma PatternFits(c: Category)
    requires StoredPattern(c).Some?
    ensures var p := StoredPattern(c).value; Safe(p) && NeverEmpty(p) && Longest(p) <= 484
  {
    match c
    case QuotaExhausted => QuotaFits();
    case LimitExceeded => LimitFits();
    case ClusterPermissionDenied => RbacFits();
    case Unknown => NamesFit();
    case _ =>
  }

  /** Nothing the pattern of any category matches is empty, long or sensitive. */
  lemma GrammarIsSafe(s: string, c: Category)
    requires InGrammar(s, c)
    ensures Clean(s) && 1 <= |s| <= 484
  {
    var p := StoredPattern(c).value;
    PatternFits(c);
    SafeMatchIsClean(p, s);
    MatchIsBounded(p, s);
    MatchIsNotEmpty(p, s);
  }

  lemma QuantityInhabited()
    ensures Inhabited(Quantity())
  {
  }

  lemma AxisInhabited()
    ensures Inhabited(Axis())
  {
  }

  lemma RowsInhabited(axis: Pattern, quantity: Pattern)
    requires Inhabited(axis) && Inhabited(quantity)
    ensures var row := Then(axis, Then(Lit(": requested "), Then(quantity, Then(Lit(", used "), Then(quantity,
                         Then(Lit(", limit "), quantity))))));
            Inhabited(Then(row, Repeat(Then(Lit("; "), row), 0, 2)))
  {
    var limit := Then(quantity, Then(Lit(", limit "), quantity));
    assert Inhabited(limit);
    var used := Then(quantity, Then(Lit(", used "), limit));
    assert Inhabited(used);
    var row := Then(axis, Then(Lit(": requested "), used));
    assert Inhabited(row);
    assert Inhabited(Then(Lit("; "), row));
  }

  lemma QuotaInhabited()
    ensures Inhabited(StoredQuota())
  {
    AxisInhabited();
    QuantityInhabited();
    RowsInhabited(Axis(), Quantity());
  }

  lemma QuotaLength()
    ensures Longest(StoredQuota()) == 484
  {
    QuotaFits();
  }

  /** The bound is exact: some quota detail has 484 characters. */
  lemma LongestDetail() returns (s: string)
    ensures InGrammar(s, QuotaExhausted) && |s| == 484
  {
    QuotaLength();
    QuotaInhabited();
    s := LongestOccurs(StoredQuota());
  }
}
