/**
 What the activity reads make of the wakes: rows, triggers, filtered calls, totals and cadence
 (api/domains/activity/repository.py).
 */
module WakeReports {
  import opened Common
  import opened Wakes

  datatype WakeRow = WakeRow(startedAt: int, endedAt: int, calls: nat, spend: real, promptTokens: real,
                             completionTokens: real, minPrompt: int, maxPrompt: int, models: set<string>)

  function At(c: Call): int { c.at }
  function Spend(c: Call): real { c.spend }
  function Prompt(c: Call): int { c.promptTokens }
  function PromptCount(c: Call): real { c.promptTokens as real }
  function CompletionCount(c: Call): real { c.completionTokens as real }

  function Least(s: seq<Call>, f: Call -> int): (m: int)
    requires s != []
    ensures forall c :: c in s ==> m <= f(c)
    ensures exists c :: c in s && f(c) == m
  {
    var last := f(s[|s| - 1]);
    if |s| == 1 then assert s[0] in s; last
    else
      var m := Least(s[..|s| - 1], f);
      assert s[|s| - 1] in s;
      if last < m then last else m
  }

  function Greatest(s: seq<Call>, f: Call -> int): (m: int)
    requires s != []
    ensures forall c :: c in s ==> f(c) <= m
    ensures exists c :: c in s && f(c) == m
  {
    var last := f(s[|s| - 1]);
    if |s| == 1 then assert s[0] in s; last
    else
      var m := Greatest(s[..|s| - 1], f);
      assert s[|s| - 1] in s;
      if last > m then last else m
  }

  /** The aggregates of one group. */
  function Row(run: seq<Call>): WakeRow
    requires run != []
  {
    WakeRow(Least(run, At), Greatest(run, At), |run|, Sum(run, Spend), Sum(run, PromptCount),
            Sum(run, CompletionCount), Least(run, Prompt), Greatest(run, Prompt), set c | c in run :: c.model)
  }

  lemma Extremes(s: seq<Call>, f: Call -> int) returns (low: Call, high: Call)
    requires s != []
    ensures low in s && f(low) == Least(s, f) && high in s && f(high) == Greatest(s, f)
  {
    var least, greatest := Least(s, f), Greatest(s, f);
    low :| low in s && f(low) == least;
    high :| high in s && f(high) == greatest;
  }

  /** The bounds of a wake are tight, and its counts and models cover exactly its calls. */
  lemma RowBounds(run: seq<Call>)
    requires run != []
    ensures var w := Row(run);
            && (forall c :: c in run ==> w.startedAt <= c.at <= w.endedAt && c.model in w.models)
            && (forall c :: c in run ==> w.minPrompt <= c.promptTokens <= w.maxPrompt)
            && (exists c :: c in run && c.at == w.startedAt) && (exists c :: c in run && c.at == w.endedAt)
            && (exists c :: c in run && c.promptTokens == w.minPrompt)
            && (exists c :: c in run && c.promptTokens == w.maxPrompt)
            && (forall m :: m in w.models ==> exists c :: c in run && c.model == m)
            && w.calls == |run| && w.completionTokens == Sum(run, CompletionCount)
  {
    var first, last := Extremes(run, At);
    var least, most := Extremes(run, Prompt);
    assert first.at == Row(run).startedAt && last.at == Row(run).endedAt;
    assert least.promptTokens == Row(run).minPrompt && most.promptTokens == Row(run).maxPrompt;
  }

  lemma RowOrderFree(a: seq<Call>, b: seq<Call>)
    requires multiset(a) == multiset(b) && a != [] && b != []
    ensures Row(a) == Row(b)
  {
    assert |multiset(a)| == |a| && |multiset(b)| == |b|;
    assert forall c :: c in a <==> c in multiset(a);
    assert forall c :: c in b <==> c in multiset(b);
    SumPermutation(a, b, Spend);
    SumPermutation(a, b, PromptCount);
    SumPermutation(a, b, CompletionCount);
  }

  /** The wake report of a window, oldest first. */
  function Report(s: seq<Call>): (rows: seq<WakeRow>) {
    SplitNonEmpty(s);
    seq(|Split(s)|, k requires 0 <= k < |Split(s)| => Row(Split(s)[k]))
  }

  /** Ties between timestamps never change the report: every figure of every wake is the same. */
  lemma ReportIsOrderFree(s: seq<Call>, r: seq<Call>)
    requires Sorted(s) && Sorted(r) && multiset(s) == multiset(r)
    ensures Report(s) == Report(r)
  {
    TieOrderIrrelevant(s, r);
    SplitNonEmpty(s);
    SplitNonEmpty(r);
    forall k | 0 <= k < |Split(s)| ensures Report(s)[k] == Report(r)[k] {
      RowOrderFree(Split(s)[k], Split(r)[k]);
    }
  }

  // ----- Intervals -----

  ghost function Offset(runs: seq<seq<Call>>, k: nat): nat
    requires k <= |runs|
  {
    |Flatten(runs[..k])|
  }

  /** A run is a contiguous slice of the calls. */
  lemma {:induction false} RunPosition(runs: seq<seq<Call>>, k: nat)
    requires k < |runs|
    ensures Offset(runs, k) + |runs[k]| <= |Flatten(runs)|
    ensures Flatten(runs)[Offset(runs, k)..Offset(runs, k) + |runs[k]|] == runs[k]
    decreases |runs|
  {
    var init := runs[..|runs| - 1];
    if k == |runs| - 1 {
      assert Flatten(runs) == Flatten(init) + runs[k];
    } else {
      RunPosition(init, k);
      assert init[..k] == runs[..k];
      assert Flatten(runs) == Flatten(init) + runs[|runs| - 1];
    }
  }

  lemma {:induction false} OffsetGrows(runs: seq<seq<Call>>, j: nat, k: nat)
    requires j < k <= |runs|
    ensures Offset(runs, j) + |runs[j]| <= Offset(runs, k)
  {
    RunPosition(runs[..k], j);
    assert runs[..k][..j] == runs[..j];
  }

  lemma EndsOfSorted(run: seq<Call>)
    requires Sorted(run) && run != []
    ensures Least(run, At) == run[0].at && Greatest(run, At) == run[|run| - 1].at
  {
    assert run[0] in run && run[|run| - 1] in run;
  }

  /** The interval of a wake runs from its first call to its last. */
  lemma RunInterval(s: seq<Call>, k: nat)
    requires Sorted(s) && k < |Split(s)|
    ensures Split(s)[k] != [] && Sorted(Split(s)[k])
    ensures Row(Split(s)[k]).startedAt == Split(s)[k][0].at
    ensures Row(Split(s)[k]).endedAt == Split(s)[k][|Split(s)[k]| - 1].at
  {
    SplitNonEmpty(s);
    RunPosition(Split(s), k);
    assert Sorted(Split(s)[k]);
    EndsOfSorted(Split(s)[k]);
  }

  lemma StartsInOrder(s: seq<Call>, j: nat, k: nat)
    requires Sorted(s) && j <= k < |Split(s)|
    ensures Split(s)[j] != [] && Split(s)[k] != [] && Split(s)[j][0].at <= Split(s)[k][0].at
  {
    SplitNonEmpty(s);
    if j < k {
      RunPosition(Split(s), j);
      RunPosition(Split(s), k);
      OffsetGrows(Split(s), j, k);
      assert Split(s)[j][0] == s[Offset(Split(s), j)] && Split(s)[k][0] == s[Offset(Split(s), k)];
    }
  }

  lemma NextRunIsFar(s: seq<Call>, j: nat)
    requires j + 1 < |Split(s)|
    ensures Far(Split(s)[j], Split(s)[j + 1])
  {
    SplitIsRunSplit(s);
  }

  lemma RunsApart(s: seq<Call>, j: nat, k: nat)
    requires Sorted(s) && j < k < |Split(s)|
    ensures Split(s)[j] != [] && Split(s)[k] != []
    ensures Split(s)[k][0].at - Split(s)[j][|Split(s)[j]| - 1].at > WAKE_GAP
  {
    NextRunIsFar(s, j);
    StartsInOrder(s, j + 1, k);
  }

  /** Different wakes lie more than WAKE_GAP apart, so their intervals are disjoint. */
  lemma IntervalsApart(s: seq<Call>, j: nat, k: nat)
    requires Sorted(s) && j < k < |Split(s)|
    ensures Split(s)[j] != [] && Split(s)[k] != []
    ensures Row(Split(s)[k]).startedAt - Row(Split(s)[j]).endedAt > 300_000_000
  {
    RunInterval(s, j);
    RunInterval(s, k);
    RunsApart(s, j, k);
  }

  // ----- Triggers and the filtered call list -----

  predicate UserTriggered(w: WakeRow, messages: seq<Message>) {
    exists m :: m in messages && m.inbound && w.startedAt - USER_LEAD <= m.at <= w.endedAt
  }

  function TriggerOf(w: WakeRow, messages: seq<Message>): Trigger {
    if UserTriggered(w, messages) then User else Background
  }

  /** The EXISTS predicate `find_calls` adds when a trigger is asked for. */
  predicate InsideWake(rows: seq<WakeRow>, messages: seq<Message>, t: Trigger, c: Call) {
    exists k :: 0 <= k < |rows| && rows[k].startedAt <= c.at <= rows[k].endedAt && TriggerOf(rows[k], messages) == t
  }

  function FindCalls(s: seq<Call>, messages: seq<Message>, t: Trigger): seq<Call> {
    Filter(s, c => InsideWake(Report(s), messages, t, c))
  }

  /** The runs whose trigger is `t`. */
  function RunsOf(s: seq<Call>, messages: seq<Message>, t: Trigger): seq<seq<Call>> {
    Filter(Split(s), run => run != [] && TriggerOf(Row(run), messages) == t)
  }

  lemma InsideOwnWakeOnly(s: seq<Call>, messages: seq<Message>, t: Trigger, k: nat, c: Call)
    requires Sorted(s) && k < |Split(s)| && c in Split(s)[k]
    ensures Split(s)[k] != []
    ensures InsideWake(Report(s), messages, t, c) <==> TriggerOf(Row(Split(s)[k]), messages) == t
  {
    RunInterval(s, k);
    var rows := Report(s);
    assert rows[k] == Row(Split(s)[k]);
    forall j | 0 <= j < |rows| && j != k ensures !(rows[j].startedAt <= c.at <= rows[j].endedAt) {
      if j < k { IntervalsApart(s, j, k); } else { IntervalsApart(s, k, j); }
    }
  }

  lemma {:induction false} FilterRuns(runs: seq<seq<Call>>, p: Call -> bool, q: seq<Call> -> bool)
    requires forall k, c :: 0 <= k < |runs| && c in runs[k] ==> p(c) == q(runs[k])
    ensures Filter(Flatten(runs), p) == Flatten(Filter(runs, q))
  {
    if runs != [] {
      var init, last := runs[..|runs| - 1], runs[|runs| - 1];
      FilterRuns(init, p, q);
      FilterConcat(Flatten(init), last, p);
      FilterUniform(last, p, q(last));
      var kept := Filter(init, q) + [last];
      assert kept[..|kept| - 1] == Filter(init, q);
      assert Flatten(runs) == Flatten(init) + last;
      assert Flatten(kept) == Flatten(Filter(init, q)) + last;
      assert Filter(runs, q) == if q(last) then kept else Filter(init, q);
    }
  }

  /** A call is listed under a trigger exactly when its own wake has that trigger. */
  lemma FindCallsIsOwnWake(s: seq<Call>, messages: seq<Message>, t: Trigger)
    requires Sorted(s)
    ensures FindCalls(s, messages, t) == Flatten(RunsOf(s, messages, t))
  {
    SplitIsRunSplit(s);
    var p := c => InsideWake(Report(s), messages, t, c);
    var q := (run: seq<Call>) => run != [] && TriggerOf(Row(run), messages) == t;
    forall k, c | 0 <= k < |Split(s)| && c in Split(s)[k] ensures p(c) == q(Split(s)[k]) {
      InsideOwnWakeOnly(s, messages, t, k, c);
    }
    FilterRuns(Split(s), p, q);
  }

  lemma CallHasOneTrigger(s: seq<Call>, messages: seq<Message>, c: Call)
    requires Sorted(s) && c in s
    ensures InsideWake(Report(s), messages, User, c) <==> !InsideWake(Report(s), messages, Background, c)
  {
    var k := OwnRun(s, c);
    InsideOwnWakeOnly(s, messages, User, k, c);
    InsideOwnWakeOnly(s, messages, Background, k, c);
  }

  /** A person's message shortly before or during these calls, read off calls and messages alone. */
  predicate Prompted(run: seq<Call>, messages: seq<Message>)
    requires run != []
  {
    exists m :: m in messages && m.inbound && run[0].at - 120_000_000 <= m.at <= run[|run| - 1].at
  }

  /**
   A call counts as started by a person exactly when an inbound message fell within two minutes before its
   burst, or in it.
   */
  lemma UserCallsArePrompted(s: seq<Call>, messages: seq<Message>, k: nat, c: Call)
    requires Sorted(s) && k < |Split(s)| && c in Split(s)[k]
    ensures Split(s)[k] != []
    ensures InsideWake(Report(s), messages, User, c) <==> Prompted(Split(s)[k], messages)
    ensures c in FindCalls(s, messages, User) <==> Prompted(Split(s)[k], messages)
    ensures c in FindCalls(s, messages, Background) <==> !Prompted(Split(s)[k], messages)
  {
    RunInterval(s, k);
    InsideOwnWakeOnly(s, messages, User, k, c);
    InsideOwnWakeOnly(s, messages, Background, k, c);
    RunMembers(s, k, c);
    FilterHas(s, x => InsideWake(Report(s), messages, User, x), c);
    FilterHas(s, x => InsideWake(Report(s), messages, Background, x), c);
  }

  lemma RunMembers(s: seq<Call>, k: nat, c: Call)
    requires k < |Split(s)| && c in Split(s)[k]
    ensures c in s
  {
    SplitNonEmpty(s);
    RunPosition(Split(s), k);
    var at := Offset(Split(s), k);
    assert c in s[at..at + |Split(s)[k]|];
  }

  lemma SameTrigger(w: WakeRow, a: seq<Message>, b: seq<Message>)
    requires forall m: Message :: m.inbound ==> (m in a <==> m in b)
    ensures TriggerOf(w, a) == TriggerOf(w, b)
  {
  }

  /** Only inbound messages matter: others change neither the listed calls nor the totals. */
  lemma OutboundIsIgnored(s: seq<Call>, a: seq<Message>, b: seq<Message>, t: Trigger)
    requires Sorted(s) && forall m: Message :: m.inbound ==> (m in a <==> m in b)
    ensures FindCalls(s, a, t) == FindCalls(s, b, t) && TriggerTotals(s, a, t) == TriggerTotals(s, b, t)
  {
    SplitNonEmpty(s);
    forall run | run in Split(s)
      ensures (run != [] && TriggerOf(Row(run), a) == t) == (run != [] && TriggerOf(Row(run), b) == t)
    {
      if run != [] { SameTrigger(Row(run), a, b); }
    }
    FilterAgree(Split(s), run => run != [] && TriggerOf(Row(run), a) == t, run => run != []
      && TriggerOf(Row(run), b) == t);
    FindCallsIsOwnWake(s, a, t);
    FindCallsIsOwnWake(s, b, t);
  }

  /** The two trigger lists partition the calls of the window. */
  lemma TriggersPartitionCalls(s: seq<Call>, messages: seq<Message>)
    requires Sorted(s)
    ensures multiset(s) == multiset(FindCalls(s, messages, User)) + multiset(FindCalls(s, messages, Background))
    ensures |s| == |FindCalls(s, messages, User)| + |FindCalls(s, messages, Background)|
  {
    forall c | c in s
      ensures InsideWake(Report(s), messages, User, c) <==> !InsideWake(Report(s), messages, Background, c)
    {
      CallHasOneTrigger(s, messages, c);
    }
    FilterComplement(s, c => InsideWake(Report(s), messages, User, c),
                     c => InsideWake(Report(s), messages, Background, c));
  }

  lemma OwnRun(s: seq<Call>, c: Call) returns (k: nat)
    requires c in s
    ensures k < |Split(s)| && c in Split(s)[k]
  {
    SplitIsRunSplit(s);
    k := RunHolding(Split(s), c);
  }

  lemma {:induction false} RunHolding(runs: seq<seq<Call>>, c: Call) returns (k: nat)
    requires c in Flatten(runs)
    ensures k < |runs| && c in runs[k]
  {
    if c in runs[|runs| - 1] { k := |runs| - 1; } else { k := RunHolding(runs[..|runs| - 1], c); }
  }

  lemma BagSnoc(s: seq<Call>, x: Call)
    ensures multiset(s + [x]) == multiset(s) + multiset{x}
  {
  }

  lemma {:induction false} FilterComplement(s: seq<Call>, p: Call -> bool, q: Call -> bool)
    requires forall c :: c in s ==> (p(c) <==> !q(c))
    ensures multiset(s) == multiset(Filter(s, p)) + multiset(Filter(s, q))
    ensures |s| == |Filter(s, p)| + |Filter(s, q)|
  {
    if s != [] {
      var init, last := s[..|s| - 1], s[|s| - 1];
      FilterComplement(init, p, q);
      assert s == init + [last];
      BagSnoc(init, last);
      BagSnoc(Filter(init, p), last);
      BagSnoc(Filter(init, q), last);
      assert p(last) <==> !q(last);
      assert Filter(s, p) == if p(last) then Filter(init, p) + [last] else Filter(init, p);
      assert Filter(s, q) == if q(last) then Filter(init, q) + [last] else Filter(init, q);
    }
  }

  // ----- Totals -----

  datatype Totals = Totals(calls: nat, spend: real, promptTokens: real)

  function CallTotals(s: seq<Call>): Totals {
    Totals(|s|, Sum(s, Spend), Sum(s, PromptCount))
  }

  function AddTotals(a: Totals, b: Totals): Totals {
    Totals(a.calls + b.calls, a.spend + b.spend, a.promptTokens + b.promptTokens)
  }

  /** Per-trigger totals, summed from wake rows. */
  function WakeTotals(runs: seq<seq<Call>>): Totals {
    if runs == [] then Totals(0, 0.0, 0.0)
    else
      var rest, run := WakeTotals(runs[..|runs| - 1]), runs[|runs| - 1];
      if run == [] then rest
      else AddTotals(rest, Totals(Row(run).calls, Row(run).spend, Row(run).promptTokens))
  }

  function TriggerTotals(s: seq<Call>, messages: seq<Message>, t: Trigger): Totals {
    WakeTotals(RunsOf(s, messages, t))
  }

  lemma {:induction false} WakeTotalsFlatten(runs: seq<seq<Call>>)
    ensures WakeTotals(runs) == CallTotals(Flatten(runs))
  {
    if runs != [] {
      var init, last := runs[..|runs| - 1], runs[|runs| - 1];
      WakeTotalsFlatten(init);
      SumConcat(Flatten(init), last, Spend);
      SumConcat(Flatten(init), last, PromptCount);
    }
  }

  /** The wake view and the call view of a trigger report the same calls, spend and prompt tokens. */
  lemma BreakdownMatchesCalls(s: seq<Call>, messages: seq<Message>, t: Trigger)
    requires Sorted(s)
    ensures TriggerTotals(s, messages, t) == CallTotals(FindCalls(s, messages, t))
  {
    FindCallsIsOwnWake(s, messages, t);
    WakeTotalsFlatten(RunsOf(s, messages, t));
  }

  /** The breakdown adds up to the window totals. */
  lemma BreakdownSumsToTotals(s: seq<Call>, messages: seq<Message>)
    requires Sorted(s)
    ensures AddTotals(TriggerTotals(s, messages, User), TriggerTotals(s, messages, Background)) == CallTotals(s)
  {
    BreakdownMatchesCalls(s, messages, User);
    BreakdownMatchesCalls(s, messages, Background);
    TriggersPartitionCalls(s, messages);
    PartitionTotals(s, FindCalls(s, messages, User), FindCalls(s, messages, Background));
  }

  lemma PartitionTotals(s: seq<Call>, a: seq<Call>, b: seq<Call>)
    requires multiset(s) == multiset(a) + multiset(b)
    ensures AddTotals(CallTotals(a), CallTotals(b)) == CallTotals(s)
  {
    assert multiset(a + b) == multiset(s);
    assert |multiset(s)| == |s| && |multiset(a + b)| == |a + b|;
    SumPermutation(s, a + b, Spend);
    SumPermutation(s, a + b, PromptCount);
    SumConcat(a, b, Spend);
    SumConcat(a, b, PromptCount);
  }

  // ----- Cadence -----

  /** Gaps between the starts of consecutive wakes. */
  function Gaps(rows: seq<WakeRow>): seq<int> {
    if |rows| < 2 then []
    else Gaps(rows[..|rows| - 1]) + [rows[|rows| - 1].startedAt - rows[|rows| - 2].startedAt]
  }

  /** percentile_cont(0.5) over ascending values: interpolated between the two middle ones. */
  function Median(ascending: seq<int>): real
    requires ascending != []
  {
    (ascending[(|ascending| - 1) / 2] + ascending[|ascending| / 2]) as real / 2.0
  }

  /** The middle value of an odd number of gaps, or the mean of the two middle ones. */
  lemma MedianIsMiddle(ascending: seq<int>, k: nat)
    ensures |ascending| == 2 * k + 1 ==> Median(ascending) == ascending[k] as real
    ensures k > 0 && |ascending| == 2 * k ==> 2.0 * Median(ascending) == ascending[k - 1] as real + ascending[k] as real
  {
  }

  /** The reported cadence in whole seconds, from the gaps in any ascending order. */
  function Cadence(ascending: seq<int>): Option<int> {
    if ascending == [] then None else Some((Median(ascending) / SECOND as real).Floor)
  }

  ghost predicate WellSpaced(rows: seq<WakeRow>) {
    forall i, j :: 0 <= i < j < |rows| ==> rows[j].startedAt - rows[i].startedAt > WAKE_GAP
  }

  lemma ReportIsWellSpaced(s: seq<Call>)
    requires Sorted(s)
    ensures WellSpaced(Report(s))
  {
    forall i, j | 0 <= i < j < |Report(s)| ensures Report(s)[j].startedAt - Report(s)[i].startedAt > WAKE_GAP {
      IntervalsApart(s, i, j);
      assert Split(s)[i][0] in Split(s)[i];
    }
  }

  lemma {:induction false} GapsAreLong(rows: seq<WakeRow>)
    requires WellSpaced(rows)
    ensures |Gaps(rows)| == if rows == [] then 0 else |rows| - 1
    ensures forall i :: 0 <= i < |Gaps(rows)| ==> Gaps(rows)[i] > WAKE_GAP
  {
    if |rows| >= 2 { GapsAreLong(rows[..|rows| - 1]); }
  }

  /** A cadence is reported exactly when there are two wakes, and is then at least the gap. */
  lemma CadenceAtLeastGap(s: seq<Call>, ascending: seq<int>)
    requires Sorted(s)
    requires multiset(ascending) == multiset(Gaps(Report(s)))
    ensures Cadence(ascending).Some? <==> |Report(s)| >= 2
    ensures Cadence(ascending).Some? ==> Cadence(ascending).value >= WAKE_GAP / SECOND == 300
  {
    ReportIsWellSpaced(s);
    CadenceOfSpaced(Report(s), ascending);
  }

  lemma CadenceOfSpaced(rows: seq<WakeRow>, ascending: seq<int>)
    requires WellSpaced(rows) && multiset(ascending) == multiset(Gaps(rows))
    ensures Cadence(ascending).Some? <==> |rows| >= 2
    ensures Cadence(ascending).Some? ==> Cadence(ascending).value >= 300
  {
    var gaps := Gaps(rows);
    GapsAreLong(rows);
    assert |multiset(ascending)| == |ascending| && |multiset(gaps)| == |gaps|;
    if ascending != [] {
      forall i | 0 <= i < |ascending| ensures ascending[i] > WAKE_GAP {
        assert ascending[i] in multiset(gaps);
      }
      MedianAbove(ascending, WAKE_GAP);
    }
  }

  lemma MedianAbove(ascending: seq<int>, bound: int)
    requires ascending != [] && forall i :: 0 <= i < |ascending| ==> ascending[i] > bound
    ensures Median(ascending) > bound as real
  {
  }
}
