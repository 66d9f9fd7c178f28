/**
 Wake sessionization (api/domains/activity/repository.py).

 The rows of one Agent inside one window are a bag of calls. The relational query numbers wakes with
 a gap marker over `lag` and a running sum whose RANGE frame includes peers, groups by that number and
 labels each group from message timing. Rows that share a timestamp may be visited in any order, so
 the query is modelled on an arbitrary linearization `s` of the bag that is sorted by time.
 Instants are microseconds.
 */
module Wakes {
  import opened Common

  const WAKE_GAP := 300_000_000
  const USER_LEAD := 120_000_000
  const SECOND := 1_000_000

  datatype Call = Call(at: int, spend: real, promptTokens: int, completionTokens: int, model: string)
  datatype Message = Message(at: int, inbound: bool)
  datatype Trigger = User | Background

  ghost predicate Sorted(s: seq<Call>) {
    forall i, j :: 0 <= i < j < |s| ==> s[i].at <= s[j].at
  }

  // ----- The relational pipeline -----

  /** The gap marker: 1 on the first row and on every row more than WAKE_GAP after the previous one. */
  function StartsWake(s: seq<Call>, i: nat): nat
    requires i < |s|
  {
    if i == 0 then 1 else if s[i].at - s[i - 1].at > WAKE_GAP then 1 else 0
  }

  /** The running sum at time `t` over the first `n` rows. RANGE framing: every row up to `t`, peers included. */
  function RunningSum(s: seq<Call>, t: int, n: nat): nat
    requires n <= |s|
  {
    if n == 0 then 0
    else RunningSum(s, t, n - 1) + if s[n - 1].at <= t then StartsWake(s, n - 1) else 0
  }

  function WakeIndex(s: seq<Call>, i: nat): nat
    requires i < |s|
  {
    RunningSum(s, s[i].at, |s|)
  }

  /** GROUP BY wake_index: the rows among the first `n` whose index is `k`. */
  function GroupOf(s: seq<Call>, k: nat, n: nat): seq<Call>
    requires n <= |s|
  {
    if n == 0 then []
    else GroupOf(s, k, n - 1) + if WakeIndex(s, n - 1) == k then [s[n - 1]] else []
  }

  // ----- The reference: maximal runs -----

  /** The recursive split: a call joins the last run unless the gap before it is too long. */
  function Split(s: seq<Call>): (runs: seq<seq<Call>>)
    ensures s != [] ==> runs != []
  {
    if s == [] then []
    else
      var runs := Split(s[..|s| - 1]);
      var x := s[|s| - 1];
      if |s| == 1 || x.at - s[|s| - 2].at > WAKE_GAP then runs + [[x]]
      else runs[..|runs| - 1] + [runs[|runs| - 1] + [x]]
  }

  /** What makes `runs` the maximal-run decomposition of `s`. */
  ghost predicate IsRunSplit(s: seq<Call>, runs: seq<seq<Call>>) {
    && Flatten(runs) == s
    && (forall k :: 0 <= k < |runs| ==> runs[k] != [] && Together(runs[k]))
    && Apart(runs)
  }

  /** Consecutive runs are far from each other. */
  ghost predicate Apart(runs: seq<seq<Call>>) {
    forall j, k :: 0 <= j < k < |runs| && k == j + 1 ==> Far(runs[j], runs[k])
  }

  /** Neighbours in a run are near each other. */
  ghost predicate Together(run: seq<Call>) {
    forall i, j :: 0 <= i < j < |run| && j == i + 1 ==> Near(run[i], run[j])
  }

  predicate Near(a: Call, b: Call) { b.at - a.at <= 300_000_000 }

  predicate Far(a: seq<Call>, b: seq<Call>) {
    a != [] && b != [] && b[0].at - a[|a| - 1].at > 300_000_000
  }

  lemma TogetherWith(run: seq<Call>, x: Call)
    requires Together(run) && run != [] && Near(run[|run| - 1], x)
    ensures Together(run + [x])
  {
  }

  lemma TogetherWithout(run: seq<Call>)
    requires Together(run) && run != []
    ensures Together(run[..|run| - 1])
  {
  }

  lemma ApartWith(runs: seq<seq<Call>>, run: seq<Call>)
    requires Apart(runs) && (runs == [] || Far(runs[|runs| - 1], run))
    ensures Apart(runs + [run])
  {
    var longer := runs + [run];
    forall j, k | 0 <= j < k < |longer| && k == j + 1 ensures Far(longer[j], longer[k]) {
      if k < |runs| { assert Far(runs[j], runs[k]); }
    }
  }

  /** A call far from the end opens a new run. */
  lemma OpenRun(s: seq<Call>, runs: seq<seq<Call>>, x: Call)
    requires IsRunSplit(s, runs)
    requires s == [] || x.at - s[|s| - 1].at > WAKE_GAP
    ensures IsRunSplit(s + [x], runs + [[x]])
  {
    LastCall(s, runs);
    FlattenSnoc(runs, [x]);
    ApartWith(runs, [x]);
  }

  lemma FlattenSnoc(runs: seq<seq<Call>>, run: seq<Call>)
    ensures Flatten(runs + [run]) == Flatten(runs) + run
  {
    assert (runs + [run])[..|runs|] == runs;
  }

  /** A call near the end joins the last run. */
  lemma ExtendRun(s: seq<Call>, runs: seq<seq<Call>>, x: Call)
    requires IsRunSplit(s, runs)
    requires s != [] && Near(s[|s| - 1], x)
    ensures runs != []
    ensures IsRunSplit(s + [x], runs[..|runs| - 1] + [runs[|runs| - 1] + [x]])
  {
    var k := |runs| - 1;
    LastCall(s, runs);
    var longer := runs[..k] + [runs[k] + [x]];
    assert longer[..k] == runs[..k];
    assert Flatten(longer) == Flatten(runs[..k]) + (runs[k] + [x]) == s + [x];
    assert Apart(longer) by {
      forall i, j | 0 <= i < j < |longer| && j == i + 1 ensures Far(longer[i], longer[j]) {
        assert Far(runs[i], runs[j]);
      }
    }
    TogetherWith(runs[k], x);
  }

  lemma LastCall(s: seq<Call>, runs: seq<seq<Call>>)
    requires IsRunSplit(s, runs)
    ensures s != [] <==> runs != []
    ensures s != [] ==> runs[|runs| - 1] != [] && s[|s| - 1] == runs[|runs| - 1][|runs[|runs| - 1]| - 1]
  {
    if runs != [] {
      assert s == Flatten(runs[..|runs| - 1]) + runs[|runs| - 1];
    }
  }

  lemma {:induction false} SplitIsRunSplit(s: seq<Call>)
    ensures IsRunSplit(s, Split(s))
  {
    if s != [] {
      var init, x := s[..|s| - 1], s[|s| - 1];
      SplitIsRunSplit(init);
      assert s == init + [x];
      if |s| == 1 || x.at - s[|s| - 2].at > WAKE_GAP {
        OpenRun(init, Split(init), x);
      } else {
        ExtendRun(init, Split(init), x);
      }
    }
  }

  lemma SplitNonEmpty(s: seq<Call>)
    ensures Flatten(Split(s)) == s
    ensures forall k :: 0 <= k < |Split(s)| ==> Split(s)[k] != []
  {
    SplitIsRunSplit(s);
  }

  /** Removing the last call of a run split leaves a run split that `Split` extends back to it. */
  lemma DropLast(s: seq<Call>, runs: seq<seq<Call>>) returns (shorter: seq<seq<Call>>)
    requires IsRunSplit(s, runs) && s != []
    ensures IsRunSplit(s[..|s| - 1], shorter)
    ensures shorter == Split(s[..|s| - 1]) ==> runs == Split(s)
  {
    LastCall(s, runs);
    var k := |runs| - 1;
    var last := runs[k];
    if |last| == 1 {
      shorter := runs[..k];
      DropLoneRun(s, runs);
      assert last == [s[|s| - 1]];
      ExtendsLoneRun(s, runs);
    } else {
      shorter := Shortened(runs);
      ShortenLastRun(s, runs);
      LastPair(s, runs);
      assert shorter[..k] == runs[..k];
      assert last == last[..|last| - 1] + [s[|s| - 1]];
      ExtendsLastRun(s, runs, shorter);
    }
  }

  lemma DropLoneRun(s: seq<Call>, runs: seq<seq<Call>>)
    requires IsRunSplit(s, runs) && runs != [] && |runs[|runs| - 1]| == 1
    ensures |s| > 0 && IsRunSplit(s[..|s| - 1], runs[..|runs| - 1])
    ensures |s| == 1 || s[|s| - 1].at - s[|s| - 2].at > WAKE_GAP
  {
    var k := |runs| - 1;
    var init := s[..|s| - 1];
    assert init == Flatten(runs[..k]);
    if k > 0 {
      LastCall(init, runs[..k]);
      assert Far(runs[k - 1], runs[k]);
    }
  }

  lemma ExtendsLoneRun(s: seq<Call>, runs: seq<seq<Call>>)
    requires s != [] && runs != [] && runs[|runs| - 1] == [s[|s| - 1]]
    requires |s| == 1 || s[|s| - 1].at - s[|s| - 2].at > WAKE_GAP
    ensures runs[..|runs| - 1] == Split(s[..|s| - 1]) ==> runs == Split(s)
  {
    assert runs == runs[..|runs| - 1] + [runs[|runs| - 1]];
  }

  /** The runs without the last call. */
  function Shortened(runs: seq<seq<Call>>): (shorter: seq<seq<Call>>)
    requires runs != [] && runs[|runs| - 1] != []
    ensures |shorter| == |runs| && forall k :: 0 <= k < |runs| - 1 ==> shorter[k] == runs[k]
  {
    var last := runs[|runs| - 1];
    runs[..|runs| - 1] + [last[..|last| - 1]]
  }

  lemma ShortenedFlatten(runs: seq<seq<Call>>)
    requires runs != [] && runs[|runs| - 1] != []
    ensures Flatten(runs) != [] && Flatten(Shortened(runs)) == Flatten(runs)[..|Flatten(runs)| - 1]
  {
    var k := |runs| - 1;
    var init, last := Flatten(runs[..k]), runs[k];
    assert Shortened(runs)[..k] == runs[..k];
    assert Flatten(runs) == init + last;
    assert Flatten(Shortened(runs)) == init + last[..|last| - 1];
  }

  lemma ShortenedFar(runs: seq<seq<Call>>, i: nat, j: nat)
    requires runs != [] && |runs[|runs| - 1]| > 1 && i < j < |runs| && Far(runs[i], runs[j])
    ensures Far(Shortened(runs)[i], Shortened(runs)[j])
  {
  }

  lemma ShortenLastRun(s: seq<Call>, runs: seq<seq<Call>>)
    requires IsRunSplit(s, runs) && runs != [] && |runs[|runs| - 1]| > 1
    ensures s != [] && IsRunSplit(s[..|s| - 1], Shortened(runs))
  {
    var shorter := Shortened(runs);
    ShortenedFlatten(runs);
    TogetherWithout(runs[|runs| - 1]);
    assert Apart(shorter) by {
      forall i, j | 0 <= i < j < |shorter| && j == i + 1 ensures Far(shorter[i], shorter[j]) {
        ShortenedFar(runs, i, j);
      }
    }
  }

  /** The last two calls of a split whose last run holds both. */
  lemma LastPair(s: seq<Call>, runs: seq<seq<Call>>)
    requires IsRunSplit(s, runs) && runs != [] && |runs[|runs| - 1]| > 1
    ensures |s| > 1 && Near(s[|s| - 2], s[|s| - 1])
  {
    var last := runs[|runs| - 1];
    assert s == Flatten(runs[..|runs| - 1]) + last;
    assert Together(last);
    assert s[|s| - 2] == last[|last| - 2] && s[|s| - 1] == last[|last| - 1];
  }

  lemma ExtendsLastRun(s: seq<Call>, runs: seq<seq<Call>>, shorter: seq<seq<Call>>)
    requires |s| > 1 && Near(s[|s| - 2], s[|s| - 1]) && runs != [] && |shorter| == |runs|
    requires shorter[..|runs| - 1] == runs[..|runs| - 1]
    requires runs[|runs| - 1] == shorter[|runs| - 1] + [s[|s| - 1]]
    ensures shorter == Split(s[..|s| - 1]) ==> runs == Split(s)
  {
    assert runs == runs[..|runs| - 1] + [runs[|runs| - 1]];
  }

  /** The decomposition is unique, so `IsRunSplit` specifies `Split` completely. */
  lemma {:induction false} RunSplitUnique(s: seq<Call>, runs: seq<seq<Call>>)
    requires IsRunSplit(s, runs)
    ensures runs == Split(s)
    decreases |s|
  {
    LastCall(s, runs);
    if s != [] {
      var shorter := DropLast(s, runs);
      RunSplitUnique(s[..|s| - 1], shorter);
    }
  }

  // ----- The pipeline computes the reference -----

  /** Markers among the first `n` rows: the ROWS-framed sum. */
  function Rank(s: seq<Call>, n: nat): nat
    requires n <= |s|
  {
    if n == 0 then 0 else Rank(s, n - 1) + StartsWake(s, n - 1)
  }

  /** On sorted rows the peers a RANGE frame adds carry marker 0. */
  lemma {:induction false} RunningSumIsRank(s: seq<Call>, i: nat, n: nat)
    requires Sorted(s) && i < |s| && n <= |s|
    ensures RunningSum(s, s[i].at, n) == Rank(s, if n <= i then n else i + 1)
    decreases n
  {
    if n > 0 {
      RunningSumIsRank(s, i, n - 1);
      if n - 1 > i {
        assert s[i].at <= s[n - 2].at <= s[n - 1].at;
      } else if n - 1 < i {
        assert s[n - 1].at <= s[i].at;
      }
    }
  }

  lemma IndexIsRank(s: seq<Call>, i: nat)
    requires Sorted(s) && i < |s|
    ensures WakeIndex(s, i) == Rank(s, i + 1)
  {
    RunningSumIsRank(s, i, |s|);
  }

  lemma {:induction false} SplitCount(s: seq<Call>, n: nat)
    requires n <= |s|
    ensures |Split(s[..n])| == Rank(s, n)
  {
    if n > 0 {
      SplitCount(s, n - 1);
      SplitSnoc(s, n - 1);
    }
  }

  /** The split of a prefix, one row longer. */
  lemma SplitSnoc(s: seq<Call>, n: nat)
    requires n < |s|
    ensures var runs := Split(s[..n]);
            && (n > 0 ==> runs != [])
            && Split(s[..n + 1]) == if StartsWake(s, n) == 1 then runs + [[s[n]]]
                                    else runs[..|runs| - 1] + [runs[|runs| - 1] + [s[n]]]
  {
    assert s[..n + 1][..n] == s[..n];
    assert n > 0 ==> s[..n] != [];
  }

  /** Wake `k` of a list of runs; wakes are numbered from 1. */
  function Numbered(runs: seq<seq<Call>>, k: nat): seq<Call> {
    if 1 <= k <= |runs| then runs[k - 1] else []
  }

  lemma NumberedSnoc(runs: seq<seq<Call>>, x: Call, k: nat)
    ensures Numbered(runs + [[x]], k) == if k == |runs| + 1 then [x] else Numbered(runs, k)
    ensures runs != [] ==> (Numbered(runs[..|runs| - 1] + [runs[|runs| - 1] + [x]], k)
                            == if k == |runs| then Numbered(runs, k) + [x] else Numbered(runs, k))
  {
  }

  /** How wake `k` of the split grows by one row. */
  lemma NumberedStep(s: seq<Call>, k: nat, n: nat)
    requires 0 < n <= |s|
    ensures var runs, x := Split(s[..n - 1]), s[n - 1];
            Numbered(Split(s[..n]), k)
            == Numbered(runs, k) + if k == |runs| + StartsWake(s, n - 1) then [x] else []
  {
    SplitSnoc(s, n - 1);
    NumberedSnoc(Split(s[..n - 1]), s[n - 1], k);
  }

  lemma {:induction false} GroupOfPrefix(s: seq<Call>, k: nat, n: nat)
    requires Sorted(s) && n <= |s|
    ensures GroupOf(s, k, n) == Numbered(Split(s[..n]), k)
  {
    if n > 0 {
      GroupOfPrefix(s, k, n - 1);
      RowNumber(s, n);
      NumberedStep(s, k, n);
    }
  }

  lemma RowNumber(s: seq<Call>, n: nat)
    requires Sorted(s) && 0 < n <= |s|
    ensures WakeIndex(s, n - 1) == |Split(s[..n - 1])| + StartsWake(s, n - 1)
  {
    IndexIsRank(s, n - 1);
    SplitCount(s, n - 1);
  }

  /** The query is the recursive split: wake k of the GROUP BY is the k-th maximal run, and no other index occurs. */
  lemma PipelineIsSplit(s: seq<Call>)
    requires Sorted(s)
    ensures forall k: nat :: GroupOf(s, k, |s|) == if 1 <= k <= |Split(s)| then Split(s)[k - 1] else []
    ensures forall i :: 0 <= i < |s| ==> 1 <= WakeIndex(s, i) <= |Split(s)|
  {
    assert s[..|s|] == s;
    forall k: nat ensures GroupOf(s, k, |s|) == Numbered(Split(s), k) { GroupOfPrefix(s, k, |s|); }
    SplitCount(s, |s|);
    forall i | 0 <= i < |s| ensures 1 <= WakeIndex(s, i) <= |Split(s)| {
      IndexIsRank(s, i);
      RankGrows(s, 1, i + 1);
      RankGrows(s, i + 1, |s|);
      assert Rank(s, 0) == 0;
    }
  }

  lemma {:induction false} RankGrows(s: seq<Call>, m: nat, n: nat)
    requires m <= n <= |s|
    ensures Rank(s, m) <= Rank(s, n)
    decreases n - m
  {
    if m < n { RankGrows(s, m, n - 1); }
  }

  // ----- Independence from the order of tied rows -----

  /** The instants up to `t` that open a wake, read off the bag alone: nothing in the gap before them. */
  ghost function Openings(rows: multiset<Call>, t: int): set<int> {
    set c | c in rows && c.at <= t && Opens(rows, c) :: c.at
  }

  ghost function OpeningCount(rows: multiset<Call>, t: int): nat { |Openings(rows, t)| }

  ghost predicate Opens(rows: multiset<Call>, c: Call) {
    forall d :: d in rows ==> !(c.at - WAKE_GAP <= d.at < c.at)
  }

  ghost function MarkedInstants(s: seq<Call>, n: nat): set<int>
    requires n <= |s|
  {
    if n == 0 then {}
    else MarkedInstants(s, n - 1) + if StartsWake(s, n - 1) == 1 then {s[n - 1].at} else {}
  }

  lemma {:induction false} MarkedBelow(s: seq<Call>, n: nat)
    requires Sorted(s) && n <= |s|
    ensures forall t :: t in MarkedInstants(s, n) ==> n > 0 && t <= s[n - 1].at
  {
    if n > 1 {
      MarkedBelow(s, n - 1);
      assert s[n - 2].at <= s[n - 1].at;
    }
  }

  lemma {:induction false} MarkedCount(s: seq<Call>, n: nat)
    requires Sorted(s) && n <= |s|
    ensures |MarkedInstants(s, n)| == Rank(s, n)
  {
    if n > 0 {
      MarkedCount(s, n - 1);
      MarkedBelow(s, n - 1);
    }
  }

  lemma {:induction false} MarkedIn(s: seq<Call>, j: nat, n: nat)
    requires j < n <= |s| && StartsWake(s, j) == 1
    ensures s[j].at in MarkedInstants(s, n)
    decreases n
  {
    if j < n - 1 { MarkedIn(s, j, n - 1); }
  }

  lemma {:induction false} MarkedFrom(s: seq<Call>, t: int, n: nat) returns (j: nat)
    requires n <= |s| && t in MarkedInstants(s, n)
    ensures j < n && StartsWake(s, j) == 1 && s[j].at == t
  {
    if StartsWake(s, n - 1) == 1 && s[n - 1].at == t { j := n - 1; } else { j := MarkedFrom(s, t, n - 1); }
  }

  lemma OpeningsAreMarked(s: seq<Call>, i: nat)
    requires Sorted(s) && i < |s|
    ensures Openings(multiset(s), s[i].at) == MarkedInstants(s, i + 1)
  {
    forall t | t in MarkedInstants(s, i + 1) ensures t in Openings(multiset(s), s[i].at) {
      MarkerIsOpening(s, i, t);
    }
    forall t | t in Openings(multiset(s), s[i].at) ensures t in MarkedInstants(s, i + 1) {
      OpeningIsMarked(s, i, t);
    }
  }

  lemma MarkerIsOpening(s: seq<Call>, i: nat, t: int)
    requires Sorted(s) && i < |s| && t in MarkedInstants(s, i + 1)
    ensures t in Openings(multiset(s), s[i].at)
  {
    var j := MarkedFrom(s, t, i + 1);
    MarkerOpens(s, j);
    MarkedBelow(s, i + 1);
  }

  lemma OpeningIsMarked(s: seq<Call>, i: nat, t: int)
    requires Sorted(s) && i < |s| && t in Openings(multiset(s), s[i].at)
    ensures t in MarkedInstants(s, i + 1)
  {
    var c :| c in multiset(s) && c.at <= s[i].at && Opens(multiset(s), c) && c.at == t;
    OpeningHasMarker(s, i, c);
  }

  lemma OpeningHasMarker(s: seq<Call>, i: nat, c: Call)
    requires Sorted(s) && i < |s|
    requires c in multiset(s) && c.at <= s[i].at && Opens(multiset(s), c)
    ensures c.at in MarkedInstants(s, i + 1)
  {
    var m :| 0 <= m < |s| && s[m] == c;
    var j := FirstAt(s, m);
    if j > 0 { assert s[j - 1] in multiset(s); }
    MarkedIn(s, j, i + 1);
  }

  lemma MarkerOpens(s: seq<Call>, j: nat)
    requires Sorted(s) && j < |s| && StartsWake(s, j) == 1
    ensures s[j] in multiset(s) && Opens(multiset(s), s[j])
  {
    forall d | d in multiset(s) ensures !(s[j].at - WAKE_GAP <= d.at < s[j].at) {
      var m :| 0 <= m < |s| && s[m] == d;
      if m < j { assert s[m].at <= s[j - 1].at; }
    }
  }

  lemma {:induction false} FirstAt(s: seq<Call>, m: nat) returns (j: nat)
    requires Sorted(s) && m < |s|
    ensures j <= m && s[j].at == s[m].at
    ensures forall k :: 0 <= k < |s| && s[k].at == s[m].at ==> j <= k
    ensures j > 0 ==> s[j - 1].at < s[m].at
  {
    if m > 0 && s[m - 1].at == s[m].at { j := FirstAt(s, m - 1); } else { j := m; }
  }

  /** A row's wake number is a function of its timestamp and the bag: the openings up to it. */
  lemma IndexIsOrderFree(s: seq<Call>, i: nat)
    requires Sorted(s) && i < |s|
    ensures WakeIndex(s, i) == OpeningCount(multiset(s), s[i].at)
  {
    IndexIsRank(s, i);
    MarkedCount(s, i + 1);
    OpeningsAreMarked(s, i);
  }

  /** Every row's wake number is `number` of its timestamp. */
  ghost predicate NumberedBy(s: seq<Call>, number: int -> nat) {
    forall i :: 0 <= i < |s| ==> WakeIndex(s, i) == number(s[i].at)
  }

  lemma CountSnoc(a: seq<Call>, x: Call, c: Call)
    ensures multiset(a + [x])[c] == multiset(a)[c] + if x == c then 1 else 0
  {
    assert multiset(a + [x]) == multiset(a) + multiset{x};
  }

  lemma {:induction false} FilterBag(s: seq<Call>, p: Call -> bool, c: Call)
    ensures multiset(Filter(s, p))[c] == if p(c) then multiset(s)[c] else 0
  {
    if s != [] {
      var init, x := s[..|s| - 1], s[|s| - 1];
      FilterBag(init, p, c);
      CountSnoc(init, x, c);
      assert s == init + [x];
      if p(x) { CountSnoc(Filter(init, p), x, c); }
    }
  }

  lemma {:induction false} GroupIsFilter(s: seq<Call>, number: int -> nat, k: nat, n: nat)
    requires n <= |s| && NumberedBy(s, number)
    ensures GroupOf(s, k, n) == Filter(s[..n], (c: Call) => number(c.at) == k)
  {
    if n > 0 {
      GroupIsFilter(s, number, k, n - 1);
      assert s[..n][..n - 1] == s[..n - 1];
      assert WakeIndex(s, n - 1) == number(s[n - 1].at);
    }
  }

  /** A group holds exactly the rows with its number, with their multiplicities. */
  lemma GroupBag(s: seq<Call>, number: int -> nat, k: nat, c: Call)
    requires NumberedBy(s, number)
    ensures multiset(GroupOf(s, k, |s|))[c] == if number(c.at) == k then multiset(s)[c] else 0
  {
    GroupIsFilter(s, number, k, |s|);
    assert s[..|s|] == s;
    FilterBag(s, (c: Call) => number(c.at) == k, c);
  }

  /** However tied rows are ordered, there are the same wakes holding the same rows. */
  lemma TieOrderIrrelevant(s: seq<Call>, r: seq<Call>)
    requires Sorted(s) && Sorted(r) && multiset(s) == multiset(r)
    ensures |Split(s)| == |Split(r)|
    ensures forall k :: 0 <= k < |Split(s)| ==> multiset(Split(s)[k]) == multiset(Split(r)[k])
  {
    forall k: nat ensures multiset(GroupOf(s, k, |s|)) == multiset(GroupOf(r, k, |r|)) {
      SameGroups(s, r, k);
    }
    NoEmptyGroup(s, r);
    NoEmptyGroup(r, s);
    PipelineIsSplit(s);
    PipelineIsSplit(r);
    forall k | 0 <= k < |Split(s)| ensures multiset(Split(s)[k]) == multiset(Split(r)[k]) {
      assert GroupOf(s, k + 1, |s|) == Split(s)[k] && GroupOf(r, k + 1, |r|) == Split(r)[k];
    }
  }

  lemma SameGroups(s: seq<Call>, r: seq<Call>, k: nat)
    requires Sorted(s) && Sorted(r) && multiset(s) == multiset(r)
    ensures multiset(GroupOf(s, k, |s|)) == multiset(GroupOf(r, k, |r|))
  {
    var number := t => OpeningCount(multiset(s), t);
    forall i | 0 <= i < |s| ensures WakeIndex(s, i) == number(s[i].at) { IndexIsOrderFree(s, i); }
    forall i | 0 <= i < |r| ensures WakeIndex(r, i) == number(r[i].at) { IndexIsOrderFree(r, i); }
    forall c ensures multiset(GroupOf(s, k, |s|))[c] == multiset(GroupOf(r, k, |r|))[c] {
      GroupBag(s, number, k, c);
      GroupBag(r, number, k, c);
    }
  }

  lemma NoEmptyGroup(s: seq<Call>, r: seq<Call>)
    requires Sorted(s) && Sorted(r)
    requires forall k: nat :: multiset(GroupOf(s, k, |s|)) == multiset(GroupOf(r, k, |r|))
    ensures |Split(s)| <= |Split(r)|
  {
    PipelineIsSplit(s);
    PipelineIsSplit(r);
    SplitIsRunSplit(s);
    var k := |Split(s)|;
    if k > 0 {
      var mine, other := GroupOf(s, k, |s|), GroupOf(r, k, |r|);
      assert mine == Split(s)[k - 1];
      assert |multiset(mine)| == |mine| && |multiset(other)| == |other|;
    }
  }
}
