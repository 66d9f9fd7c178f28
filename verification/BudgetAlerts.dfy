/**
 Spend alerts of one Agent as an automaton over readings and publishes (api/domains/agents/llm_budget.py).
 */
module BudgetAlerts {
  import opened Common
  import opened Thresholds

  /** The window and the limit: a renewal or a limit change re-arms the thresholds. */
  datatype AlertKey = AlertKey(renewsAt: Option<string>, limit: real)

  /** The stored snapshot and alert state of one Agent. */
  datatype Alert = Alert(spend: Option<real>, key: Option<AlertKey>, alerted: Option<int>)

  /** `Unreadable` when the proxy gave no spend, or the check failed before it could store anything. */
  datatype Reading = Unreadable | Spent(amount: real, renewsAt: Option<string>)
  /**
   One check: what the proxy answered, the limit in force, whether a notification could be staged and then
   recorded.
   */
  datatype Check = Check(reading: Reading, limit: real, publishes: bool, saves: bool)

  datatype Health = Unknown | Fine | Warning | Exhausted

  predicate Crosses(limit: real, spend: real, t: int) {
    limit > 0.0 && spend >= limit * t as real / 100.0
  }

  function Reached(thresholds: seq<int>, limit: real, spend: real): seq<int> {
    var reached := Filter(thresholds, (t: int) => Crosses(limit, spend, t));
    if reached == [] && limit == 0.0 then [100] else reached
  }

  function Largest(s: seq<int>): (m: Option<int>)
    ensures m.None? <==> s == []
    ensures m.Some? ==> m.value in s && forall x :: x in s ==> x <= m.value
  {
    if s == [] then None
    else
      var rest, last := Largest(s[..|s| - 1]), s[|s| - 1];
      assert s == s[..|s| - 1] + [last];
      if rest.None? || rest.value < last then Some(last) else rest
  }

  function KeyOf(c: Check): AlertKey
    requires c.reading.Spent?
  {
    AlertKey(c.reading.renewsAt, c.limit)
  }

  function Refreshed(a: Alert, c: Check): Alert
    requires c.reading.Spent?
  {
    var seen := a.(spend := Some(c.reading.amount));
    if a.key != Some(KeyOf(c)) then seen.(key := Some(KeyOf(c)), alerted := None) else seen
  }

  /** The crossing one check finds, if any. */
  function Crossing(thresholds: seq<int>, a: Alert, c: Check): Option<int> {
    if c.reading.Unreadable? then None
    else
      var highest := Largest(Reached(thresholds, c.limit, c.reading.amount));
      var already := Refreshed(a, c).alerted;
      if highest.None? || (already.Some? && highest.value <= already.value) then None else highest
  }

  /** The threshold published by one check. */
  function Published(thresholds: seq<int>, a: Alert, c: Check): Option<int> {
    if c.publishes then Crossing(thresholds, a, c) else None
  }

  /** Alert state after one check: a threshold is recorded once its notification is staged, if the save succeeds. */
  function After(thresholds: seq<int>, a: Alert, c: Check): Alert {
    if c.reading.Unreadable? then a
    else
      var seen := Refreshed(a, c);
      var fired := Published(thresholds, a, c);
      if fired.Some? && c.saves then seen.(alerted := fired) else seen
  }

  function Run(thresholds: seq<int>, a: Alert, checks: seq<Check>): Alert {
    if checks == [] then a else After(thresholds, Run(thresholds, a, checks[..|checks| - 1]), checks[|checks| - 1])
  }

  /** What check `i` of a run publishes. */
  function PublishedAt(thresholds: seq<int>, a: Alert, checks: seq<Check>, i: nat): Option<int>
    requires i < |checks|
  {
    Published(thresholds, Run(thresholds, a, checks[..i]), checks[i])
  }

  /** No readable check from `i` to `j` changes the alert key. */
  ghost predicate Stretch(checks: seq<Check>, i: nat, j: nat)
    requires i <= j < |checks|
  {
    checks[i].reading.Spent? && forall k :: i <= k <= j && checks[k].reading.Spent? ==>
      KeyOf(checks[k]) == KeyOf(checks[i])
  }

  /** Inside a stretch the recorded threshold never falls. */
  lemma {:induction false} AlertedNeverFalls(thresholds: seq<int>, a: Alert, checks: seq<Check>, i: nat, j: nat, t: int)
    requires i < j < |checks| && Stretch(checks, i, j)
    requires PublishedAt(thresholds, a, checks, i) == Some(t) && checks[i].saves
    ensures var st := Run(thresholds, a, checks[..j]);
            st.key == Some(KeyOf(checks[i])) && st.alerted.Some? && st.alerted.value >= t
    decreases j
  {
    assert checks[..j][..j - 1] == checks[..j - 1];
    if j > i + 1 { AlertedNeverFalls(thresholds, a, checks, i, j - 1, t); }
  }

  /**
   Within a stretch of one alert key, through unreadable spends, failed publishes and failed saves, what is
   published after a recorded threshold is strictly higher. So a threshold repeats only after a failed save.
   */
  lemma PublishedIncrease(thresholds: seq<int>, a: Alert, checks: seq<Check>, i: nat, j: nat)
    requires i < j < |checks| && Stretch(checks, i, j)
    requires PublishedAt(thresholds, a, checks, i).Some? && PublishedAt(thresholds, a, checks, j).Some?
    ensures checks[i].saves ==>
              PublishedAt(thresholds, a, checks, i).value < PublishedAt(thresholds, a, checks, j).value
  {
    if checks[i].saves {
      AlertedNeverFalls(thresholds, a, checks, i, j, PublishedAt(thresholds, a, checks, i).value);
    }
  }

  /** The same check again publishes again exactly when the first time was not recorded. */
  lemma RepeatsIffUnsaved(thresholds: seq<int>, a: Alert, c: Check)
    requires Published(thresholds, a, c).Some?
    ensures Published(thresholds, After(thresholds, a, c), c)
         == if c.saves then None else Published(thresholds, a, c)
  {
  }

  /**
   A readable check finds a crossing exactly when the highest threshold reached is above what was recorded
   under its key.
   */
  lemma CrossingIsNewHighest(thresholds: seq<int>, a: Alert, c: Check, t: int)
    requires c.reading.Spent?
    ensures var reached := Reached(thresholds, c.limit, c.reading.amount);
            Crossing(thresholds, a, c) == Some(t) <==>
              && t in reached && (forall x :: x in reached ==> x <= t)
              && (a.key == Some(KeyOf(c)) && a.alerted.Some? ==> a.alerted.value < t)
  {
    var highest := Largest(Reached(thresholds, c.limit, c.reading.amount));
    if t in Reached(thresholds, c.limit, c.reading.amount) { assert highest.Some? && t <= highest.value; }
  }

  /** The check stages a notification and records it. */
  predicate Records(c: Check) { c.publishes && c.saves }

  /** No check of the run records anything, and every readable one is under `key`. */
  ghost predicate Silent(checks: seq<Check>, key: AlertKey) {
    forall i :: 0 <= i < |checks| ==> !Records(checks[i]) && (checks[i].reading.Spent? ==> KeyOf(checks[i]) == key)
  }

  lemma {:induction false} SilentKeeps(thresholds: seq<int>, a: Alert, checks: seq<Check>, key: AlertKey)
    requires a.key == Some(key) && Silent(checks, key)
    ensures var st := Run(thresholds, a, checks); st.key == a.key && st.alerted == a.alerted
  {
    if checks != [] { SilentKeeps(thresholds, a, checks[..|checks| - 1], key); }
  }

  /**
   A crossing that was not published, or published and not recorded, stays due: after any run of unreadable
   spends and further failures, a readable check under the same key that still reaches it finds it, or a
   higher one. So a failed publish is retried, and a failed save repeats the alert.
   */
  lemma FailedPublishIsRetried(thresholds: seq<int>, a: Alert, failed: Check, between: seq<Check>, next: Check)
    requires Crossing(thresholds, a, failed).Some? && !Records(failed) && Silent(between, KeyOf(failed))
    requires next.reading.Spent? && KeyOf(next) == KeyOf(failed)
    requires Crossing(thresholds, a, failed).value in Reached(thresholds, next.limit, next.reading.amount)
    ensures var st := Run(thresholds, After(thresholds, a, failed), between);
            && Crossing(thresholds, st, next).Some?
            && Crossing(thresholds, st, next).value >= Crossing(thresholds, a, failed).value
  {
    SilentKeeps(thresholds, After(thresholds, a, failed), between, KeyOf(failed));
  }

  /**
   The stored spend, window and limit are those of the last readable check, however often the spend could
   not be read since.
   */
  lemma {:induction false} KeyAfter(thresholds: seq<int>, a: Alert, checks: seq<Check>, i: nat)
    requires i < |checks| && checks[i].reading.Spent?
    requires forall k :: i < k < |checks| ==> checks[k].reading.Unreadable?
    ensures var st := Run(thresholds, a, checks);
            && st.spend == Some(checks[i].reading.amount)
            && st.key == Some(AlertKey(checks[i].reading.renewsAt, checks[i].limit))
  {
    if i < |checks| - 1 { KeyAfter(thresholds, a, checks[..|checks| - 1], i); }
  }

  /**
   A renewal or a limit change re-arms every threshold: whatever was published before, the first readable
   check under the new key publishes the highest one reached, and the alert state forgets the rest.
   */
  lemma KeyChangeRearms(thresholds: seq<int>, a: Alert, checks: seq<Check>, i: nat, j: nat)
    requires i < j < |checks| && checks[i].reading.Spent? && checks[j].reading.Spent?
    requires forall k :: i < k < j ==> checks[k].reading.Unreadable?
    requires KeyOf(checks[i]) != KeyOf(checks[j])
    ensures var due := Largest(Reached(thresholds, checks[j].limit, checks[j].reading.amount));
            && PublishedAt(thresholds, a, checks, j) == (if checks[j].publishes then due else None)
            && Run(thresholds, a, checks[..j + 1]).alerted == if Records(checks[j]) then due else None
  {
    KeyAfter(thresholds, a, checks[..j], i);
    assert checks[..j + 1][..j] == checks[..j];
  }

  /** The check publishes a threshold and fails to record it, which ends the sweep. */
  predicate Breaks(thresholds: seq<int>, a: Alert, c: Check) { Published(thresholds, a, c).Some? && !c.saves }

  /**
   The scheduled sweep over all Agents, updating their rows in place; `organizations[i]` is false when the
   Organization is gone. It ends early, at the Agent in `broken`, when an alert was published and could not
   be recorded; that Agent's spend is stored, its alert state is not, and later Agents are not reached.
   */
  method CheckAll(thresholds: seq<int>, alerts: array<Alert>, checks: seq<Check>, organizations: seq<bool>)
    returns (fired: seq<(nat, int)>, broken: Option<nat>)
    requires |checks| == alerts.Length == |organizations|
    modifies alerts
    ensures broken.Some? ==>
              && broken.value < alerts.Length && organizations[broken.value]
              && Breaks(thresholds, old(alerts[broken.value]), checks[broken.value])
    ensures forall i :: 0 <= i < (if broken.Some? then broken.value else alerts.Length) && organizations[i] ==>
              !Breaks(thresholds, old(alerts[i]), checks[i])
    ensures forall i :: 0 <= i < alerts.Length ==>
              alerts[i] == if organizations[i] && (broken.Some? ==> i <= broken.value)
                           then After(thresholds, old(alerts[i]), checks[i]) else old(alerts[i])
    ensures forall i: nat, t :: (i, t) in fired <==>
              && i < alerts.Length && organizations[i] && (broken.Some? ==> i < broken.value)
              && Published(thresholds, old(alerts[i]), checks[i]) == Some(t)
  {
    fired, broken := [], None;
    for n := 0 to alerts.Length
      invariant forall i :: 0 <= i < n ==>
                  alerts[i] == if organizations[i] then After(thresholds, old(alerts[i]), checks[i]) else old(alerts[i])
      invariant forall i :: n <= i < alerts.Length ==> alerts[i] == old(alerts[i])
      invariant forall i :: 0 <= i < n && organizations[i] ==> !Breaks(thresholds, old(alerts[i]), checks[i])
      invariant forall i: nat, t :: (i, t) in fired <==>
                  i < n && organizations[i] && Published(thresholds, old(alerts[i]), checks[i]) == Some(t)
    {
      if !organizations[n] { continue; }
      var c, before := checks[n], alerts[n];
      if c.reading.Unreadable? { continue; }
      alerts[n] := Refreshed(before, c);
      var crossing := Crossing(thresholds, before, c);
      if crossing.None? || !c.publishes { continue; }
      if !c.saves { return fired, Some(n); }
      alerts[n] := alerts[n].(alerted := crossing);
      fired := fired + [(n, crossing.value)];
    }
  }

  // ----- What is reached -----

  /**
   Under a positive limit exactly the thresholds at or below the spent percentage are reached; a limit of
   zero is always exhausted.
   */
  lemma ReachedIsSpentShare(thresholds: seq<int>, limit: real, spend: real, t: int)
    requires limit >= 0.0 && spend >= 0.0
    ensures limit > 0.0 ==>
              (t in Reached(thresholds, limit, spend) <==> t in thresholds && t as real <= 100.0 * spend / limit)
    ensures limit == 0.0 ==> (t in Reached(thresholds, limit, spend) <==> t == 100)
  {
    FilterHas(thresholds, (x: int) => Crosses(limit, spend, x), t);
    if limit > 0.0 {
      ShareIsCrossed(limit, spend, t);
    } else {
      NothingCrosses(thresholds, spend);
    }
  }

  lemma ShareIsCrossed(limit: real, spend: real, t: int)
    requires limit > 0.0
    ensures Crosses(limit, spend, t) <==> t as real <= 100.0 * spend / limit
  {
    var share := 100.0 * spend / limit;
    assert share * limit == 100.0 * spend;
    if t as real <= share {
      assert t as real * limit <= share * limit;
    } else {
      assert t as real * limit > share * limit;
    }
  }

  lemma NothingCrosses(thresholds: seq<int>, spend: real)
    ensures Filter(thresholds, (x: int) => Crosses(0.0, spend, x)) == []
  {
    FilterUniform(thresholds, (x: int) => Crosses(0.0, spend, x), false);
  }

  // ----- The displayed state -----

  function Smallest(s: seq<int>): (m: int)
    requires s != []
    ensures m in s && forall x :: x in s ==> m <= x
  {
    var last := s[|s| - 1];
    assert s == s[..|s| - 1] + [last];
    if |s| == 1 then last else var rest := Smallest(s[..|s| - 1]); if last < rest then last else rest
  }

  function HealthOf(spend: Option<real>, limit: real, thresholds: seq<int>): Health
    requires thresholds != []
  {
    if spend.None? then Unknown
    else if spend.value >= limit then Exhausted
    else if Crosses(limit, spend.value, Smallest(thresholds)) then Warning
    else Fine
  }

  /**
   The displayed state and the alerts agree: exhausted exactly when 100 is the highest reached, warning
   exactly when a lower one is.
   */
  lemma HealthMatchesAlerts(thresholds: seq<int>, limit: real, spend: real)
    requires Valid(thresholds) && limit >= 0.0 && spend >= 0.0
    ensures var highest := Largest(Reached(thresholds, limit, spend));
            && (HealthOf(Some(spend), limit, thresholds) == Exhausted <==> highest == Some(100))
            && (HealthOf(Some(spend), limit, thresholds) == Warning <==> highest.Some? && highest.value < 100)
            && (HealthOf(Some(spend), limit, thresholds) == Fine <==> highest == None)
  {
    ReachedBounds(thresholds, limit, spend);
    FullLimit(limit, spend);
  }

  /** The highest threshold reached is 100 exactly when 100 is reached, and there is one exactly when the lowest is. */
  lemma ReachedBounds(thresholds: seq<int>, limit: real, spend: real)
    requires Valid(thresholds) && limit >= 0.0
    ensures var highest := Largest(Reached(thresholds, limit, spend));
            && (highest == Some(100) <==> limit == 0.0 || Crosses(limit, spend, 100))
            && (highest.Some? <==> limit == 0.0 || Crosses(limit, spend, Smallest(thresholds)))
            && (highest.Some? ==> highest.value <= 100)
  {
    var p := (t: int) => Crosses(limit, spend, t);
    var least := Smallest(thresholds);
    forall t | t in thresholds && p(t) ensures p(least) { LowerIsReachedToo(limit, spend, least, t); }
    assert 100 == thresholds[|thresholds| - 1] && 100 in thresholds;
    forall t | t in thresholds ensures t <= 100 { }
    FilteredBounds(thresholds, p, least);
  }

  /** Only the least and the greatest threshold decide whether any passes, and whether the greatest does. */
  lemma FilteredBounds(ts: seq<int>, p: int -> bool, least: int)
    requires 100 in ts && least in ts && (forall t :: t in ts ==> t <= 100) && forall t :: t in ts && p(t) ==> p(least)
    ensures var highest := Largest(Filter(ts, p));
            && (highest == Some(100) <==> p(100)) && (highest.Some? <==> p(least))
            && (highest.Some? ==> highest.value <= 100)
  {
    var highest := Largest(Filter(ts, p));
    FilterHas(ts, p, 100);
    FilterHas(ts, p, least);
    if highest.Some? { FilterHas(ts, p, highest.value); }
  }

  lemma FullLimit(limit: real, spend: real)
    ensures Crosses(limit, spend, 100) <==> limit > 0.0 && spend >= limit
  {
  }

  lemma LowerIsReachedToo(limit: real, spend: real, low: int, high: int)
    requires low <= high && Crosses(limit, spend, high)
    ensures Crosses(limit, spend, low)
  {
    assert limit * low as real <= limit * high as real;
  }
}
