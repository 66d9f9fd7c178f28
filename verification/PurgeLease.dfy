/**
 Leasing of deletion tombstones by concurrent purge workers (api/domains/agent_memory/purge_repository.py).
 Each locked transaction is one atomic step; instants and delays are seconds.
 */
module PurgeLease {
  import opened Common

  type RowId = nat
  type LeaseId = nat
  type WorkerId = nat

  const LEASE_SECONDS := 600
  const MIN_DELAY := 30
  const MAX_ERROR_DELAY := 3_600
  const HOUR := 3_600
  const DAY := 86_400

  datatype Row = Row(id: RowId, createdAt: int, nextAttemptAt: int, lease: Option<Lease>, attempts: nat,
                     lastCleanedAt: Option<int>, failed: bool)
  datatype Lease = Lease(id: LeaseId, until: int)

  // ----- One row -----

  predicate Due(r: Row, now: int) {
    r.nextAttemptAt <= now && (r.lease.None? || r.lease.value.until <= now)
  }

  /** Never attempted first, then failed ones, then clean ones due for another sweep. */
  function Priority(r: Row): nat {
    if r.lastCleanedAt.None? && r.attempts == 0 then 0 else if r.failed then 1 else 2
  }

  predicate Before(a: Row, b: Row) {
    || Priority(a) < Priority(b)
    || (Priority(a) == Priority(b) && a.nextAttemptAt < b.nextAttemptAt)
    || (Priority(a) == Priority(b) && a.nextAttemptAt == b.nextAttemptAt && a.id <= b.id)
  }

  function Claimed(r: Row, now: int, lease: LeaseId): Row {
    r.(lease := Some(Lease(lease, now + LEASE_SECONDS)))
  }

  function Pow2(n: nat): nat { if n == 0 then 1 else 2 * Pow2(n - 1) }

  function Min(a: int, b: int): int { if a <= b then a else b }

  function ErrorDelay(attempts: nat): int
    requires attempts > 0
  {
    Min(MAX_ERROR_DELAY, MIN_DELAY * Pow2(Min(attempts - 1, 7)))
  }

  function Finished(r: Row, now: int, error: bool): Row {
    var attempts := if error then r.attempts + 1 else 0;
    var cleanDelay := if now - r.createdAt < 2 * DAY then HOUR else DAY;
    var delay := if error then ErrorDelay(attempts) else cleanDelay;
    r.(attempts := attempts, failed := error, lastCleanedAt := if error then r.lastCleanedAt else Some(now),
       nextAttemptAt := now + delay, lease := None)
  }

  lemma {:induction false} Pow2Grows(m: nat, n: nat)
    requires m <= n
    ensures 1 <= Pow2(m) <= Pow2(n)
    decreases n
  {
    if m < n { Pow2Grows(m, n - 1); } else if m > 0 { Pow2Grows(m - 1, n - 1); }
  }

  /**
   Error delays start at half a minute, double with each further failure up to an hour, and never shrink
   while failures continue.
   */
  lemma ErrorDelayBounds(a: nat, b: nat)
    requires 0 < a <= b
    ensures 30 <= ErrorDelay(a) <= ErrorDelay(b) <= 3_600
    ensures ErrorDelay(1) == 30 && ErrorDelay(a + 1) == Min(3_600, 2 * ErrorDelay(a))
    ensures b >= 8 ==> ErrorDelay(b) == 3_600
  {
    Pow2Grows(Min(a - 1, 7), Min(b - 1, 7));
    assert Pow2(7) == 128 by { assert Pow2(4) == 16; }
  }

  // ----- Workers, crashes and time -----

  /** `workers` remembers what each worker claimed; a crashed worker simply forgets. */
  datatype State = State(now: int, rows: map<RowId, Row>, workers: map<WorkerId, (RowId, LeaseId)>, nextLease: LeaseId)

  datatype Step =
    | Tick(seconds: nat)
    | Stage(id: RowId)
    | ClaimRow(worker: WorkerId, id: RowId)
    | FinishRow(worker: WorkerId, error: bool)
    | Crash(worker: WorkerId)

  predicate HoldsCurrent(st: State, w: WorkerId, id: RowId) {
    && w in st.workers && st.workers[w].0 == id && id in st.rows
    && st.rows[id].lease.Some? && st.rows[id].lease.value.id == st.workers[w].1
  }

  predicate Unexpired(st: State, id: RowId) {
    id in st.rows && st.rows[id].lease.Some? && st.rows[id].lease.value.until > st.now
  }

  /**
   A worker may claim any due row: which one it gets depends on the rows other transactions have locked at
   that moment, some of which then abort.
   */
  function Next(st: State, step: Step): State {
    match step
    case Tick(d) => st.(now := st.now + d)
    case Stage(id) =>
      if id in st.rows then st
      else st.(rows := st.rows[id := Row(id, st.now, st.now, None, 0, None, false)])
    case ClaimRow(w, id) =>
      if w !in st.workers && id in st.rows && Due(st.rows[id], st.now) then
        st.(rows := st.rows[id := Claimed(st.rows[id], st.now, st.nextLease)],
            workers := st.workers[w := (id, st.nextLease)], nextLease := st.nextLease + 1)
      else st
    case FinishRow(w, error) =>
      if w !in st.workers then st
      else
        var id := st.workers[w].0;
        var rows := if HoldsCurrent(st, w, id) then st.rows[id := Finished(st.rows[id], st.now, error)] else st.rows;
        st.(rows := rows, workers := st.workers - {w})
    case Crash(w) => st.(workers := st.workers - {w})
  }

  function Run(st: State, steps: seq<Step>): State {
    if steps == [] then st else Next(Run(st, steps[..|steps| - 1]), steps[|steps| - 1])
  }

  predicate Init(st: State) { st.rows == map[] && st.workers == map[] }

  predicate RowInv(r: Row, now: int, nextLease: LeaseId) {
    && r.createdAt <= now && r.nextAttemptAt <= now + DAY
    && (r.lease.Some? ==>
          r.lease.value.id < nextLease && r.lease.value.until <= now + LEASE_SECONDS && r.nextAttemptAt <= now)
  }

  predicate Inv(st: State) {
    && (forall id :: id in st.rows ==> st.rows[id].id == id && RowInv(st.rows[id], st.now, st.nextLease))
    && (forall w :: w in st.workers ==> st.workers[w].1 < st.nextLease)
    && (forall w, v :: w in st.workers && v in st.workers && w != v ==> st.workers[w].1 != st.workers[v].1)
  }

  lemma FinishedRowInv(r: Row, now: int, error: bool, nextLease: LeaseId)
    requires RowInv(r, now, nextLease)
    ensures RowInv(Finished(r, now, error), now, nextLease)
    ensures Finished(r, now, error).nextAttemptAt > now
  {
    if error { ErrorDelayBounds(r.attempts + 1, r.attempts + 1); }
  }

  lemma NextKeepsInv(st: State, step: Step)
    requires Inv(st)
    ensures Inv(Next(st, step))
  {
    if step.FinishRow? && step.worker in st.workers && HoldsCurrent(st, step.worker, st.workers[step.worker].0) {
      FinishedRowInv(st.rows[st.workers[step.worker].0], st.now, step.error, st.nextLease);
    }
  }

  lemma {:induction false} RunKeepsInv(st: State, steps: seq<Step>)
    requires Init(st)
    ensures Inv(Run(st, steps))
  {
    if steps != [] {
      RunKeepsInv(st, steps[..|steps| - 1]);
      NextKeepsInv(Run(st, steps[..|steps| - 1]), steps[|steps| - 1]);
    }
  }

  /** At most one worker holds a row's current lease, and while it is unexpired nobody can claim the row. */
  lemma LeaseIsExclusive(init: State, steps: seq<Step>, w: WorkerId, v: WorkerId, id: RowId)
    requires Init(init)
    ensures var st := Run(init, steps);
            && (HoldsCurrent(st, w, id) && HoldsCurrent(st, v, id) ==> w == v)
            && (Unexpired(st, id) ==> Next(st, ClaimRow(v, id)).rows == st.rows)
  {
    RunKeepsInv(init, steps);
  }

  /** Once another worker has claimed the row, the earlier worker is superseded for good. */
  lemma {:induction false} SupersededForever(init: State, before: seq<Step>, after: seq<Step>, w: WorkerId, id: RowId)
    requires Init(init)
    requires var st := Run(init, before); w in st.workers && st.workers[w].0 == id && !HoldsCurrent(st, w, id)
    requires forall i :: 0 <= i < |after| ==> after[i] != Crash(w) && !(after[i].FinishRow? && after[i].worker == w)
    ensures var st, st' := Run(init, before), Run(init, before + after);
            w in st'.workers && st'.workers[w] == st.workers[w] && !HoldsCurrent(st', w, id)
    decreases |after|
  {
    if after == [] {
      assert before + after == before;
    } else {
      var init', last := after[..|after| - 1], after[|after| - 1];
      SupersededForever(init, before, init', w, id);
      assert (before + after)[..|before + after| - 1] == before + init';
      RunKeepsInv(init, before + init');
    }
  }

  /** Once a worker's expired lease has been taken over, its finish changes no row, however much later it comes. */
  lemma LateFinishIsIgnored(init: State, before: seq<Step>, after: seq<Step>, w: WorkerId, v: WorkerId, id: RowId,
                            error: bool)
    requires Init(init)
    requires var st := Run(init, before);
             w in st.workers && st.workers[w].0 == id && v !in st.workers && id in st.rows && Due(st.rows[id], st.now)
    requires forall i :: 0 <= i < |after| ==> after[i] != Crash(w) && !(after[i].FinishRow? && after[i].worker == w)
    ensures var st := Run(init, before + [ClaimRow(v, id)] + after);
            w in st.workers && Next(st, FinishRow(w, error)).rows == st.rows
  {
    var claimed := before + [ClaimRow(v, id)];
    RunKeepsInv(init, before);
    assert claimed[..|claimed| - 1] == before;
    SupersededForever(init, claimed, after, w, id);
  }

  // ----- What each step does -----

  /** The row has never been swept, with or without success. */
  predicate Untried(r: Row) { r.lastCleanedAt.None? && r.attempts == 0 }

  /** Untried rows come first, then failed ones, then clean ones; within a class the longest due, then the lowest id. */
  lemma ClaimOrderIs(a: Row, b: Row)
    ensures Untried(a) && !Untried(b) ==> Before(a, b) && !Before(b, a)
    ensures !Untried(a) && !Untried(b) && a.failed && !b.failed ==> Before(a, b) && !Before(b, a)
    ensures (Untried(a) && Untried(b)) || (!Untried(a) && !Untried(b) && a.failed == b.failed) ==>
              (Before(a, b) <==>
                 || a.nextAttemptAt < b.nextAttemptAt
                 || (a.nextAttemptAt == b.nextAttemptAt && a.id <= b.id))
  {
  }

  /**
   A free worker can claim exactly a row whose time has come and whose lease, if any, has run out; it gets
   ten minutes.
   */
  lemma ClaimIff(st: State, w: WorkerId, id: RowId)
    ensures var later := Next(st, ClaimRow(w, id));
            if w !in st.workers && id in st.rows && st.rows[id].nextAttemptAt <= st.now
               && (st.rows[id].lease.Some? ==> st.rows[id].lease.value.until <= st.now)
            then && later.rows == st.rows[id := st.rows[id].(lease := Some(Lease(st.nextLease, st.now + 600)))]
                 && later.workers == st.workers[w := (id, st.nextLease)] && later.nextLease > st.nextLease
            else later == st
  {
  }

  /**
   Staging adds a fresh row, due at once, unless one is there; finishing or crashing frees the worker; the
   clock only moves when it ticks.
   */
  lemma OtherSteps(st: State, id: RowId, w: WorkerId, error: bool, d: nat)
    ensures Next(st, Stage(id)) ==
            if id in st.rows then st else st.(rows := st.rows[id := Row(id, st.now, st.now, None, 0, None, false)])
    ensures Next(st, Crash(w)) == st.(workers := st.workers - {w})
    ensures Next(st, FinishRow(w, error)).workers == st.workers - {w}
    ensures Next(st, FinishRow(w, error)).now == st.now && Next(st, FinishRow(w, error)).nextLease == st.nextLease
    ensures forall i :: i in st.rows && (w in st.workers ==> i != st.workers[w].0) ==>
              i in Next(st, FinishRow(w, error)).rows && Next(st, FinishRow(w, error)).rows[i] == st.rows[i]
    ensures Next(st, Tick(d)) == st.(now := st.now + d)
  {
  }

  /** Tombstones are never lost. */
  lemma {:induction false} TombstonesSurvive(st: State, steps: seq<Step>, id: RowId)
    requires id in st.rows
    ensures id in Run(st, steps).rows
  {
    if steps != [] { TombstonesSurvive(st, steps[..|steps| - 1], id); }
  }

  /**
   From every reachable state each row is claimable after a day in which nobody acts, whatever crashed or
   failed before.
   */
  lemma ClaimableWithinADay(init: State, steps: seq<Step>, id: RowId, wait: nat)
    requires Init(init) && wait >= 86_400 && id in Run(init, steps).rows
    ensures Due(Run(init, steps + [Tick(wait)]).rows[id], Run(init, steps + [Tick(wait)]).now)
  {
    RunKeepsInv(init, steps);
    assert (steps + [Tick(wait)])[..|steps|] == steps;
  }

  /** The row is there and due. */
  predicate DueIn(st: State, id: RowId) { id in st.rows && Due(st.rows[id], st.now) }

  /** What holds of a row that has not been due since `start`. */
  predicate Waits(st: State, id: RowId, start: int) {
    && id in st.rows
    && (st.rows[id].lease.Some? ==>
          st.rows[id].lease.value.until <= start + LEASE_SECONDS && st.rows[id].nextAttemptAt <= st.now)
    && (st.rows[id].lease.None? ==> st.rows[id].nextAttemptAt <= start + LEASE_SECONDS + DAY)
  }

  lemma StillWaits(st: State, step: Step, id: RowId, start: int)
    requires Inv(st) && Waits(st, id, start) && !DueIn(st, id)
    ensures Waits(Next(st, step), id, start)
  {
    if step.FinishRow? && step.worker in st.workers && HoldsCurrent(st, step.worker, id) {
      FinishedRowInv(st.rows[id], st.now, step.error, st.nextLease);
    }
  }

  lemma {:induction false} WaitsThroughout(init: State, before: seq<Step>, after: seq<Step>, id: RowId)
    requires Init(init) && id in Run(init, before).rows
    requires forall k :: 0 <= k < |after| ==> !DueIn(Run(init, before + after[..k]), id)
    ensures Waits(Run(init, before + after), id, Run(init, before).now)
    decreases |after|
  {
    if after == [] {
      RunKeepsInv(init, before);
      assert before + after == before;
    } else {
      var rest, last := after[..|after| - 1], after[|after| - 1];
      forall k | 0 <= k < |rest| ensures !DueIn(Run(init, before + rest[..k]), id) { assert rest[..k] == after[..k]; }
      WaitsThroughout(init, before, rest, id);
      RunKeepsInv(init, before + rest);
      assert before + after == (before + rest) + [last];
      RunStep(init, before + rest, last);
      StillWaits(Run(init, before + rest), last, id, Run(init, before).now);
    }
  }

  /**
   Whatever the workers do meanwhile, a row is due at some point of every stretch of a run that lasts a day
   and the length of a lease.
   */
  lemma ClaimableDespiteWorkers(init: State, before: seq<Step>, after: seq<Step>, id: RowId)
    requires Init(init) && id in Run(init, before).rows
    requires Run(init, before + after).now >= Run(init, before).now + 86_400 + 600
    ensures exists k :: 0 <= k <= |after| && DueIn(Run(init, before + after[..k]), id)
  {
    assert after[..|after|] == after;
    if forall k :: 0 <= k < |after| ==> !DueIn(Run(init, before + after[..k]), id) {
      WaitsThroughout(init, before, after, id);
      assert DueIn(Run(init, before + after[..|after|]), id);
    }
  }

  /** Finishing cleanly just before the lease ends, and then nearly a day. */
  function LateSweep(w: WorkerId): seq<Step> { [Tick(LEASE_SECONDS - 1), FinishRow(w, false), Tick(DAY - 1)] }

  /**
   A day alone is not enough: whenever a worker claims a row staged two days ago and finishes it cleanly just
   before the lease ends, more than a day passes without the row ever being due.
   */
  lemma DayIsNotEnough(st: State, w: WorkerId, id: RowId, k: nat)
    requires w !in st.workers && DueIn(st, id) && st.now - st.rows[id].createdAt >= 2 * DAY && k <= 3
    ensures var claimed := Next(st, ClaimRow(w, id));
            && Run(claimed, LateSweep(w)).now == claimed.now + DAY + LEASE_SECONDS - 2
            && !DueIn(Run(claimed, LateSweep(w)[..k]), id)
  {
    var claimed := Next(st, ClaimRow(w, id));
    var late := Next(claimed, Tick(LEASE_SECONDS - 1));
    var finished := Next(late, FinishRow(w, false));
    RunThree(claimed, Tick(LEASE_SECONDS - 1), FinishRow(w, false), Tick(DAY - 1));
    assert HoldsCurrent(late, w, id) && late.rows[id].lease.value.until > late.now;
    assert finished.rows[id].nextAttemptAt == finished.now + DAY;
  }

  lemma RunThree(st: State, a: Step, b: Step, c: Step)
    ensures var steps := [a, b, c];
            && Run(st, steps[..0]) == st && Run(st, steps[..1]) == Next(st, a)
            && Run(st, steps[..2]) == Next(Next(st, a), b) && Run(st, steps[..3]) == Next(Next(Next(st, a), b), c)
            && steps[..3] == steps
  {
    var steps := [a, b, c];
    assert steps[..0] == [] && steps[..1] == [] + [a] && steps[..2] == steps[..1] + [b]
      && steps[..3] == steps[..2] + [c];
    RunStep(st, [], a);
    RunStep(st, steps[..1], b);
    RunStep(st, steps[..2], c);
  }

  lemma RunStep(st: State, steps: seq<Step>, step: Step)
    ensures Run(st, steps + [step]) == Next(Run(st, steps), step)
  {
    assert (steps + [step])[..|steps|] == steps;
  }

  /**
   A successful finish under the current lease sets the next attempt by the stated delay, and never earlier
   than half a minute.
   */
  lemma FinishSchedules(init: State, steps: seq<Step>, w: WorkerId, error: bool)
    requires Init(init)
    requires var st := Run(init, steps); w in st.workers && HoldsCurrent(st, w, st.workers[w].0)
    ensures var st := Run(init, steps);
            var id := st.workers[w].0;
            var st' := Next(st, FinishRow(w, error));
            var delay := st'.rows[id].nextAttemptAt - st.now;
            && id in st'.rows && 30 <= delay <= 86_400 && st'.rows[id].lease == None && st'.rows[id].failed == error
            && (error ==>
                  && delay == ErrorDelay(st.rows[id].attempts + 1) <= 3_600
                  && st'.rows[id].attempts == st.rows[id].attempts + 1
                  && st'.rows[id].lastCleanedAt == st.rows[id].lastCleanedAt)
            && (!error ==>
                  && delay == (if st.now < st.rows[id].createdAt + 172_800 then 3_600 else 86_400)
                  && st'.rows[id].attempts == 0 && st'.rows[id].lastCleanedAt == Some(st.now))
            && st'.rows[id].createdAt == st.rows[id].createdAt
  {
    RunKeepsInv(init, steps);
    var st := Run(init, steps);
    ErrorDelayBounds(st.rows[st.workers[w].0].attempts + 1, st.rows[st.workers[w].0].attempts + 1);
  }

  // ----- The table -----

  class PurgeTable {
    var rows: map<RowId, Row>
    var nextLease: LeaseId
    ghost var workers: map<WorkerId, (RowId, LeaseId)>

    ghost function Snapshot(now: int): State
      reads this
    {
      State(now, rows, workers, nextLease)
    }

    /** The row a claim takes: the first in claim order among those due that no other transaction has locked. */
    method BestDue(now: int, locked: set<RowId>) returns (best: Option<RowId>)
      ensures best.None? <==> forall id :: id in rows && id !in locked ==> !Due(rows[id], now)
      ensures best.Some? ==> best.value in rows && best.value !in locked && Due(rows[best.value], now)
      ensures best.Some? ==> forall id :: id in rows && id !in locked && Due(rows[id], now) ==>
                  Before(rows[best.value], rows[id])
    {
      best := None;
      var rest := rows.Keys - locked;
      while rest != {}
        invariant rest <= rows.Keys - locked
        invariant best.None? <==> forall id :: id in rows.Keys - locked - rest ==> !Due(rows[id], now)
        invariant best.Some? ==> best.value in rows.Keys - locked - rest && Due(rows[best.value], now)
        invariant best.Some? ==>
                    forall id :: id in rows.Keys - locked - rest && Due(rows[id], now) ==>
                      Before(rows[best.value], rows[id])
        decreases rest
      {
        var id :| id in rest;
        rest := rest - {id};
        if Due(rows[id], now) && (best.None? || !Before(rows[best.value], rows[id])) { best := Some(id); }
      }
    }

    /** A claim is a claim step of the protocol on the first free due row; without one it changes nothing. */
    method Claim(worker: WorkerId, now: int, locked: set<RowId>) returns (claimed: Option<(RowId, LeaseId)>)
      requires worker !in workers
      modifies this
      ensures claimed.None? ==>
                Snapshot(now) == old(Snapshot(now)) && forall id :: id in rows && id !in locked ==> !Due(rows[id], now)
      ensures claimed.Some? ==>
                && claimed.value.0 in old(rows) && claimed.value.0 !in locked && Due(old(rows)[claimed.value.0], now)
                && Snapshot(now) == Next(old(Snapshot(now)), ClaimRow(worker, claimed.value.0))
                && workers[worker] == claimed.value
                && forall id :: id in old(rows) && id !in locked && Due(old(rows)[id], now) ==>
                     Before(old(rows)[claimed.value.0], old(rows)[id])
    {
      var best := BestDue(now, locked);
      if best.None? { return None; }
      var id := best.value;
      claimed := Some((id, nextLease));
      rows := rows[id := rows[id].(lease := Some(Lease(nextLease, now + LEASE_SECONDS)))];
      workers := workers[worker := (id, nextLease)];
      nextLease := nextLease + 1;
    }

    /** Recording a result is a finish step of the protocol: a superseded lease, or a vanished row, changes no row. */
    method Finish(worker: WorkerId, claimed: (RowId, LeaseId), error: bool, now: int)
      requires worker in workers && workers[worker] == claimed
      modifies this
      ensures Snapshot(now) == Next(old(Snapshot(now)), FinishRow(worker, error))
    {
      workers := workers - {worker};
      if claimed.0 !in rows { return; }
      var row := rows[claimed.0];
      if row.lease.None? || row.lease.value.id != claimed.1 { return; }
      row := row.(attempts := if error then row.attempts + 1 else 0, failed := error);
      if !error { row := row.(lastCleanedAt := Some(now)); }
      var cleanDelay := if now - row.createdAt < 2 * DAY then HOUR else DAY;
      var delay := if error then ErrorDelay(row.attempts) else cleanDelay;
      row := row.(nextAttemptAt := now + delay, lease := None);
      rows := rows[claimed.0 := row];
    }
  }
}
