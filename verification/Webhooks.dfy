/**
 Webhook invocations: revision-fenced acceptance and generation-fenced dispatch
 (api/domains/agent_webhooks/repository.py, api/domains/agent_webhooks/service.py).

 Each locked transaction is one atomic step. Reads that happen before a transaction are steps of their
 own, so any update may come between them. Instants are seconds; a secret stands for its key material.
 */
module Webhooks {
  import opened Common

  type WebhookId = nat
  type InvocationId = nat
  type RequestId = nat
  type Secret = nat

  const STALLED_AFTER := 120
  const NO_SECRET: Secret := 0

  datatype Webhook = Webhook(enabled: bool, retired: bool, revision: nat, secret: Secret)
  datatype Status = Received | Submitted | DispatchFailed
  /** A job the runtime created, with the dispatch that created it. */
  datatype Job = Job(invocation: InvocationId, generation: nat, native: string)
  /**
   `verifiedWith` and `inForce` record the secret the request was verified with and the one stored when it
   was accepted.
   */
  datatype Invocation = Invocation(webhook: WebhookId, eventId: Option<string>, status: Status, generation: nat,
                                   job: Option<Job>, updatedAt: int, verifiedWith: Secret, inForce: Secret)
  /**
   A request past signature verification, holding the webhook row as it was read and the secret it was
   signed with.
   */
  datatype Request = Request(webhook: WebhookId, read: Webhook, eventId: Option<string>, signedWith: Secret)

  datatype State = State(now: int, webhooks: map<WebhookId, Webhook>, invocations: map<InvocationId, Invocation>,
                         requests: map<RequestId, Request>, inFlight: set<(InvocationId, nat)>,
                         started: seq<(InvocationId, nat)>, nextId: InvocationId)

  // ----- Row transitions -----

  function Edited(w: Webhook, enabled: Option<bool>, secret: Option<Secret>): Webhook {
    w.(enabled := if enabled.Some? then enabled.value else w.enabled,
       secret := if secret.Some? then secret.value else w.secret, revision := w.revision + 1)
  }

  function RetiredRow(w: Webhook): Webhook {
    Webhook(false, true, w.revision + 1, NO_SECRET)
  }

  predicate Editable(w: Webhook, expected: nat) { !w.retired && w.revision == expected }

  /** The check under lock before an invocation is inserted. */
  predicate StillActive(w: Webhook, read: Webhook) {
    w.enabled && !w.retired && w.revision == read.revision
  }

  predicate SameEvent(i: Invocation, webhook: WebhookId, eventId: Option<string>) {
    eventId.Some? && i.webhook == webhook && i.eventId == eventId
  }

  predicate Retryable(i: Invocation, now: int) {
    i.status == DispatchFailed || (i.status == Received && i.updatedAt < now - STALLED_AFTER)
  }

  function Retried(i: Invocation, now: int): Invocation {
    i.(generation := i.generation + 1, status := Received, job := None, updatedAt := now)
  }

  /** A dispatch result owns the row only while its generation is current. */
  function Recorded(i: Invocation, generation: nat, job: Option<Job>, now: int): Invocation {
    if i.generation != generation then i
    else i.(job := job, status := if job.Some? then Submitted else DispatchFailed, updatedAt := now)
  }

  // ----- Steps -----

  datatype Step =
    | Tick(seconds: nat)
    | Create(id: WebhookId, initialSecret: Secret, initiallyEnabled: bool)
    | Update(id: WebhookId, expected: nat, enabled: Option<bool>, secret: Option<Secret>)
    | Retire(id: WebhookId, expected: nat)
    | Arrive(request: RequestId, id: WebhookId, signedWith: Secret, eventId: Option<string>)
    | Accept(request: RequestId)
    | Retry(invocation: InvocationId)
    | Report(invocation: InvocationId, generation: nat, native: Option<string>)
    | Crash(invocation: InvocationId, generation: nat)

  function Started(st: State, id: InvocationId, generation: nat): State {
    st.(inFlight := st.inFlight + {(id, generation)}, started := st.started + [(id, generation)])
  }

  function Accepted(st: State, req: RequestId): State
    requires req in st.requests
  {
    var r := st.requests[req];
    var rest := st.(requests := st.requests - {req});
    if r.webhook !in st.webhooks || !StillActive(st.webhooks[r.webhook], r.read) then rest
    else if exists i :: i in st.invocations && SameEvent(st.invocations[i], r.webhook, r.eventId) then rest
    else
      var row := Invocation(r.webhook, r.eventId, Received, 1, None, st.now, r.signedWith,
                            st.webhooks[r.webhook].secret);
      Started(rest.(invocations := st.invocations[st.nextId := row], nextId := st.nextId + 1), st.nextId, 1)
  }

  function Next(st: State, step: Step): State {
    match step
    case Tick(d) => st.(now := st.now + d)
    case Create(id, secret, enabled) =>
      if id in st.webhooks then st else st.(webhooks := st.webhooks[id := Webhook(enabled, false, 1, secret)])
    case Update(id, expected, enabled, secret) =>
      if id in st.webhooks && Editable(st.webhooks[id], expected)
      then st.(webhooks := st.webhooks[id := Edited(st.webhooks[id], enabled, secret)]) else st
    case Retire(id, expected) =>
      if id in st.webhooks && Editable(st.webhooks[id], expected)
      then st.(webhooks := st.webhooks[id := RetiredRow(st.webhooks[id])]) else st
    case Arrive(req, id, signedWith, eventId) =>
      if req !in st.requests && id in st.webhooks && st.webhooks[id].enabled && !st.webhooks[id].retired
         && st.webhooks[id].secret == signedWith
      then st.(requests := st.requests[req := Request(id, st.webhooks[id], eventId, signedWith)]) else st
    case Accept(req) => if req in st.requests then Accepted(st, req) else st
    case Retry(i) =>
      if i in st.invocations && Retryable(st.invocations[i], st.now) then
        var row := Retried(st.invocations[i], st.now);
        Started(st.(invocations := st.invocations[i := row]), i, row.generation)
      else st
    case Report(i, g, native) =>
      if (i, g) in st.inFlight && i in st.invocations then
        var job := if native.Some? then Some(Job(i, g, native.value)) else None;
        st.(invocations := st.invocations[i := Recorded(st.invocations[i], g, job, st.now)],
            inFlight := st.inFlight - {(i, g)})
      else st
    case Crash(i, g) => st.(inFlight := st.inFlight - {(i, g)})
  }

  function Run(st: State, steps: seq<Step>): State {
    if steps == [] then st else Next(Run(st, steps[..|steps| - 1]), steps[|steps| - 1])
  }

  predicate Init(st: State) {
    st.webhooks == map[] && st.invocations == map[] && st.requests == map[] && st.inFlight == {} && st.started == []
  }

  // ----- Invariants -----

  /** Every change bumps the revision, so an equal revision means an equal secret. */
  predicate RequestInv(st: State) {
    forall req :: req in st.requests ==>
      var r := st.requests[req];
      && r.webhook in st.webhooks && r.read.revision <= st.webhooks[r.webhook].revision && r.signedWith == r.read.secret
      && (r.read.revision == st.webhooks[r.webhook].revision ==> r.read.secret == st.webhooks[r.webhook].secret)
  }

  predicate RowInv(st: State, i: InvocationId)
    requires i in st.invocations
  {
    var row := st.invocations[i];
    && i < st.nextId && row.generation >= 1 && row.verifiedWith == row.inForce
    && (row.job.Some? <==> row.status == Submitted)
    && (row.job.Some? ==> row.job.value.invocation == i && row.job.value.generation == row.generation)
  }

  predicate DispatchInv(st: State) {
    && (forall d :: d in st.inFlight ==> d in st.started)
    && (forall n :: 0 <= n < |st.started| ==>
          st.started[n].0 in st.invocations && st.started[n].1 <= st.invocations[st.started[n].0].generation)
    && (forall n, m :: 0 <= n < m < |st.started| ==> st.started[n] != st.started[m])
    && (forall d :: d in st.inFlight && d.0 in st.invocations && d.1 == st.invocations[d.0].generation ==>
          st.invocations[d.0].status == Received)
  }

  predicate EventInv(st: State) {
    forall i, j :: i in st.invocations && j in st.invocations && i != j ==>
      !SameEvent(st.invocations[i], st.invocations[j].webhook, st.invocations[j].eventId)
  }

  predicate Inv(st: State) {
    RequestInv(st) && (forall i :: i in st.invocations ==> RowInv(st, i)) && DispatchInv(st) && EventInv(st)
  }

  lemma AcceptKeepsInv(st: State, req: RequestId)
    requires Inv(st) && req in st.requests
    ensures Inv(Accepted(st, req))
  {
    AcceptKeepsRows(st, req);
    AcceptDispatches(st, req);
    AcceptKeepsEvents(st, req);
  }

  /** A new invocation is verified under the secret in force, because an equal revision means an equal secret. */
  lemma AcceptKeepsRows(st: State, req: RequestId)
    requires RequestInv(st) && req in st.requests && forall i :: i in st.invocations ==> RowInv(st, i)
    ensures RequestInv(Accepted(st, req))
    ensures forall i :: i in Accepted(st, req).invocations ==> RowInv(Accepted(st, req), i)
  {
    forall i | i in Accepted(st, req).invocations ensures RowInv(Accepted(st, req), i) {
      if i in st.invocations { assert RowInv(st, i); }
    }
  }

  lemma AcceptDispatches(st: State, req: RequestId)
    requires DispatchInv(st) && req in st.requests && forall i :: i in st.invocations ==> RowInv(st, i)
    ensures DispatchInv(Accepted(st, req))
  {
    forall i | i in st.invocations ensures i < st.nextId { assert RowInv(st, i); }
  }

  lemma AcceptKeepsEvents(st: State, req: RequestId)
    requires EventInv(st) && req in st.requests
    ensures EventInv(Accepted(st, req))
  {
  }

  lemma RetryKeepsInv(st: State, i: InvocationId)
    requires Inv(st)
    ensures Inv(Next(st, Retry(i)))
  {
    if i in st.invocations && Retryable(st.invocations[i], st.now) {
      assert forall k :: k in st.invocations ==> RowInv(st, k);
      RetryDispatches(st, i);
    }
  }

  lemma RetryDispatches(st: State, i: InvocationId)
    requires DispatchInv(st) && i in st.invocations && Retryable(st.invocations[i], st.now)
    ensures DispatchInv(Next(st, Retry(i)))
  {
    var st' := Next(st, Retry(i));
    var d := (i, st.invocations[i].generation + 1);
    assert st'.started == st.started + [d] && st'.inFlight == st.inFlight + {d};
    assert forall n :: 0 <= n < |st.started| ==> st.started[n] != d;
  }

  lemma ReportKeepsInv(st: State, i: InvocationId, g: nat, native: Option<string>)
    requires Inv(st)
    ensures Inv(Next(st, Report(i, g, native)))
  {
    if i in st.invocations { assert RowInv(st, i); }
  }

  /** Steps that leave invocations alone and start no dispatch. */
  lemma Frame(st: State, later: State)
    requires Inv(st) && RequestInv(later)
    requires later.invocations == st.invocations && later.nextId == st.nextId
    requires later.started == st.started && later.inFlight <= st.inFlight
    ensures Inv(later)
  {
    assert forall i :: i in st.invocations ==> RowInv(st, i);
  }

  /** Every webhook change bumps its revision, so requests read before it are fenced off. */
  lemma WebhookStepKeepsInv(st: State, step: Step)
    requires Inv(st) && (step.Create? || step.Update? || step.Retire? || step.Arrive?)
    ensures Inv(Next(st, step))
  {
    RequestsKept(st, step);
    Frame(st, Next(st, step));
  }

  lemma RequestsKept(st: State, step: Step)
    requires RequestInv(st) && (step.Create? || step.Update? || step.Retire? || step.Arrive?)
    ensures RequestInv(Next(st, step))
    ensures var later := Next(st, step);
            && later.invocations == st.invocations && later.nextId == st.nextId
            && later.started == st.started && later.inFlight == st.inFlight
  {
  }

  lemma IdleStepKeepsInv(st: State, step: Step)
    requires Inv(st) && (step.Tick? || step.Crash?)
    ensures Inv(Next(st, step))
  {
    IdleRequests(st, Next(st, step));
    Frame(st, Next(st, step));
  }

  lemma IdleRequests(st: State, later: State)
    requires RequestInv(st) && later.requests == st.requests && later.webhooks == st.webhooks
    ensures RequestInv(later)
  {
  }

  lemma NextKeepsInv(st: State, step: Step)
    requires Inv(st)
    ensures Inv(Next(st, step))
  {
    match step
    case Tick(_) => IdleStepKeepsInv(st, step);
    case Crash(_, _) => IdleStepKeepsInv(st, step);
    case Create(_, _, _) => WebhookStepKeepsInv(st, step);
    case Update(_, _, _, _) => WebhookStepKeepsInv(st, step);
    case Retire(_, _) => WebhookStepKeepsInv(st, step);
    case Arrive(_, _, _, _) => WebhookStepKeepsInv(st, step);
    case Accept(req) => if req in st.requests { AcceptKeepsInv(st, req); }
    case Retry(i) => RetryKeepsInv(st, i);
    case Report(i, g, native) => ReportKeepsInv(st, i, g, native);
  }

  lemma {:induction false} RunKeepsInv(st: State, steps: seq<Step>)
    requires Init(st)
    ensures Inv(Run(st, steps))
  {
    if steps != [] {
      RunKeepsInv(st, steps[..|steps| - 1]);
      NextKeepsInv(Run(st, steps[..|steps| - 1]), steps[|steps| - 1]);
    }
  }

  // ----- What every run keeps -----

  /** One invocation per webhook and external event id. */
  lemma OneInvocationPerEvent(init: State, steps: seq<Step>, i: InvocationId, j: InvocationId)
    requires Init(init)
    ensures var rows := Run(init, steps).invocations;
            && i in rows && j in rows && rows[i].eventId.Some? && rows[i].webhook == rows[j].webhook
            && rows[i].eventId == rows[j].eventId
            ==> i == j
  {
    RunKeepsInv(init, steps);
  }

  /** No generation of an invocation is ever dispatched twice, and none beyond the row's own. */
  lemma OneDispatchPerGeneration(init: State, steps: seq<Step>, n: nat, m: nat)
    requires Init(init) && n < |Run(init, steps).started| && m < |Run(init, steps).started|
    ensures var st := Run(init, steps);
            && (st.started[n] == st.started[m] ==> n == m)
            && st.started[n].0 in st.invocations && st.started[n].1 <= st.invocations[st.started[n].0].generation
  {
    RunKeepsInv(init, steps);
  }

  /** A stored job always comes from the row's current generation, and is stored exactly when the row is SUBMITTED. */
  lemma JobIsCurrent(init: State, steps: seq<Step>, i: InvocationId)
    requires Init(init) && i in Run(init, steps).invocations
    ensures var row := Run(init, steps).invocations[i];
            && (row.status == Submitted <==> row.job.Some?)
            && (row.job.Some? ==> row.job.value.invocation == i && row.job.value.generation == row.generation)
  {
    RunKeepsInv(init, steps);
    assert RowInv(Run(init, steps), i);
  }

  /** Every accepted invocation was verified with the secret in force when it was accepted. */
  lemma AcceptedUnderSecretInForce(init: State, steps: seq<Step>, i: InvocationId)
    requires Init(init) && i in Run(init, steps).invocations
    ensures Run(init, steps).invocations[i].verifiedWith == Run(init, steps).invocations[i].inForce
  {
    RunKeepsInv(init, steps);
    assert RowInv(Run(init, steps), i);
  }

  /**
   The row is still there for the same event, its generation has not fallen, and if it was SUBMITTED it is
   untouched.
   */
  predicate RowKept(st: State, later: State, i: InvocationId)
    requires i in st.invocations
  {
    && i in later.invocations && st.invocations[i].generation <= later.invocations[i].generation
    && later.invocations[i].webhook == st.invocations[i].webhook
    && later.invocations[i].eventId == st.invocations[i].eventId
    && (st.invocations[i].status == Submitted ==> later.invocations[i] == st.invocations[i])
  }

  lemma StepKeepsRow(st: State, step: Step, i: InvocationId)
    requires Inv(st) && i in st.invocations
    ensures RowKept(st, Next(st, step), i)
  {
    assert RowInv(st, i);
  }

  lemma RunStep(st: State, before: seq<Step>, after: seq<Step>)
    requires after != []
    ensures Run(st, before + after) == Next(Run(st, before + after[..|after| - 1]), after[|after| - 1])
  {
    assert (before + after)[..|before + after| - 1] == before + after[..|after| - 1];
  }

  /** Generations never decrease and SUBMITTED is final, over every continuation of every run. */
  lemma {:induction false} SubmittedIsFinal(init: State, before: seq<Step>, after: seq<Step>, i: InvocationId)
    requires Init(init) && i in Run(init, before).invocations
    ensures RowKept(Run(init, before), Run(init, before + after), i)
    ensures var was, now := Run(init, before).invocations[i], Run(init, before + after).invocations[i];
            was.generation <= now.generation && (was.status == Submitted ==> now == was)
    decreases |after|
  {
    if after == [] {
      assert before + after == before;
    } else {
      var rest := after[..|after| - 1];
      SubmittedIsFinal(init, before, rest, i);
      RunStep(init, before, after);
      RunKeepsInv(init, before + rest);
      var mid := Run(init, before + rest);
      StepKeepsRow(mid, after[|after| - 1], i);
      KeptTransitive(Run(init, before), mid, Next(mid, after[|after| - 1]), i);
    }
  }

  lemma KeptTransitive(a: State, b: State, c: State, i: InvocationId)
    requires i in a.invocations && RowKept(a, b, i) && RowKept(b, c, i)
    ensures RowKept(a, c, i)
  {
  }

  // ----- The repository -----

  /** The stored rows, with the requests and dispatches under way that the protocol also speaks about. */
  class AgentWebhookRepository {
    var webhooks: map<WebhookId, Webhook>
    var invocations: map<InvocationId, Invocation>
    var nextId: InvocationId
    ghost var requests: map<RequestId, Request>
    ghost var inFlight: set<(InvocationId, nat)>
    ghost var started: seq<(InvocationId, nat)>

    ghost function Snapshot(now: int): State
      reads this
    {
      State(now, webhooks, invocations, requests, inFlight, started, nextId)
    }

    method UpdateWebhook(id: WebhookId, expected: nat, enabled: Option<bool>, secret: Option<Secret>, now: int)
      returns (ok: bool)
      modifies this
      ensures ok <==> id in old(webhooks) && Editable(old(webhooks)[id], expected)
      ensures Snapshot(now) == Next(old(Snapshot(now)), Update(id, expected, enabled, secret))
    {
      if id !in webhooks || webhooks[id].retired || webhooks[id].revision != expected { return false; }
      var row := webhooks[id];
      if enabled.Some? { row := row.(enabled := enabled.value); }
      if secret.Some? { row := row.(secret := secret.value); }
      row := row.(revision := row.revision + 1);
      webhooks := webhooks[id := row];
      ok := true;
    }

    method RetireWebhook(id: WebhookId, expected: nat, now: int) returns (ok: bool)
      modifies this
      ensures ok <==> id in old(webhooks) && Editable(old(webhooks)[id], expected)
      ensures Snapshot(now) == Next(old(Snapshot(now)), Retire(id, expected))
    {
      if id !in webhooks || webhooks[id].retired || webhooks[id].revision != expected { return false; }
      var row := webhooks[id];
      row := row.(enabled := false, secret := NO_SECRET);
      row := row.(retired := true, revision := row.revision + 1);
      webhooks := webhooks[id := row];
      ok := true;
    }

    /**
     Inserts an invocation and starts its first dispatch, or finds the invocation that already holds the
     event. `None` means the webhook is no longer active.
     */
    method AcceptInvocation(req: RequestId, r: Request, now: int) returns (id: Option<InvocationId>, duplicate: bool)
      requires req in requests && requests[req] == r
      modifies this
      ensures Snapshot(now) == Next(old(Snapshot(now)), Accept(req))
      ensures id.None? <==> r.webhook !in webhooks || !StillActive(webhooks[r.webhook], r.read)
      ensures id.Some? && duplicate ==>
                id.value in old(invocations) && SameEvent(old(invocations)[id.value], r.webhook, r.eventId)
      ensures id.Some? && !duplicate ==>
                && id.value == old(nextId) && (id.value, 1) in inFlight && id.value in invocations
                && invocations[id.value].webhook == r.webhook && invocations[id.value].eventId == r.eventId
                && (forall i :: i in old(invocations) ==> !SameEvent(old(invocations)[i], r.webhook, r.eventId))
    {
      duplicate := false;
      requests := requests - {req};
      if r.webhook !in webhooks || !StillActive(webhooks[r.webhook], r.read) { return None, false; }
      if exists i :: i in invocations && SameEvent(invocations[i], r.webhook, r.eventId) {
        var existing :| existing in invocations && SameEvent(invocations[existing], r.webhook, r.eventId);
        return Some(existing), true;
      }
      id := Some(nextId);
      var row := Invocation(r.webhook, r.eventId, Received, 1, None, now, r.signedWith, webhooks[r.webhook].secret);
      invocations := invocations[nextId := row];
      inFlight, started := inFlight + {(nextId, 1)}, started + [(nextId, 1)];
      nextId := nextId + 1;
    }

    /** Records what a dispatch under way came to; a superseded one only ends. */
    method RecordDispatchResult(i: InvocationId, generation: nat, native: Option<string>, now: int)
      requires i in invocations && (i, generation) in inFlight
      modifies this
      ensures Snapshot(now) == Next(old(Snapshot(now)), Report(i, generation, native))
    {
      inFlight := inFlight - {(i, generation)};
      var row := invocations[i];
      if row.generation != generation {
        assert invocations == invocations[i := row];
        return;
      }
      row := row.(updatedAt := now);
      if native.Some? {
        row := row.(status := Submitted, job := Some(Job(i, generation, native.value)));
      } else {
        row := row.(status := DispatchFailed, job := None);
      }
      invocations := invocations[i := row];
    }

    /** Starts the next generation of a failed or stalled invocation. */
    method PrepareRetry(i: InvocationId, now: int) returns (row: Option<Invocation>)
      modifies this
      ensures Snapshot(now) == Next(old(Snapshot(now)), Retry(i))
      ensures row.Some? <==> i in old(invocations) && Retryable(old(invocations)[i], now)
      ensures row.Some? ==> i in invocations && row.value == invocations[i] && (i, row.value.generation) in inFlight
    {
      if i !in invocations || !Retryable(invocations[i], now) { return None; }
      var next := invocations[i];
      next := next.(generation := next.generation + 1, status := Received);
      next := next.(job := None, updatedAt := now);
      invocations := invocations[i := next];
      inFlight, started := inFlight + {(i, next.generation)}, started + [(i, next.generation)];
      row := Some(next);
    }
  }
}
