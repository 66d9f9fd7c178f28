/**
 What the webhook protocol means for deliveries: which are let in, what becomes of a repeated one, and how
 long a dispatch is left alone (api/domains/agent_webhooks/service.py, api/domains/agent_webhooks/repository.py).
 */
module WebhookDeliveries {
  import opened Common
  import opened Webhooks

  lemma RunSnoc(st: State, steps: seq<Step>, step: Step)
    ensures Run(st, steps + [step]) == Next(Run(st, steps), step)
  {
    assert (steps + [step])[..|steps|] == steps;
  }

  // ----- Arrival -----

  /** A delivery that may be let in: the webhook is open and the signature was made with its secret. */
  predicate LetIn(st: State, w: WebhookId, signedWith: Secret) {
    w in st.webhooks && st.webhooks[w].enabled && !st.webhooks[w].retired && st.webhooks[w].secret == signedWith
  }

  /** The request waits, with what was delivered. */
  predicate Waits(st: State, req: RequestId, w: WebhookId, eventId: Option<string>, signedWith: Secret) {
    && req in st.requests && st.requests[req].webhook == w
    && st.requests[req].eventId == eventId && st.requests[req].signedWith == signedWith
  }

  /**
   A delivery is let in exactly when it may be, and then waits unchanged until it is accepted, whatever
   happens meanwhile.
   */
  lemma {:induction false} DeliveryWaits(st: State, req: RequestId, w: WebhookId, signedWith: Secret,
                                         eventId: Option<string>, steps: seq<Step>)
    requires req !in st.requests && forall i :: 0 <= i < |steps| ==> steps[i] != Accept(req)
    requires forall i :: 0 <= i < |steps| ==> !(steps[i].Arrive? && steps[i].request == req)
    ensures var later := Run(Next(st, Arrive(req, w, signedWith, eventId)), steps);
            && (req in later.requests <==> LetIn(st, w, signedWith))
            && (LetIn(st, w, signedWith) ==>
                  Waits(later, req, w, eventId, signedWith) && later.requests[req].read == st.webhooks[w])
  {
    if steps != [] { DeliveryWaits(st, req, w, signedWith, eventId, steps[..|steps| - 1]); }
  }

  /** After an update the ingress goes by what it changed, and by what it left alone. */
  lemma UpdateDecidesArrivals(st: State, w: WebhookId, enabled: Option<bool>, secret: Option<Secret>,
                              signedWith: Secret)
    requires w in st.webhooks && !st.webhooks[w].retired
    ensures var was := st.webhooks[w];
            LetIn(Next(st, Update(w, was.revision, enabled, secret)), w, signedWith) <==>
              && (if enabled.Some? then enabled.value else was.enabled)
              && signedWith == (if secret.Some? then secret.value else was.secret)
    ensures var later := Next(st, Update(w, st.webhooks[w].revision, enabled, secret));
            && later.webhooks.Keys == st.webhooks.Keys && later.webhooks[w].revision == st.webhooks[w].revision + 1
            && !later.webhooks[w].retired && later.(webhooks := st.webhooks) == st
            && forall v :: v in st.webhooks && v != w ==> later.webhooks[v] == st.webhooks[v]
  {
  }

  /** An edit made against an older revision, or of a retired or unknown webhook, changes nothing. */
  lemma StaleEditIsRefused(st: State, w: WebhookId, expected: nat, enabled: Option<bool>, secret: Option<Secret>)
    requires w !in st.webhooks || st.webhooks[w].retired || st.webhooks[w].revision != expected
    ensures Next(st, Update(w, expected, enabled, secret)) == st && Next(st, Retire(w, expected)) == st
  {
  }

  /** Retirement closes the webhook, forgets its secret, and counts as a change. */
  lemma RetireCloses(st: State, w: WebhookId)
    requires w in st.webhooks && !st.webhooks[w].retired
    ensures var later := Next(st, Retire(w, st.webhooks[w].revision));
            && later == st.(webhooks := st.webhooks[w := Webhook(false, true, st.webhooks[w].revision + 1, 0)])
  {
  }

  /** A webhook is created at its first revision, and never over another; the clock only moves when it ticks. */
  lemma CreateAndTick(st: State, w: WebhookId, secret: Secret, enabled: bool, d: nat)
    ensures Next(st, Create(w, secret, enabled)) ==
            if w in st.webhooks then st else st.(webhooks := st.webhooks[w := Webhook(enabled, false, 1, secret)])
    ensures Next(st, Tick(d)) == st.(now := st.now + d)
  {
  }

  /** A delivery that is not let in, or would take the place of a waiting one, leaves no trace. */
  lemma RefusedLeavesNoTrace(st: State, req: RequestId, w: WebhookId, signedWith: Secret, eventId: Option<string>)
    requires req in st.requests || !LetIn(st, w, signedWith)
    ensures Next(st, Arrive(req, w, signedWith, eventId)) == st
  {
  }

  /** A retired webhook stays closed over every continuation, to deliveries and to requests already waiting. */
  lemma {:induction false} RetiredForever(st: State, w: WebhookId, steps: seq<Step>, signedWith: Secret, req: RequestId)
    requires w in st.webhooks && st.webhooks[w].retired
    ensures var later := Run(st, steps);
            && w in later.webhooks && later.webhooks[w].retired && !LetIn(later, w, signedWith)
            && (req in later.requests && later.requests[req].webhook == w ==>
                  Next(later, Accept(req)).invocations == later.invocations)
  {
    if steps != [] { RetiredForever(st, w, steps[..|steps| - 1], signedWith, req); }
  }

  // ----- Acceptance -----

  ghost predicate HoldsEvent(st: State, i: InvocationId, w: WebhookId, eventId: Option<string>) {
    i in st.invocations && st.invocations[i].webhook == w && st.invocations[i].eventId == eventId
  }

  /** The webhook is as the request read it, and open. */
  predicate Unchanged(st: State, req: RequestId)
    requires req in st.requests
  {
    var r := st.requests[req];
    && r.webhook in st.webhooks && st.webhooks[r.webhook].revision == r.read.revision
    && st.webhooks[r.webhook].enabled && !st.webhooks[r.webhook].retired
  }

  /**
   An acceptance inserts an invocation exactly for an unchanged webhook and a new event; it then holds the
   event and is dispatched.
   */
  lemma AcceptInserts(init: State, steps: seq<Step>, req: RequestId)
    requires Init(init) && req in Run(init, steps).requests
    ensures var st := Run(init, steps);
            var later, r := Next(st, Accept(req)), st.requests[req];
            var known := r.eventId.Some? && exists i :: HoldsEvent(st, i, r.webhook, r.eventId);
            if Unchanged(st, req) && !known
            then && st.nextId !in st.invocations && HoldsEvent(later, st.nextId, r.webhook, r.eventId)
                 && later.invocations[st.nextId].status == Received && later.invocations[st.nextId].generation == 1
                 && later.invocations[st.nextId].updatedAt == st.now
                 && later.started == st.started + [(st.nextId, 1)]
                 && later.invocations.Keys == st.invocations.Keys + {st.nextId}
            else later.invocations == st.invocations && later.started == st.started
  {
    RunKeepsInv(init, steps);
    var st := Run(init, steps);
    forall i | i in st.invocations ensures i < st.nextId { assert RowInv(st, i); }
    var r := st.requests[req];
    if i :| i in st.invocations && SameEvent(st.invocations[i], r.webhook, r.eventId) {
      assert HoldsEvent(st, i, r.webhook, r.eventId);
    }
    if r.eventId.Some? && exists i :: HoldsEvent(st, i, r.webhook, r.eventId) {
      var i :| HoldsEvent(st, i, r.webhook, r.eventId);
      assert SameEvent(st.invocations[i], r.webhook, r.eventId);
    }
  }

  /** Accepting answers the request: it is gone, and no other request is. */
  lemma AcceptConsumes(st: State, req: RequestId)
    requires req in st.requests
    ensures Next(st, Accept(req)).requests == st.requests - {req}
    ensures Next(st, Accept(req)).webhooks == st.webhooks && Next(st, Accept(req)).now == st.now
  {
  }

  /** Once a delivery of an event was accepted, some invocation holds the event. */
  lemma AcceptedIsHeld(init: State, steps: seq<Step>, req: RequestId) returns (i: InvocationId)
    requires Init(init) && req in Run(init, steps).requests && Unchanged(Run(init, steps), req)
    requires Run(init, steps).requests[req].eventId.Some?
    ensures var r := Run(init, steps).requests[req];
            HoldsEvent(Run(init, steps + [Accept(req)]), i, r.webhook, r.eventId)
  {
    var st := Run(init, steps);
    var r := st.requests[req];
    AcceptInserts(init, steps, req);
    RunSnoc(init, steps, Accept(req));
    if exists k :: HoldsEvent(st, k, r.webhook, r.eventId) {
      i :| HoldsEvent(st, i, r.webhook, r.eventId);
    } else {
      i := st.nextId;
    }
  }

  /**
   A redelivered event is a duplicate: whatever happened since a delivery of it was accepted, accepting
   another delivery of it stores nothing and dispatches nothing.
   */
  lemma RedeliveryIsDuplicate(init: State, before: seq<Step>, first: RequestId, after: seq<Step>, second: RequestId,
                              w: WebhookId, e: string, s: Secret, t: Secret)
    requires Init(init)
    requires Waits(Run(init, before), first, w, Some(e), s) && Unchanged(Run(init, before), first)
    requires Waits(Run(init, before + [Accept(first)] + after), second, w, Some(e), t)
    ensures var st := Run(init, before + [Accept(first)] + after);
            Next(st, Accept(second)).invocations == st.invocations && Next(st, Accept(second)).started == st.started
  {
    var accepted := before + [Accept(first)];
    var i := AcceptedIsHeld(init, before, first);
    SubmittedIsFinal(init, accepted, after, i);
    assert HoldsEvent(Run(init, accepted + after), i, w, Some(e));
    AcceptInserts(init, accepted + after, second);
  }

  lemma {:induction false} RevisionNeverFalls(st: State, steps: seq<Step>, w: WebhookId)
    requires w in st.webhooks
    ensures w in Run(st, steps).webhooks && st.webhooks[w].revision <= Run(st, steps).webhooks[w].revision
  {
    if steps != [] { RevisionNeverFalls(st, steps[..|steps| - 1], w); }
  }

  /** Whatever was changed about the webhook, a request verified before the change is refused for good. */
  lemma ChangeRefusesWaiting(init: State, before: seq<Step>, change: Step, after: seq<Step>, req: RequestId)
    requires Init(init) && req in Run(init, before).requests
    requires var r := Run(init, before).requests[req];
             && (change.Update? || change.Retire?) && change.id == r.webhook
             && r.webhook in Run(init, before).webhooks && !Run(init, before).webhooks[r.webhook].retired
             && change.expected == Run(init, before).webhooks[r.webhook].revision
    requires var later := Run(Run(init, before + [change]), after);
             req in later.requests && later.requests[req] == Run(init, before).requests[req]
    ensures var later := Run(Run(init, before + [change]), after);
            Next(later, Accept(req)).invocations == later.invocations
  {
    RunKeepsInv(init, before);
    RunSnoc(init, before, change);
    RevisionNeverFalls(Run(init, before + [change]), after, Run(init, before).requests[req].webhook);
  }

  // ----- Dispatch -----

  lemma {:induction false} ClockNeverFalls(st: State, steps: seq<Step>)
    ensures st.now <= Run(st, steps).now
  {
    if steps != [] { ClockNeverFalls(st, steps[..|steps| - 1]); }
  }

  lemma StepLeavesDispatch(st: State, step: Step, i: InvocationId)
    requires i in st.invocations && i < st.nextId && st.invocations[i].status == Received
    requires Next(st, step).now <= st.invocations[i].updatedAt + 120
    requires !(step.Report? && step.invocation == i)
    ensures i in Next(st, step).invocations && Next(st, step).invocations[i] == st.invocations[i]
    ensures Next(st, step).nextId >= st.nextId
  {
  }

  /** No retry supersedes a dispatch within two minutes of its start: until it reports, its row stays as it is. */
  lemma {:induction false} DispatchHasItsTime(st: State, steps: seq<Step>, i: InvocationId)
    requires i in st.invocations && i < st.nextId && st.invocations[i].status == Received
    requires Run(st, steps).now <= st.invocations[i].updatedAt + 120
    requires forall k :: 0 <= k < |steps| ==> !(steps[k].Report? && steps[k].invocation == i)
    ensures i in Run(st, steps).invocations && Run(st, steps).invocations[i] == st.invocations[i]
    ensures Run(st, steps).nextId >= st.nextId
  {
    if steps != [] {
      var init, last := steps[..|steps| - 1], steps[|steps| - 1];
      var mid := Run(st, init);
      ClockNeverFalls(mid, [last]);
      RunSnoc(mid, [], last);
      assert [] + [last] == [last];
      DispatchHasItsTime(st, init, i);
      StepLeavesDispatch(mid, last, i);
    }
  }

  /** After that, or after a failure, a retry starts the next generation, with the clock set anew. */
  lemma LateRetryStarts(st: State, i: InvocationId)
    requires i in st.invocations && st.invocations[i].status != Submitted
    requires st.invocations[i].status == Received ==> st.invocations[i].updatedAt + 120 < st.now
    ensures var was, now := st.invocations[i], Next(st, Retry(i)).invocations[i];
            && now.status == Received && now.generation == was.generation + 1 && now.updatedAt == st.now
            && now.job == None && now.webhook == was.webhook && now.eventId == was.eventId
            && Next(st, Retry(i)).started == st.started + [(i, now.generation)]
            && (i, now.generation) in Next(st, Retry(i)).inFlight
  {
  }

  /** A dispatch reports once, or crashes and never does; either way it is over, and no other is. */
  lemma DispatchEnds(st: State, i: InvocationId, g: nat, native: Option<string>)
    requires i in st.invocations
    ensures Next(st, Report(i, g, native)).inFlight == st.inFlight - {(i, g)}
    ensures Next(st, Crash(i, g)) == st.(inFlight := st.inFlight - {(i, g)})
    ensures (i, g) !in st.inFlight ==> Next(st, Report(i, g, native)) == st
    ensures forall k :: k in st.invocations && (k != i || g != st.invocations[i].generation) ==>
              k in Next(st, Report(i, g, native)).invocations
              && Next(st, Report(i, g, native)).invocations[k] == st.invocations[k]
  {
  }

  /** A current dispatch decides the row: the runtime's job makes it SUBMITTED, none makes it failed. */
  lemma ReportDecides(st: State, i: InvocationId, native: Option<string>)
    requires i in st.invocations && (i, st.invocations[i].generation) in st.inFlight
    ensures var was, now := st.invocations[i], Next(st, Report(i, st.invocations[i].generation, native)).invocations[i];
            && (now.status == Submitted <==> native.Some?) && (now.status == DispatchFailed <==> native.None?)
            && (native.Some? ==> now.job.Some? && now.job.value.native == native.value)
            && now.generation == was.generation && now.updatedAt == st.now
            && now.webhook == was.webhook && now.eventId == was.eventId
  {
  }
}
