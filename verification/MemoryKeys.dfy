/**
 Issuing and revoking an Organization's memory credential (api/domains/agent_memory/key_repository.py).

 A key stands for its hash. Each transaction is atomic: it commits or rolls back; the remote proxy takes
 no part in it. `issued`, `confirmed` and `owner` record history: keys the proxy created, keys whose
 revocation it confirmed, and the Organization each key was once current for.
 */
module MemoryKeys {
  import opened Common

  type Org = nat
  type Key = nat

  const BATCH := 20

  datatype Revocation = Revocation(org: Org, revokedAt: Option<int>, updatedAt: int)

  datatype World = World(orgs: set<Org>, current: map<Org, Key>, revocations: map<Key, Revocation>,
                         issued: set<Key>, confirmed: set<Key>, owner: map<Key, Org>)

  /** How the outside behaves during one `resolve`. */
  datatype Attempt = Attempt(currentKeyValid: bool, created: Option<Key>, committed: bool, revoked: bool,
                             requeued: bool)

  datatype Step =
    | CreateOrg(org: Org)
    | Resolve(org: Org, attempt: Attempt, now: int)
    | DeleteOrg(org: Org, now: int)
    | RevokePending(batch: set<Key>, accepted: set<Key>, orphans: set<Key>, seen: set<Org>, committed: bool, now: int)

  // ----- Transitions -----

  predicate NeedsKey(w: World, org: Org, a: Attempt) {
    org in w.orgs && !(org in w.current && a.currentKeyValid) && a.created.Some?
  }

  function Resolved(w: World, org: Org, a: Attempt, now: int): World {
    if !NeedsKey(w, org, a) then w
    else
      var key := a.created.value;
      var seen := w.(issued := w.issued + {key});
      var queued := Revocation(org, None, now);
      if a.committed then
        seen.(current := w.current[org := key], owner := w.owner[key := org],
              revocations := if org in w.current then w.revocations[w.current[org] := queued] else w.revocations)
      else if a.revoked then seen.(confirmed := w.confirmed + {key})
      else if a.requeued then seen.(revocations := w.revocations[key := queued])
      else seen
  }

  predicate Completed(r: Revocation, org: Org) { r.org == org && r.revokedAt.Some? }

  /**
   Deletion with the Organization's transaction: completed rows go, the current key is queued, its row
   cascades away.
   */
  function OrgDeleted(w: World, org: Org, now: int): World {
    if org !in w.orgs then w
    else
      var kept := map k | k in w.revocations && !Completed(w.revocations[k], org) :: w.revocations[k];
      w.(orgs := w.orgs - {org}, current := w.current - {org},
         revocations := if org in w.current then kept[w.current[org] := Revocation(org, None, now)] else kept)
  }

  /**
   The rows after one pass: revoked rows are stamped, or dropped when their Organization is gone; failed
   rows move back.
   */
  function Passed(revocations: map<Key, Revocation>, orgs: set<Org>, batch: set<Key>, accepted: set<Key>,
                  now: int): map<Key, Revocation> {
    map k | k in revocations && !(k in batch && k in accepted && revocations[k].org !in orgs) ::
      if k !in batch then revocations[k]
      else if k in accepted then revocations[k].(revokedAt := Some(now))
      else revocations[k].(updatedAt := now)
  }

  function Pending(revocations: map<Key, Revocation>): set<Key> {
    set k | k in revocations && revocations[k].revokedAt.None?
  }

  predicate Orphaned(w: World, k: Key) {
    k in w.revocations && w.revocations[k].revokedAt.Some? && w.revocations[k].org !in w.orgs
  }

  /**
   A pass takes pending rows, and removes rows completed for Organizations that are gone. It looks each
   row's Organization up while it runs: one in `seen` may have been deleted by the time the pass commits.
   */
  predicate Admitted(w: World, batch: set<Key>, orphans: set<Key>, seen: set<Org>) {
    batch <= Pending(w.revocations) && w.orgs <= seen && forall k :: k in orphans ==> Orphaned(w, k)
  }

  function Revoked(w: World, batch: set<Key>, accepted: set<Key>, orphans: set<Key>, seen: set<Org>,
                   committed: bool, now: int): World {
    if !Admitted(w, batch, orphans, seen) then w
    else
      var passed := Passed(w.revocations - orphans, seen, batch, accepted, now);
      w.(confirmed := w.confirmed + (batch * accepted), revocations := if committed then passed else w.revocations)
  }

  function Next(w: World, step: Step): World {
    match step
    case CreateOrg(o) => if o in w.owner.Values then w else w.(orgs := w.orgs + {o})
    case Resolve(o, a, now) => Resolved(w, o, a, now)
    case DeleteOrg(o, now) => OrgDeleted(w, o, now)
    case RevokePending(batch, accepted, orphans, seen, committed, now) =>
      Revoked(w, batch, accepted, orphans, seen, committed, now)
  }

  function Run(w: World, steps: seq<Step>): World {
    if steps == [] then w else Next(Run(w, steps[..|steps| - 1]), steps[|steps| - 1])
  }

  // ----- Every key is accounted for -----

  predicate IsCurrent(w: World, k: Key) { exists o :: o in w.current && w.current[o] == k }

  /** The promise for one key: in use, durably queued, or confirmed revoked. */
  predicate AccountedKey(w: World, k: Key) {
    IsCurrent(w, k) || k in Pending(w.revocations) || k in w.confirmed
  }

  predicate Accounted(w: World) { forall k :: k in w.issued ==> AccountedKey(w, k) }

  /** Every key that was ever current for a surviving Organization is still recorded under it. */
  predicate Attributable(w: World) {
    forall k :: k in w.owner && w.owner[k] in w.orgs ==>
      (w.owner[k] in w.current && w.current[w.owner[k]] == k)
        || (k in w.revocations && w.revocations[k].org == w.owner[k])
  }

  predicate Consistent(w: World) {
    && w.current.Keys <= w.orgs
    && (forall o :: o in w.current ==>
          w.current[o] in w.issued && w.current[o] in w.owner && w.owner[w.current[o]] == o)
    && (forall o :: o in w.current ==> w.current[o] !in w.revocations)
    && (forall k :: k in w.revocations ==> k in w.issued && (w.revocations[k].revokedAt.Some? ==> k in w.confirmed))
    && (forall k :: k in w.owner ==> k in w.issued)
    && w.confirmed <= w.issued
    && (forall k :: k in w.revocations && k in w.owner ==> w.revocations[k].org == w.owner[k])
  }

  /** What every run keeps, whatever fails. */
  predicate Sound(w: World) { Consistent(w) && Attributable(w) }

  /** Keys are created fresh. */
  predicate WellFormed(w: World, step: Step) {
    step.Resolve? && step.attempt.created.Some? ==> step.attempt.created.value !in w.issued
  }

  /**
   The one outcome that loses a key: its commit failed, the proxy refused to revoke it, and the retry row
   failed to commit too.
   */
  predicate Loses(w: World, step: Step) {
    step.Resolve? && NeedsKey(w, step.org, step.attempt)
    && !step.attempt.committed && !step.attempt.revoked && !step.attempt.requeued
  }

  lemma ResolveKeepsSound(w: World, org: Org, a: Attempt, now: int)
    requires Sound(w) && WellFormed(w, Resolve(org, a, now))
    ensures Sound(Resolved(w, org, a, now))
  {
  }

  lemma DeleteKeepsSound(w: World, org: Org, now: int)
    requires Sound(w)
    ensures Sound(OrgDeleted(w, org, now))
  {
  }

  lemma RevokeKeepsSound(w: World, batch: set<Key>, accepted: set<Key>, orphans: set<Key>, seen: set<Org>,
                         committed: bool, now: int)
    requires Sound(w)
    ensures Sound(Revoked(w, batch, accepted, orphans, seen, committed, now))
  {
  }

  lemma NextKeepsSound(w: World, step: Step)
    requires Sound(w) && WellFormed(w, step)
    ensures Sound(Next(w, step))
  {
    match step
    case CreateOrg(_) =>
    case Resolve(o, a, now) => ResolveKeepsSound(w, o, a, now);
    case DeleteOrg(o, now) => DeleteKeepsSound(w, o, now);
    case RevokePending(b, acc, orp, seen, c, now) => RevokeKeepsSound(w, b, acc, orp, seen, c, now);
  }

  /** A key stays current unless its own Organization replaces or deletes it, and then it is queued. */
  lemma CurrentStaysAccounted(w: World, step: Step, k: Key)
    requires Sound(w) && WellFormed(w, step) && IsCurrent(w, k)
    ensures AccountedKey(Next(w, step), k)
  {
    var o :| o in w.current && w.current[o] == k;
    var w' := Next(w, step);
    if o in w'.current && w'.current[o] == k {
      assert IsCurrent(w', k);
    } else {
      assert k in Pending(w'.revocations);
    }
  }

  /** No step forgets a key that is accounted for, and none brings back one that is not. */
  lemma StepKeepsAccounting(w: World, step: Step, k: Key)
    requires Sound(w) && WellFormed(w, step) && k in w.issued
    ensures AccountedKey(Next(w, step), k) <==> AccountedKey(w, k)
  {
    if IsCurrent(w, k) {
      CurrentStaysAccounted(w, step, k);
    } else if k !in w.revocations {
      UnrecordedStaysUnrecorded(w, step, k);
    }
  }

  lemma UnrecordedStaysUnrecorded(w: World, step: Step, k: Key)
    requires Sound(w) && WellFormed(w, step) && k in w.issued && !IsCurrent(w, k) && k !in w.revocations
    ensures var w' := Next(w, step);
            !IsCurrent(w', k) && k !in w'.revocations && (k in w'.confirmed <==> k in w.confirmed)
  {
    var w' := Next(w, step);
    forall o | o in w'.current ensures w'.current[o] != k {
      if o in w.current { assert w.current[o] != k; }
    }
  }

  /** A resolve leaves its new key accounted for, except exactly in the triple failure. */
  lemma ResolveAccountsIff(w: World, org: Org, a: Attempt, now: int)
    requires Sound(w) && WellFormed(w, Resolve(org, a, now)) && NeedsKey(w, org, a)
    ensures AccountedKey(Resolved(w, org, a, now), a.created.value) <==> !Loses(w, Resolve(org, a, now))
  {
    var w', k := Resolved(w, org, a, now), a.created.value;
    if a.committed {
      assert w'.current[org] == k;
    } else if Loses(w, Resolve(org, a, now)) {
      forall o | o in w'.current ensures w'.current[o] != k { }
    }
  }

  /**
   The triple failure on the smallest world: the first key of an Organization is live at the proxy and
   recorded nowhere.
   */
  lemma TripleFailureExample()
    ensures var w := World({0}, map[], map[], {}, {}, map[]);
            var after := Resolved(w, 0, Attempt(false, Some(7), false, false, false), 0);
            Sound(w) && Accounted(w) && !Accounted(after) && 7 in after.issued
  {
    var w := World({0}, map[], map[], {}, {}, map[]);
    ResolveAccountsIff(w, 0, Attempt(false, Some(7), false, false, false), 0);
  }

  /**
   Why a pass also clears orphans: one that stamps a row while the row's Organization is being deleted leaves
   a completed row behind which neither the deletion nor any later revocation removes.
   */
  lemma OrphanExample()
    ensures var w := World({}, map[], map[], {}, {}, map[]);
            var steps := [CreateOrg(0), Resolve(0, Attempt(false, Some(1), true, false, false), 1), DeleteOrg(0, 2),
                          RevokePending({1}, {1}, {}, {0}, true, 3)];
            && Init(w) && Orphaned(Run(w, steps), 1)
            && Next(Run(w, steps), RevokePending({}, {}, {1}, {}, true, 4)).revocations == map[]
  {
    var w := World({}, map[], map[], {}, {}, map[]);
    var steps := [CreateOrg(0), Resolve(0, Attempt(false, Some(1), true, false, false), 1), DeleteOrg(0, 2),
                  RevokePending({1}, {1}, {}, {0}, true, 3)];
    RunSnoc(w, [], steps[0]);
    RunSnoc(w, [steps[0]], steps[1]);
    RunSnoc(w, [steps[0], steps[1]], steps[2]);
    RunSnoc(w, [steps[0], steps[1], steps[2]], steps[3]);
    assert Run(w, [] + [steps[0]]) == w.(orgs := {0});
    assert [] + [steps[0]] == [steps[0]] && [steps[0]] + [steps[1]] == [steps[0], steps[1]];
    assert [steps[0], steps[1]] + [steps[2]] == [steps[0], steps[1], steps[2]];
    assert [steps[0], steps[1], steps[2]] + [steps[3]] == steps;
  }

  lemma RunSnoc(w: World, steps: seq<Step>, step: Step)
    ensures Run(w, steps + [step]) == Next(Run(w, steps), step)
  {
    assert (steps + [step])[..|steps|] == steps;
  }

  /** Clearing orphans costs nothing: their revocation is confirmed, and no existing Organization owned them. */
  lemma OrphansAreSettled(w: World, k: Key)
    requires Sound(w) && Orphaned(w, k)
    ensures k in w.confirmed && (k in w.owner ==> w.owner[k] !in w.orgs)
  {
  }

  predicate Init(w: World) {
    w.current == map[] && w.revocations == map[] && w.issued == {} && w.confirmed == {} && w.owner == map[]
  }

  /** The proxy never issues a key twice. */
  ghost predicate FreshKeys(w: World, steps: seq<Step>) {
    forall i :: 0 <= i < |steps| ==> WellFormed(Run(w, steps[..i]), steps[i])
  }

  /** The keys created by the triple failures of a run. */
  function LostKeys(w: World, steps: seq<Step>): set<Key> {
    if steps == [] then {}
    else
      var init, last := steps[..|steps| - 1], steps[|steps| - 1];
      LostKeys(w, init) + if Loses(Run(w, init), last) then {last.attempt.created.value} else {}
  }

  lemma FreshPrefix(w: World, steps: seq<Step>)
    requires FreshKeys(w, steps) && steps != []
    ensures FreshKeys(w, steps[..|steps| - 1]) && WellFormed(Run(w, steps[..|steps| - 1]), steps[|steps| - 1])
  {
    var init := steps[..|steps| - 1];
    forall i | 0 <= i < |init| ensures WellFormed(Run(w, init[..i]), init[i]) { assert init[..i] == steps[..i]; }
  }

  /** What one step does to the account of every key. */
  lemma StepAccounts(w: World, step: Step, lost: set<Key>, k: Key)
    requires Sound(w) && WellFormed(w, step) && k in Next(w, step).issued
    requires lost <= w.issued && (k in w.issued ==> (AccountedKey(w, k) <==> k !in lost))
    ensures var lost' := lost + if Loses(w, step) then {step.attempt.created.value} else {};
            AccountedKey(Next(w, step), k) <==> k !in lost'
  {
    if k in w.issued {
      StepKeepsAccounting(w, step, k);
    } else {
      ResolveAccountsIff(w, step.org, step.attempt, step.now);
    }
  }

  /**
   Over every run, every key ever issued is current, durably queued or confirmed revoked, except exactly
   the keys of triple failures; and no failure costs any key its attribution.
   */
  lemma {:induction false} KeysAlwaysAccounted(w: World, steps: seq<Step>)
    requires Init(w) && FreshKeys(w, steps)
    ensures Sound(Run(w, steps)) && LostKeys(w, steps) <= Run(w, steps).issued
    ensures forall k :: k in Run(w, steps).issued ==> (AccountedKey(Run(w, steps), k) <==> k !in LostKeys(w, steps))
  {
    if steps != [] {
      var init, last := steps[..|steps| - 1], steps[|steps| - 1];
      FreshPrefix(w, steps);
      KeysAlwaysAccounted(w, init);
      NextKeepsSound(Run(w, init), last);
      forall k | k in Run(w, steps).issued ensures AccountedKey(Run(w, steps), k) <==> k !in LostKeys(w, steps) {
        StepAccounts(Run(w, init), last, LostKeys(w, init), k);
      }
    }
  }

  // ----- What each step does -----

  /** A valid key is kept, and nothing is done without an Organization or without a new key from the proxy. */
  lemma ResolveKeeps(w: World, org: Org, a: Attempt, now: int)
    requires org !in w.orgs || (org in w.current && a.currentKeyValid) || a.created.None?
    ensures Next(w, Resolve(org, a, now)) == w
  {
  }

  /**
   Otherwise a committed new key is current for its Organization, and the one it replaces is queued for
   revocation.
   */
  lemma ResolveReplaces(w: World, org: Org, a: Attempt, now: int)
    requires org in w.orgs && (org in w.current ==> !a.currentKeyValid) && a.created.Some? && a.committed
    ensures var later := Next(w, Resolve(org, a, now));
            && later.current == w.current[org := a.created.value] && later.issued == w.issued + {a.created.value}
            && later.owner == w.owner[a.created.value := org] && later.confirmed == w.confirmed && later.orgs == w.orgs
            && later.revocations == if org in w.current then w.revocations[w.current[org] := Revocation(org, None, now)]
                                    else w.revocations
  {
  }

  /** A failed commit leaves the current key; the new one is revoked at once, or queued, or lost. */
  lemma ResolveRollsBack(w: World, org: Org, a: Attempt, now: int)
    requires org in w.orgs && (org in w.current ==> !a.currentKeyValid) && a.created.Some? && !a.committed
    ensures var later, key := Next(w, Resolve(org, a, now)), a.created.value;
            && later.current == w.current && later.owner == w.owner && later.issued == w.issued + {key}
            && later.confirmed == (if a.revoked then w.confirmed + {key} else w.confirmed)
            && later.revocations == if !a.revoked && a.requeued then w.revocations[key := Revocation(org, None, now)]
                                    else w.revocations
  {
  }

  /** Deletion removes the Organization, its current row and its completed rows, and queues its current key. */
  lemma DeleteStep(w: World, org: Org, now: int, k: Key)
    ensures org !in w.orgs ==> Next(w, DeleteOrg(org, now)) == w
    ensures org in w.orgs ==>
              var later := Next(w, DeleteOrg(org, now));
              var wasCurrent := org in w.current && w.current[org] == k;
              && later.orgs == w.orgs - {org} && later.current == w.current - {org}
              && later.issued == w.issued && later.confirmed == w.confirmed && later.owner == w.owner
              && (wasCurrent ==> k in later.revocations && later.revocations[k] == Revocation(org, None, now))
              && (!wasCurrent ==>
                    (k in later.revocations <==>
                       k in w.revocations && (w.revocations[k].org != org || w.revocations[k].revokedAt.None?))
                    && (k in later.revocations ==> later.revocations[k] == w.revocations[k]))
  {
  }

  /**
   What one pass does to one row. A pass that rolls back leaves the rows, though the proxy has confirmed
   what it accepted.
   */
  lemma PassStep(w: World, batch: set<Key>, accepted: set<Key>, orphans: set<Key>, seen: set<Org>, committed: bool,
                 now: int, k: Key)
    requires Admitted(w, batch, orphans, seen)
    ensures var later := Next(w, RevokePending(batch, accepted, orphans, seen, committed, now));
            && later.confirmed == w.confirmed + batch * accepted
            && later.orgs == w.orgs && later.current == w.current && later.issued == w.issued && later.owner == w.owner
            && (!committed ==> later.revocations == w.revocations)
            && (committed ==>
                  (k in later.revocations <==>
                     k in w.revocations && k !in orphans
                     && !(k in batch && k in accepted && w.revocations[k].org !in seen))
                  && (k in later.revocations ==>
                        later.revocations[k] ==
                          if k !in batch then w.revocations[k]
                          else if k in accepted then w.revocations[k].(revokedAt := Some(now))
                          else w.revocations[k].(updatedAt := now)))
  {
    forall x | x in orphans ensures x !in batch { assert Orphaned(w, x); }
  }

  /** The hashes spend is attributed by: current keys, overridden by revocations of existing Organizations. */
  function Hashes(w: World): map<Key, Org>
    requires Consistent(w)
  {
    (map o | o in w.current :: w.current[o] := o)
    + map k | k in w.revocations && w.revocations[k].org in w.orgs :: w.revocations[k].org
  }

  /**
   After any run, every key ever current for an Organization that still exists is attributed to it, lost
   keys or not.
   */
  lemma HashesAttribute(w: World, steps: seq<Step>, k: Key)
    requires Init(w) && FreshKeys(w, steps)
    requires k in Run(w, steps).owner && Run(w, steps).owner[k] in Run(w, steps).orgs
    ensures Consistent(Run(w, steps))
    ensures k in Hashes(Run(w, steps)) && Hashes(Run(w, steps))[k] == Run(w, steps).owner[k]
  {
    KeysAlwaysAccounted(w, steps);
    SoundAttributes(Run(w, steps), k);
  }

  /** Only existing Organizations are charged, and only for keys that are, or were, theirs. */
  lemma HashesAreOwned(w: World, k: Key)
    requires Sound(w) && k in Hashes(w)
    ensures var org := Hashes(w)[k];
            && org in w.orgs
            && ((org in w.current && w.current[org] == k) || (k in w.revocations && w.revocations[k].org == org))
  {
  }

  lemma SoundAttributes(w: World, k: Key)
    requires Sound(w) && k in w.owner && w.owner[k] in w.orgs
    ensures k in Hashes(w) && Hashes(w)[k] == w.owner[k]
  {
    if !(k in w.revocations && w.revocations[k].org in w.orgs) {
      assert w.current[w.owner[k]] == k;
    }
  }

  // ----- The repository -----

  class MemoryKeyRepository {
    var orgs: set<Org>
    var current: map<Org, Key>
    var revocations: map<Key, Revocation>
    ghost var issued: set<Key>
    ghost var confirmed: set<Key>
    ghost var owner: map<Key, Org>

    ghost function Snapshot(): World
      reads this
    {
      World(orgs, current, revocations, issued, confirmed, owner)
    }

    /** Returns the valid current key or a new one; the commit may fail after the proxy has already issued the key. */
    method ResolveKey(org: Org, a: Attempt, now: int) returns (key: Option<Key>)
      modifies this
      ensures Snapshot() == Resolved(old(Snapshot()), org, a, now)
      ensures key.Some? ==> org in current && current[org] == key.value
      ensures key.Some? <==>
                && org in old(orgs)
                && ((org in old(current) && a.currentKeyValid) || (a.created.Some? && a.committed))
    {
      if org !in orgs { return None; }
      var staged := revocations;
      if org in current {
        if a.currentKeyValid { return Some(current[org]); }
        staged := staged[current[org] := Revocation(org, None, now)];
      }
      if a.created.None? { return None; }
      var created := a.created.value;
      issued := issued + {created};
      if a.committed {
        revocations, current, owner := staged, current[org := created], owner[created := org];
        return Some(created);
      }
      // The transaction rolled back, but the proxy has issued the key.
      if a.revoked {
        confirmed := confirmed + {created};
      } else if a.requeued {
        revocations := revocations[created := Revocation(org, None, now)];
      }
      return None;
    }

    /** Up to `limit` pending rows that nobody holds, least recently tried first. */
    method Oldest(limit: nat, locked: set<Key>) returns (batch: set<Key>)
      ensures IsBatch(revocations, locked, limit, batch)
    {
      batch := {};
      var rest := Free(revocations, locked);
      while rest != {} && |batch| < limit
        invariant batch !! rest && batch + rest == Free(revocations, locked) && |batch| <= limit
        invariant forall k, m :: k in batch && m in rest ==> revocations[k].updatedAt <= revocations[m].updatedAt
        decreases rest
      {
        var k := LeastRecent(revocations, rest);
        MoveOne(batch, rest, Free(revocations, locked), k);
        batch, rest := batch + {k}, rest - {k};
      }
    }

    /** One pass: drop orphans, try each row of the batch, then commit or roll back. */
    method RevokeBatch(batch: set<Key>, accepted: set<Key>, orphans: set<Key>, seen: set<Org>, committed: bool,
                       now: int)
      returns (removed: nat)
      requires Admitted(Snapshot(), batch, orphans, seen)
      modifies this
      ensures Snapshot() == Revoked(old(Snapshot()), batch, accepted, orphans, seen, committed, now)
      ensures removed == |batch * accepted|
    {
      assert batch !! orphans by {
        forall k | k in orphans ensures k !in batch { assert Orphaned(Snapshot(), k); }
      }
      var staged;
      staged, removed := TryEach(revocations - orphans, seen, batch, accepted, now);
      confirmed := confirmed + batch * accepted;
      if committed { revocations := staged; }
    }

    /** The scheduled pass: the oldest free rows are tried. It is a full pass of the protocol. */
    method RevokeOldest(locked: set<Key>, accepted: set<Key>, orphans: set<Key>, seen: set<Org>, committed: bool,
                        now: int)
      returns (removed: nat, ghost step: Step)
      requires orgs <= seen && forall k :: k in orphans ==> Orphaned(Snapshot(), k)
      modifies this
      ensures step.RevokePending? && Snapshot() == Next(old(Snapshot()), step) && removed == |step.batch * accepted|
      ensures |step.batch| <= 20 && (|step.batch| < 20 ==> step.batch == Pending(old(revocations)) - locked)
      ensures committed ==> FullPass(old(Snapshot()), step, locked)
    {
      var batch := Oldest(BATCH, locked);
      step := RevokePending(batch, accepted, orphans, seen, committed, now);
      removed := RevokeBatch(batch, accepted, orphans, seen, committed, now);
    }

    /** Staged inside the Organization's deletion, which cascades the current row away. */
    method DeleteOrganization(org: Org, now: int)
      modifies this
      ensures Snapshot() == OrgDeleted(old(Snapshot()), org, now)
    {
      if org !in orgs { return; }
      revocations := map k | k in revocations && !Completed(revocations[k], org) :: revocations[k];
      if org in current { revocations := revocations[current[org] := Revocation(org, None, now)]; }
      orgs, current := orgs - {org}, current - {org};
    }
  }

  lemma MoveOne(from: set<Key>, rest: set<Key>, all: set<Key>, k: Key)
    requires from !! rest && from + rest == all && k in rest
    ensures from + {k} !! rest - {k} && (from + {k}) + (rest - {k}) == all && |from + {k}| == |from| + 1
  {
  }

  lemma CountTried(tried: set<Key>, accepted: set<Key>, k: Key)
    requires k !in tried
    ensures |(tried + {k}) * accepted| == |tried * accepted| + if k in accepted then 1 else 0
  {
    assert (tried + {k}) * accepted == tried * accepted + if k in accepted then {k} else {};
  }

  /** Tries to revoke each row of a batch in turn. */
  method TryEach(start: map<Key, Revocation>, orgs: set<Org>, batch: set<Key>, accepted: set<Key>, now: int)
    returns (staged: map<Key, Revocation>, removed: nat)
    requires batch <= start.Keys
    ensures staged == Passed(start, orgs, batch, accepted, now)
    ensures removed == |batch * accepted|
  {
    staged, removed := start, 0;
    var rest := batch;
    ghost var tried: set<Key> := {};
    while rest != {}
      invariant tried !! rest && tried + rest == batch
      invariant staged == Passed(start, orgs, tried, accepted, now) && removed == |tried * accepted|
      decreases rest
    {
      var k :| k in rest;
      PassGrows(start, orgs, tried, accepted, now, k);
      CountTried(tried, accepted, k);
      MoveOne(tried, rest, batch, k);
      if k in accepted {
        if staged[k].org !in orgs {
          staged := staged - {k};
        } else {
          staged := staged[k := staged[k].(revokedAt := Some(now))];
        }
        removed := removed + 1;
      } else {
        staged := staged[k := staged[k].(updatedAt := now)];
      }
      tried, rest := tried + {k}, rest - {k};
    }
    assert tried == batch;
  }

  lemma PassGrows(revocations: map<Key, Revocation>, orgs: set<Org>, batch: set<Key>, accepted: set<Key>, now: int,
                  k: Key)
    requires k in revocations && k !in batch
    ensures k in Passed(revocations, orgs, batch, accepted, now)
            && Passed(revocations, orgs, batch, accepted, now)[k] == revocations[k]
    ensures var was, row := Passed(revocations, orgs, batch, accepted, now), revocations[k];
            Passed(revocations, orgs, batch + {k}, accepted, now) ==
              if k in accepted then (if row.org in orgs then was[k := row.(revokedAt := Some(now))] else was - {k})
              else was[k := row.(updatedAt := now)]
  {
  }

  /** The row tried least recently among some. */
  method LeastRecent(revocations: map<Key, Revocation>, rows: set<Key>) returns (k: Key)
    requires rows != {} && rows <= revocations.Keys
    ensures k in rows && forall m :: m in rows ==> revocations[k].updatedAt <= revocations[m].updatedAt
  {
    k :| k in rows;
    var rest := rows;
    while rest != {}
      invariant k in rows && rest <= rows
      invariant forall m :: m in rows && m !in rest ==> revocations[k].updatedAt <= revocations[m].updatedAt
      decreases rest
    {
      var m :| m in rest;
      rest := rest - {m};
      if revocations[m].updatedAt < revocations[k].updatedAt { k := m; }
    }
  }

  // ----- No starvation -----

  /** Rows no other transaction holds, and that were there when the pass made its selection. */
  function Free(revocations: map<Key, Revocation>, locked: set<Key>): set<Key> { Pending(revocations) - locked }

  /**
   ORDER BY updated_at LIMIT, skipping locked rows: a batch is full or holds every free row, and no free
   row outside it was tried less recently.
   */
  ghost predicate IsBatch(revocations: map<Key, Revocation>, locked: set<Key>, limit: nat, batch: set<Key>) {
    && batch <= Free(revocations, locked) && |batch| <= limit
    && (|batch| < limit ==> batch == Free(revocations, locked))
    && (forall k, m :: k in batch && m in Free(revocations, locked) - batch ==>
          revocations[k].updatedAt <= revocations[m].updatedAt)
  }

  /** A committed pass over all Organizations, while other transactions hold the rows in `locked`. */
  ghost predicate FullPass(w: World, step: Step, locked: set<Key>) {
    step.RevokePending? && step.committed && Admitted(w, step.batch, step.orphans, step.seen)
    && IsBatch(w.revocations, locked, BATCH, step.batch)
  }

  /** The proxy was asked to revoke the key, whether or not it agreed and the pass then committed. */
  predicate Tries(w: World, step: Step, k: Key) {
    step.RevokePending? && Admitted(w, step.batch, step.orphans, step.seen) && k in step.batch
  }

  /** The clock has moved past every instant a pending row records. */
  ghost predicate ClockMoved(w: World, step: Step) {
    !step.CreateOrg? ==> forall k :: k in Pending(w.revocations) ==> w.revocations[k].updatedAt < step.now
  }

  ghost predicate ClockRuns(w: World, steps: seq<Step>) {
    forall i :: 0 <= i < |steps| ==> ClockMoved(Run(w, steps[..i]), steps[i])
  }

  /** The full passes of a run during which row `r` was not held by another transaction. */
  ghost function FullPasses(w: World, steps: seq<Step>, locks: seq<set<Key>>, r: Key): nat
    requires |locks| == |steps|
  {
    if steps == [] then 0
    else
      var n := |steps| - 1;
      FullPasses(w, steps[..n], locks[..n], r)
      + if FullPass(Run(w, steps[..n]), steps[n], locks[n]) && r !in locks[n] then 1 else 0
  }

  /** Full passes are counted one by one, whatever comes between them. */
  lemma FullPassesCount(w: World, steps: seq<Step>, locks: seq<set<Key>>, step: Step, locked: set<Key>, r: Key)
    requires |locks| == |steps|
    ensures FullPasses(w, [], [], r) == 0
    ensures FullPasses(w, steps + [step], locks + [locked], r) == FullPasses(w, steps, locks, r)
              + if FullPass(Run(w, steps), step, locked) && r !in locked then 1 else 0
  {
    assert (steps + [step])[..|steps|] == steps && (locks + [locked])[..|locks|] == locks;
  }

  /** The rows a query would prefer to, or might tie with, row `r`. */
  function Ahead(revocations: map<Key, Revocation>, r: Key): set<Key>
    requires r in revocations
  {
    set k | k in Pending(revocations) && k != r && revocations[k].updatedAt <= revocations[r].updatedAt
  }

  lemma {:induction false} SubsetSize(a: set<Key>, b: set<Key>)
    requires a <= b
    ensures |a| <= |b|
  {
    assert b == a + (b - a);
  }

  /** A step that does not try `r` leaves its row alone and puts no other row ahead of it. */
  lemma UntriedKeepsPlace(w: World, step: Step, r: Key)
    requires Sound(w) && WellFormed(w, step) && ClockMoved(w, step) && r in Pending(w.revocations) && !Tries(w, step, r)
    ensures var later := Next(w, step).revocations;
            && r in Pending(later) && later[r] == w.revocations[r] && Ahead(later, r) <= Ahead(w.revocations, r)
  {
  }

  /** A full pass that could have tried `r` and did not moves a whole batch from ahead of it to behind it. */
  lemma FullPassMovesBatch(w: World, step: Step, locked: set<Key>, r: Key)
    requires Sound(w) && ClockMoved(w, step) && r in Pending(w.revocations) && !Tries(w, step, r)
    requires FullPass(w, step, locked) && r !in locked
    ensures |step.batch| == 20 && step.batch <= Ahead(w.revocations, r)
    ensures r in Next(w, step).revocations && Ahead(Next(w, step).revocations, r) !! step.batch
  {
  }

  lemma StepShortensQueue(w: World, step: Step, locked: set<Key>, r: Key)
    requires Sound(w) && WellFormed(w, step) && ClockMoved(w, step) && r in Pending(w.revocations) && !Tries(w, step, r)
    ensures r in Pending(Next(w, step).revocations)
    ensures |Ahead(Next(w, step).revocations, r)| + (if FullPass(w, step, locked) && r !in locked then BATCH else 0)
         <= |Ahead(w.revocations, r)|
  {
    UntriedKeepsPlace(w, step, r);
    var was, now := Ahead(w.revocations, r), Ahead(Next(w, step).revocations, r);
    if FullPass(w, step, locked) && r !in locked {
      FullPassMovesBatch(w, step, locked, r);
      SubsetSize(now, was - step.batch);
      assert |was - step.batch| == |was| - |step.batch|;
    } else {
      SubsetSize(now, was);
    }
  }

  lemma {:induction false} WaitingBound(w: World, steps: seq<Step>, locks: seq<set<Key>>, r: Key)
    requires |locks| == |steps| && Sound(w) && FreshKeys(w, steps) && ClockRuns(w, steps) && r in Pending(w.revocations)
    requires forall i :: 0 <= i < |steps| ==> !Tries(Run(w, steps[..i]), steps[i], r)
    ensures Sound(Run(w, steps)) && r in Pending(Run(w, steps).revocations)
    ensures |Ahead(Run(w, steps).revocations, r)| + BATCH * FullPasses(w, steps, locks, r) <= |Ahead(w.revocations, r)|
  {
    if steps != [] {
      var n := |steps| - 1;
      var init := steps[..n];
      FreshPrefix(w, steps);
      forall i | 0 <= i < |init|
        ensures ClockMoved(Run(w, init[..i]), init[i]) && !Tries(Run(w, init[..i]), init[i], r)
      {
        assert init[..i] == steps[..i];
      }
      WaitingBound(w, init, locks[..n], r);
      NextKeepsSound(Run(w, init), steps[n]);
      StepShortensQueue(Run(w, init), steps[n], locks[n], r);
    }
  }

  /**
   With n pending rows, every one of them is tried before ceil(n / 20) committed full passes are over,
   however many passes roll back, rows fail, keys are queued and Organizations deleted in between.
   */
  lemma NoStarvation(w: World, steps: seq<Step>, locks: seq<set<Key>>, r: Key)
    requires |locks| == |steps| && Sound(w) && FreshKeys(w, steps) && ClockRuns(w, steps) && r in Pending(w.revocations)
    requires FullPasses(w, steps, locks, r) >= (|Pending(w.revocations)| + 19) / 20
    ensures exists i :: 0 <= i < |steps| && Tries(Run(w, steps[..i]), steps[i], r)
                        && steps[i].RevokePending? && r in steps[i].batch
                        && steps[i].batch <= Pending(Run(w, steps[..i]).revocations)
  {
    if forall i :: 0 <= i < |steps| ==> !Tries(Run(w, steps[..i]), steps[i], r) {
      WaitingBound(w, steps, locks, r);
      assert Ahead(w.revocations, r) <= Pending(w.revocations) - {r};
      SubsetSize(Ahead(w.revocations, r), Pending(w.revocations) - {r});
    }
  }
}
