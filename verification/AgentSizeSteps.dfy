/**
 What each operation on the size catalog accepts and changes, spelled out for an administrator
 (api/domains/agent_sizes/service.py, api/domains/agent_sizes/repository.py, api/domains/agent_sizes/models.py).
 */
module AgentSizeSteps {
  import opened Common
  import opened AgentSizes

  // ----- The service -----

  /** Request validation of a new size. */
  predicate ValidSize(s: Size) {
    && 0 < s.cpuRequest <= MAX_CPU && 0 < s.cpuLimit <= MAX_CPU
    && 0 < s.memoryRequest <= MAX_MEMORY && 0 < s.memoryLimit <= MAX_MEMORY && WithinLimits(s)
  }

  function ServiceCreate(c: Catalog, id: SizeId, s: Size): Result<Catalog> {
    if !ValidSize(s) then Unprocessable else Created(c, id, s)
  }

  function ServiceUpdate(c: Catalog, id: SizeId, ch: Changes): Result<Catalog> {
    if !ValidFields(ch) then Unprocessable
    else if id !in c.sizes then NotFound
    else if !WithinLimits(Merged(c.sizes[id], ch)) then Unprocessable
    else if !ServiceAccepts(c.sizes[id], ch) then Conflict
    else Updated(c, id, ch)
  }

  // ----- What is accepted -----

  /**
   A size is created exactly with requests and limits in range, requests within limits, under a new id, and
   never as the default.
   */
  lemma CreateIff(c: Catalog, id: SizeId, s: Size)
    ensures ServiceCreate(c, id, s).Ok? <==>
              && id !in c.sizes && !s.isDefault
              && 0 < s.cpuRequest <= s.cpuLimit <= 64_000
              && 0 < s.memoryRequest <= s.memoryLimit <= 274_877_906_944
    ensures ServiceCreate(c, id, s).Ok? ==> ServiceCreate(c, id, s).value == c.(sizes := c.sizes[id := s])
  {
  }

  /** A bound that applies where the field is given. */
  predicate Within(field: Option<int>, max: int) { field.Some? ==> 0 < field.value <= max }

  /** What the field will be. */
  function Then(field: Option<int>, was: int): int { if field.Some? then field.value else was }

  /**
   A change is accepted exactly when its fields are in range, the merged requests stay within the merged
   limits, and neither the default is disabled nor a disabled size made the default.
   */
  lemma UpdateIff(c: Catalog, id: SizeId, ch: Changes)
    requires Inv(c) && id in c.sizes
    ensures var was := c.sizes[id];
            var enabled := if ch.enabled.Some? then ch.enabled.value else was.enabled;
            ServiceUpdate(c, id, ch).Ok? <==>
              && Within(ch.cpuRequest, 64_000) && Within(ch.cpuLimit, 64_000)
              && Within(ch.memoryRequest, 274_877_906_944) && Within(ch.memoryLimit, 274_877_906_944)
              && Then(ch.cpuRequest, was.cpuRequest) <= Then(ch.cpuLimit, was.cpuLimit)
              && Then(ch.memoryRequest, was.memoryRequest) <= Then(ch.memoryLimit, was.memoryLimit)
              && (was.isDefault || ch.makeDefault ==> enabled)
    ensures ServiceUpdate(c, id, ch).Ok? ==> ServiceUpdate(c, id, ch) == Updated(c, id, ch)
  {
  }

  /** The table itself refuses what the service would: an unknown size, and exactly the constraint violations. */
  lemma TableRefuses(c: Catalog, id: SizeId, ch: Changes)
    ensures Updated(c, id, ch) == NotFound <==> id !in c.sizes
    ensures id in c.sizes ==>
              var was := c.sizes[id];
              var enabled := if ch.enabled.Some? then ch.enabled.value else was.enabled;
              Updated(c, id, ch).Ok? <==>
                && 0 < Then(ch.cpuRequest, was.cpuRequest) <= Then(ch.cpuLimit, was.cpuLimit)
                && 0 < Then(ch.memoryRequest, was.memoryRequest) <= Then(ch.memoryLimit, was.memoryLimit)
                && (was.isDefault || ch.makeDefault ==> enabled)
  {
  }

  /**
   A size is deleted exactly when it is not the default and no Agent chose it, and only it and its allowed
   rows go.
   */
  lemma DeleteIff(c: Catalog, id: SizeId)
    ensures Deleted(c, id).Ok? <==>
              id in c.sizes && !c.sizes[id].isDefault && forall a :: a in c.agents ==> c.agents[a].1 != Some(id)
    ensures Deleted(c, id).Ok? ==>
              var c' := Deleted(c, id).value;
              && c'.sizes == c.sizes - {id} && c'.orgs == c.orgs && c'.agents == c.agents
              && forall org, s :: (org, s) in c'.allowed <==> (org, s) in c.allowed && s != id
  {
  }

  /**
   An Organization's set is replaced exactly when every size it gains is in the catalog and enabled. The set
   then holds what was asked for, without the default; no other Organization's set changes.
   */
  lemma AllowIff(c: Catalog, org: Org, ids: set<SizeId>)
    requires Inv(c)
    ensures SetAllowed(c, org, ids) == NotFound <==> org !in c.orgs
    ensures SetAllowed(c, org, ids).Ok? <==>
              && org in c.orgs
              && forall s :: s in ids && (org, s) !in c.allowed ==> s in c.sizes && c.sizes[s].enabled
    ensures SetAllowed(c, org, ids).Ok? ==>
              var c' := SetAllowed(c, org, ids).value;
              && c'.sizes == c.sizes && c'.orgs == c.orgs && c'.agents == c.agents
              && forall o, s :: (o, s) in c'.allowed <==>
                   if o == org then s in ids && !(s in c.sizes && c.sizes[s].isDefault) else (o, s) in c.allowed
  {
    forall s ensures s in StoredFor(c, org) <==> (org, s) in c.allowed { StoredMember(c, org, s); }
    if org in c.orgs {
      if forall s :: s in ids && (org, s) !in c.allowed ==> s in c.sizes && c.sizes[s].enabled {
        assert Addable(c, Wanted(c, ids) - StoredFor(c, org));
      }
      if Addable(c, Wanted(c, ids) - StoredFor(c, org)) {
        forall s | s in ids && (org, s) !in c.allowed ensures s in c.sizes && c.sizes[s].enabled {
          if s !in Wanted(c, ids) { assert RowConstraint(c.sizes[s]); }
        }
        AllowedRows(c, org, ids);
      }
    }
  }

  lemma AllowedRows(c: Catalog, org: Org, ids: set<SizeId>)
    requires SetAllowed(c, org, ids).Ok?
    ensures forall o, s :: (o, s) in SetAllowed(c, org, ids).value.allowed <==>
              if o == org then s in ids && !(s in c.sizes && c.sizes[s].isDefault) else (o, s) in c.allowed
  {
    forall o, s
      ensures (o, s) in SetAllowed(c, org, ids).value.allowed <==>
                if o == org then s in ids && !(s in c.sizes && c.sizes[s].isDefault) else (o, s) in c.allowed
    {
      assert (o, s) in Rows(org, Wanted(c, ids)) <==> o == org && s in Wanted(c, ids);
    }
  }

  // ----- Runs -----

  /** What an operation leaves behind. */
  function Kept(c: Catalog, r: Result<Catalog>): Catalog {
    match r
    case Ok(after) => after
    case _ => c
  }

  /** Runs take their steps in order; a refused operation leaves the catalog as it was. */
  lemma StepsApply(c: Catalog, steps: seq<Step>, step: Step)
    ensures Run(c, []) == c && Run(c, steps + [step]) == Next(Run(c, steps), step)
    ensures step.Create? ==> Next(c, step) == Kept(c, Created(c, step.id, step.size))
    ensures step.Update? ==> Next(c, step) == Kept(c, Updated(c, step.id, step.changes))
    ensures step.Delete? ==> Next(c, step) == Kept(c, Deleted(c, step.id))
    ensures step.Allow? ==> Next(c, step) == Kept(c, SetAllowed(c, step.org, step.ids))
    ensures step.Hire? ==>
              && Next(c, step).(agents := c.agents) == c
              && Next(c, step).agents == if step.agent !in c.agents && step.org in c.orgs
                                         then c.agents[step.agent := (step.org, None)] else c.agents
    ensures step.Choose? ==> Next(c, step).(agents := c.agents) == c && Next(c, step).agents.Keys == c.agents.Keys
    ensures step.AddOrg? ==> Next(c, step) == c.(orgs := c.orgs + {step.org})
  {
    assert (steps + [step])[..|steps|] == steps;
  }

  /** Every field of every size within the published bounds. */
  predicate Bounded(c: Catalog) {
    forall s :: s in c.sizes ==>
      && c.sizes[s].cpuLimit <= 64_000 && c.sizes[s].memoryLimit <= 274_877_906_944
      && 0 < c.sizes[s].cpuRequest <= c.sizes[s].cpuLimit && 0 < c.sizes[s].memoryRequest <= c.sizes[s].memoryLimit
  }

  /** Nothing the service accepts leaves the published bounds. */
  lemma ServiceKeepsBounds(c: Catalog, id: SizeId, s: Size, ch: Changes)
    requires Inv(c) && Bounded(c)
    ensures ServiceCreate(c, id, s).Ok? ==> Bounded(ServiceCreate(c, id, s).value)
    ensures ServiceUpdate(c, id, ch).Ok? ==> Bounded(ServiceUpdate(c, id, ch).value)
  {
    if ServiceUpdate(c, id, ch).Ok? { UpdateSetsWhatItNames(c, id, ch); }
  }

  /** An Agent without a usable choice starts on the default. */
  lemma ResolveFallsBack(c: Catalog, chosen: Option<SizeId>, d: SizeId)
    requires chosen.None? || chosen.value !in c.sizes
    ensures Resolve(c, chosen, d) == d
  {
  }
}
