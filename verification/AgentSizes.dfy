/**
 The Agent Size catalog: one default, per-Organization allowed sets, and the default switch
 (api/domains/agent_sizes/repository.py, lookup.py, service.py, models.py).

 Each locked transaction is one atomic step; a violated table constraint rolls it back.
 */
module AgentSizes {
  import opened Common

  type SizeId = nat
  type Org = nat
  type AgentId = nat

  const MAX_CPU := 64_000
  const MAX_MEMORY := 256 * 1024 * 1024 * 1024

  datatype Size = Size(cpuRequest: int, cpuLimit: int, memoryRequest: int, memoryLimit: int, enabled: bool,
                       isDefault: bool)

  /** A partial edit. `makeDefault` is the only accepted change of the default flag. */
  datatype Changes = Changes(cpuRequest: Option<int>, cpuLimit: Option<int>, memoryRequest: Option<int>,
                             memoryLimit: Option<int>, enabled: Option<bool>, makeDefault: bool)

  /** `allowed` holds the stored (Organization, size) rows; `agents` each Agent row's Organization and chosen size. */
  datatype Catalog = Catalog(sizes: map<SizeId, Size>, orgs: set<Org>, allowed: set<(Org, SizeId)>,
                             agents: map<AgentId, (Org, Option<SizeId>)>)

  datatype Result<T> = Ok(value: T) | NotFound | Unprocessable | Conflict

  // ----- Constraints and lookups -----

  predicate WithinLimits(s: Size) { s.cpuRequest <= s.cpuLimit && s.memoryRequest <= s.memoryLimit }

  /** The CHECK constraints of the table. */
  predicate RowConstraint(s: Size) {
    0 < s.cpuRequest && 0 < s.memoryRequest && WithinLimits(s) && (s.enabled || !s.isDefault)
  }

  predicate IsDefault(c: Catalog, d: SizeId) {
    d in c.sizes && c.sizes[d].isDefault && forall s :: s in c.sizes && c.sizes[s].isDefault ==> s == d
  }

  function StoredFor(c: Catalog, org: Org): set<SizeId> {
    set row | row in c.allowed && row.0 == org :: row.1
  }

  /** The sizes an Organization's Agents may be put on. */
  function Choosable(c: Catalog, org: Org): set<SizeId> {
    set s | s in c.sizes && (c.sizes[s].isDefault || (s in StoredFor(c, org) && c.sizes[s].enabled))
  }

  /** The size an Agent starts on, given the default: the chosen one if it still exists. */
  function Resolve(c: Catalog, chosen: Option<SizeId>, default_: SizeId): SizeId {
    if chosen.Some? && chosen.value in c.sizes then chosen.value else default_
  }

  // ----- Transitions -----

  function Or<T>(change: Option<T>, old_: T): T { if change.Some? then change.value else old_ }

  function Merged(s: Size, ch: Changes): Size {
    Size(Or(ch.cpuRequest, s.cpuRequest), Or(ch.cpuLimit, s.cpuLimit), Or(ch.memoryRequest, s.memoryRequest),
         Or(ch.memoryLimit, s.memoryLimit), Or(ch.enabled, s.enabled), s.isDefault || ch.makeDefault)
  }

  /** Every Organization that can choose trades the new default for the old one. */
  function Swapped(allowed: set<(Org, SizeId)>, new_: SizeId, old_: SizeId): set<(Org, SizeId)> {
    (set row | row in allowed && row.1 != new_) + set row | row in allowed :: (row.0, old_)
  }

  function Defaults(sizes: map<SizeId, Size>): set<SizeId> { set s | s in sizes && sizes[s].isDefault }

  function Cleared(sizes: map<SizeId, Size>): map<SizeId, Size> {
    map s | s in sizes :: sizes[s].(isDefault := false)
  }

  /** The swap for whichever size is the default; without one nothing is stored in its place. */
  function SwappedFrom(sizes: map<SizeId, Size>, allowed: set<(Org, SizeId)>, new_: SizeId): set<(Org, SizeId)> {
    if Defaults(sizes) == {} then allowed
    else set d, row | d in Defaults(sizes) && row in Swapped(allowed, new_, d) :: row
  }

  /** The repository update on locked rows: `Conflict` when a constraint refuses the commit. */
  function Updated(c: Catalog, id: SizeId, ch: Changes): Result<Catalog> {
    if id !in c.sizes then NotFound
    else
      var size := Merged(c.sizes[id], ch);
      if !RowConstraint(size) then Conflict
      else if ch.makeDefault && !c.sizes[id].isDefault then
        Ok(c.(sizes := Cleared(c.sizes)[id := size], allowed := SwappedFrom(c.sizes, c.allowed, id)))
      else Ok(c.(sizes := c.sizes[id := size]))
  }

  /** The service guard before it, on the same row. */
  predicate ServiceAccepts(s: Size, ch: Changes) {
    var merged := Merged(s, ch);
    && WithinLimits(merged) && !(s.isDefault && !merged.enabled) && !(ch.makeDefault && !merged.enabled)
  }

  /** Request validation of single fields. */
  predicate ValidFields(ch: Changes) {
    && (ch.cpuRequest.Some? ==> 0 < ch.cpuRequest.value <= MAX_CPU)
    && (ch.cpuLimit.Some? ==> 0 < ch.cpuLimit.value <= MAX_CPU)
    && (ch.memoryRequest.Some? ==> 0 < ch.memoryRequest.value <= MAX_MEMORY)
    && (ch.memoryLimit.Some? ==> 0 < ch.memoryLimit.value <= MAX_MEMORY)
  }

  function Created(c: Catalog, id: SizeId, s: Size): Result<Catalog> {
    if id in c.sizes || !RowConstraint(s) || s.isDefault then Conflict else Ok(c.(sizes := c.sizes[id := s]))
  }

  predicate Referenced(c: Catalog, id: SizeId) {
    exists a :: a in c.agents && c.agents[a].1 == Some(id)
  }

  /** The repository delete: it checks references, not the default flag. Allowed rows cascade. */
  function RowDeleted(c: Catalog, id: SizeId): Result<Catalog> {
    if id !in c.sizes then NotFound
    else if Referenced(c, id) then Conflict
    else Ok(c.(sizes := c.sizes - {id}, allowed := (set row | row in c.allowed && row.1 != id)))
  }

  /** The service delete as one step: the default is refused first. */
  function Deleted(c: Catalog, id: SizeId): Result<Catalog> {
    if id in c.sizes && c.sizes[id].isDefault then Conflict else RowDeleted(c, id)
  }

  function Rows(org: Org, ids: set<SizeId>): set<(Org, SizeId)> { set s | s in ids :: (org, s) }

  function Wanted(c: Catalog, ids: set<SizeId>): set<SizeId> {
    set s | s in ids && !(s in c.sizes && c.sizes[s].isDefault)
  }

  predicate Addable(c: Catalog, ids: set<SizeId>) { forall s :: s in ids ==> s in c.sizes && c.sizes[s].enabled }

  /** Replacing an Organization's allowed set: the default is dropped, and only enabled known sizes may be added. */
  function SetAllowed(c: Catalog, org: Org, ids: set<SizeId>): Result<Catalog> {
    if org !in c.orgs then NotFound
    else if !Addable(c, Wanted(c, ids) - StoredFor(c, org)) then Unprocessable
    else Ok(c.(allowed := (set row | row in c.allowed && row.0 != org) + Rows(org, Wanted(c, ids))))
  }

  datatype Step =
    | Create(id: SizeId, size: Size)
    | Update(id: SizeId, changes: Changes)
    | Delete(id: SizeId)
    | Allow(org: Org, ids: set<SizeId>)
    | Hire(agent: AgentId, org: Org)
    | Choose(agent: AgentId, choice: Option<SizeId>)
    | AddOrg(org: Org)

  function OrKeep(c: Catalog, r: Result<Catalog>): Catalog { if r.Ok? then r.value else c }

  function Next(c: Catalog, step: Step): Catalog {
    match step
    case Create(id, s) => OrKeep(c, Created(c, id, s))
    case Update(id, ch) => OrKeep(c, Updated(c, id, ch))
    case Delete(id) => OrKeep(c, Deleted(c, id))
    case Allow(org, ids) => OrKeep(c, SetAllowed(c, org, ids))
    case Hire(a, org) => if a in c.agents || org !in c.orgs then c else c.(agents := c.agents[a := (org, None)])
    case Choose(a, choice) =>
      if a in c.agents && (choice.None? || choice.value in Choosable(c, c.agents[a].0))
      then c.(agents := c.agents[a := (c.agents[a].0, choice)]) else c
    case AddOrg(org) => c.(orgs := c.orgs + {org})
  }

  function Run(c: Catalog, steps: seq<Step>): Catalog {
    if steps == [] then c else Next(Run(c, steps[..|steps| - 1]), steps[|steps| - 1])
  }

  // ----- The invariant -----

  ghost predicate OneDefault(c: Catalog) { exists d :: IsDefault(c, d) }

  ghost predicate Inv(c: Catalog) {
    && OneDefault(c)
    && (forall s :: s in c.sizes ==> RowConstraint(c.sizes[s]))
    && (forall row :: row in c.allowed ==> row.0 in c.orgs && row.1 in c.sizes && !c.sizes[row.1].isDefault)
    && (forall a :: a in c.agents && c.agents[a].1.Some? ==> c.agents[a].1.value in c.sizes)
  }

  lemma SwapFromDefault(sizes: map<SizeId, Size>, allowed: set<(Org, SizeId)>, new_: SizeId, d: SizeId)
    requires Defaults(sizes) == {d}
    ensures SwappedFrom(sizes, allowed, new_) == Swapped(allowed, new_, d)
  {
  }

  /** What a default switch does, in terms of the old default. */
  lemma SwitchedCatalog(c: Catalog, id: SizeId, ch: Changes, d: SizeId)
    requires IsDefault(c, d) && id in c.sizes && ch.makeDefault && !c.sizes[id].isDefault && Updated(c, id, ch).Ok?
    ensures var c' := Updated(c, id, ch).value;
            && c'.allowed == Swapped(c.allowed, id, d) && c'.orgs == c.orgs && c'.agents == c.agents
            && c'.sizes.Keys == c.sizes.Keys && IsDefault(c', id)
            && c'.sizes[id] == Merged(c.sizes[id], ch)
            && (forall s :: s in c.sizes && s != id ==> c'.sizes[s] == c.sizes[s].(isDefault := false))
  {
    assert Defaults(c.sizes) == {d};
    SwapFromDefault(c.sizes, c.allowed, id, d);
  }

  lemma UpdateKeepsInv(c: Catalog, id: SizeId, ch: Changes)
    requires Inv(c)
    ensures Updated(c, id, ch).Ok? ==> Inv(Updated(c, id, ch).value)
  {
    var r := Updated(c, id, ch);
    if r.Ok? {
      var d :| IsDefault(c, d);
      if ch.makeDefault && !c.sizes[id].isDefault {
        SwitchedCatalog(c, id, ch, d);
        assert IsDefault(r.value, id);
      } else {
        assert IsDefault(r.value, d);
      }
    }
  }

  lemma OtherStepsKeepInv(c: Catalog, step: Step)
    requires Inv(c) && !step.Update?
    ensures Inv(Next(c, step))
  {
    var d :| IsDefault(c, d);
    assert IsDefault(Next(c, step), d);
  }

  lemma NextKeepsInv(c: Catalog, step: Step)
    requires Inv(c)
    ensures Inv(Next(c, step))
  {
    if step.Update? { UpdateKeepsInv(c, step.id, step.changes); } else { OtherStepsKeepInv(c, step); }
  }

  /** Every reachable catalog has exactly one default, enabled, and no allowed set stores it. */
  lemma {:induction false} RunKeepsInv(c: Catalog, steps: seq<Step>)
    requires Inv(c)
    ensures Inv(Run(c, steps))
    ensures exists d :: IsDefault(Run(c, steps), d) && Run(c, steps).sizes[d].enabled
  {
    if steps != [] {
      RunKeepsInv(c, steps[..|steps| - 1]);
      NextKeepsInv(Run(c, steps[..|steps| - 1]), steps[|steps| - 1]);
    }
    var d :| IsDefault(Run(c, steps), d);
  }

  /** An Agent with a chosen size resolves to it in every reachable catalog, disabled or withdrawn as it may be. */
  lemma ChosenSizeAlwaysApplies(c: Catalog, steps: seq<Step>, a: AgentId, d: SizeId)
    requires Inv(c) && a in Run(c, steps).agents
    ensures var st := Run(c, steps);
            var chosen := st.agents[a].1;
            Resolve(st, chosen, d) == if chosen.Some? then chosen.value else d
  {
    RunKeepsInv(c, steps);
  }

  /** A catalog the service accepts a change for never trips a constraint. */
  lemma GuardImpliesConstraint(c: Catalog, id: SizeId, ch: Changes)
    requires Inv(c) && id in c.sizes && ValidFields(ch)
    ensures ServiceAccepts(c.sizes[id], ch) <==> Updated(c, id, ch).Ok?
  {
  }

  // ----- The default switch takes no choice away -----

  lemma StoredAfterSwap(c: Catalog, c': Catalog, org: Org, new_: SizeId, old_: SizeId)
    requires c'.allowed == Swapped(c.allowed, new_, old_)
    ensures StoredFor(c', org) == if StoredFor(c, org) == {} then {} else StoredFor(c, org) - {new_} + {old_}
  {
    var swapped := if StoredFor(c, org) == {} then {} else StoredFor(c, org) - {new_} + {old_};
    forall x ensures x in StoredFor(c', org) <==> x in swapped {
      StoredMember(c, org, x);
      StoredMember(c', org, x);
      if StoredFor(c, org) != {} {
        var s :| s in StoredFor(c, org);
        StoredMember(c, org, s);
        assert (org, old_) in c'.allowed;
      }
      assert forall row :: row in c.allowed && row.0 == org ==> row.1 in StoredFor(c, org);
    }
  }

  lemma StoredMember(c: Catalog, org: Org, x: SizeId)
    ensures x in StoredFor(c, org) <==> (org, x) in c.allowed
  {
  }

  /**
   Each Organization that can choose keeps what it could choose and gains the new default; one that cannot
   just follows it.
   */
  lemma SwitchTakesNothingAway(c: Catalog, id: SizeId, ch: Changes, org: Org)
    requires Inv(c) && id in c.sizes && ch.makeDefault && !c.sizes[id].isDefault && Updated(c, id, ch).Ok?
    ensures var c' := Updated(c, id, ch).value;
            && (StoredFor(c, org) != {} ==> Choosable(c', org) == Choosable(c, org) + {id})
            && (StoredFor(c, org) == {} ==> StoredFor(c', org) == {} && Choosable(c', org) == {id})
  {
    var d :| IsDefault(c, d);
    var c' := Updated(c, id, ch).value;
    SwitchedCatalog(c, id, ch, d);
    StoredAfterSwap(c, c', org, id, d);
    forall s | s in StoredFor(c, org) ensures s in c.sizes && s != d { assert (org, s) in c.allowed; }
  }

  /**
   In every reachable catalog the choosable sizes are the default, and the enabled ones allowed to the
   Organization.
   */
  lemma ChoosableIsAllowedAndEnabled(c: Catalog, steps: seq<Step>, org: Org, s: SizeId)
    requires Inv(c) && s in Run(c, steps).sizes
    ensures var st := Run(c, steps);
            && (st.sizes[s].isDefault ==> s in Choosable(st, org))
            && (!st.sizes[s].isDefault ==> (s in Choosable(st, org) <==> st.sizes[s].enabled && (org, s) in st.allowed))
  {
    StoredMember(Run(c, steps), org, s);
  }

  /** An Agent is put on a size exactly when it may choose it, and on the default by choosing none. */
  lemma ChoiceIsChecked(c: Catalog, a: AgentId, s: SizeId)
    requires Inv(c) && a in c.agents
    ensures var org := c.agents[a].0;
            && (Next(c, Choose(a, Some(s))).agents[a] == (org, Some(s)) <==>
                  c.agents[a].1 == Some(s)
                  || (s in c.sizes && (c.sizes[s].isDefault || (c.sizes[s].enabled && (org, s) in c.allowed))))
            && Next(c, Choose(a, None)).agents[a] == (org, None)
            && forall b :: b in c.agents && b != a ==> Next(c, Choose(a, Some(s))).agents[b] == c.agents[b]
  {
    StoredMember(c, c.agents[a].0, s);
  }

  /**
   An accepted update sets exactly what it names, on its own size; every other size only may lose the
   default flag.
   */
  lemma UpdateSetsWhatItNames(c: Catalog, id: SizeId, ch: Changes)
    requires Inv(c) && Updated(c, id, ch).Ok?
    ensures var was, c' := c.sizes[id], Updated(c, id, ch).value;
            && c'.sizes.Keys == c.sizes.Keys
            && c'.sizes[id].cpuRequest == (if ch.cpuRequest.Some? then ch.cpuRequest.value else was.cpuRequest)
            && c'.sizes[id].cpuLimit == (if ch.cpuLimit.Some? then ch.cpuLimit.value else was.cpuLimit)
            && c'.sizes[id].memoryRequest == (if ch.memoryRequest.Some? then ch.memoryRequest.value
                  else was.memoryRequest)
            && c'.sizes[id].memoryLimit == (if ch.memoryLimit.Some? then ch.memoryLimit.value else was.memoryLimit)
            && c'.sizes[id].enabled == (if ch.enabled.Some? then ch.enabled.value else was.enabled)
            && c'.sizes[id].isDefault == (was.isDefault || ch.makeDefault)
            && (forall s :: s in c.sizes && s != id ==>
                  c'.sizes[s] == c.sizes[s].(isDefault := c.sizes[s].isDefault && (was.isDefault || !ch.makeDefault)))
            && (!ch.makeDefault ==> c'.allowed == c.allowed) && c'.agents == c.agents
  {
    var d :| IsDefault(c, d);
  }

  /**
   Disabling a size withdraws it from choice and from no allowed set; enabling it again gives it back to
   the same Organizations.
   */
  lemma DisableAndEnable(c: Catalog, id: SizeId, org: Org)
    requires Inv(c) && id in c.sizes && !c.sizes[id].isDefault
    ensures var nothing := Changes(None, None, None, None, None, false);
            var off := Updated(c, id, nothing.(enabled := Some(false)));
            && off.Ok? && id !in Choosable(off.value, org) && StoredFor(off.value, org) == StoredFor(c, org)
            && Choosable(off.value, org) == Choosable(c, org) - {id}
            && var on := Updated(off.value, id, nothing.(enabled := Some(true)));
               && on.Ok? && Choosable(on.value, org) == Choosable(c, org) + (StoredFor(c, org) * {id})
  {
    var nothing := Changes(None, None, None, None, None, false);
    var off := Updated(c, id, nothing.(enabled := Some(false))).value;
    var on := Updated(off, id, nothing.(enabled := Some(true))).value;
    assert off.allowed == c.allowed && on.allowed == c.allowed;
  }

  // ----- Deleting without the service guard -----

  /** The repository delete alone keeps the catalog sound exactly when the size is not the default. */
  lemma RowDeleteKeepsInvIff(c: Catalog, id: SizeId)
    requires Inv(c) && RowDeleted(c, id).Ok?
    ensures Inv(RowDeleted(c, id).value) <==> !c.sizes[id].isDefault
  {
    var d :| IsDefault(c, d);
    var c' := RowDeleted(c, id).value;
    if id != d { assert IsDefault(c', d); }
    else { assert forall s :: s in c'.sizes ==> !c'.sizes[s].isDefault; }
  }

  /**
   The race: the default flag moves between the unlocked check and the delete, and the catalog is left
   without a default.
   */
  lemma DeleteRaceExample()
    ensures var plain := Size(50, 500, 320, 1024, true, false);
            var c := Catalog(map[0 := plain.(isDefault := true), 1 := plain], {}, {}, map[]);
            var switched := Updated(c, 1, Changes(None, None, None, None, None, true));
            && Inv(c) && !c.sizes[1].isDefault && switched.Ok?
            && RowDeleted(switched.value, 1).Ok? && !OneDefault(RowDeleted(switched.value, 1).value)
  {
    var plain := Size(50, 500, 320, 1024, true, false);
    var c := Catalog(map[0 := plain.(isDefault := true), 1 := plain], {}, {}, map[]);
    assert IsDefault(c, 0);
    var ch := Changes(None, None, None, None, None, true);
    SwitchedCatalog(c, 1, ch, 0);
    var c' := Updated(c, 1, ch).value;
    UpdateKeepsInv(c, 1, ch);
    RowDeleteKeepsInvIff(c', 1);
    assert forall s :: s in RowDeleted(c', 1).value.sizes ==> s == 0;
  }

  // ----- The repository -----

  lemma ReplacedRows(allowed: set<(Org, SizeId)>, org: Org, current: set<SizeId>, wanted: set<SizeId>)
    requires current == set row | row in allowed && row.0 == org :: row.1
    ensures allowed - Rows(org, current - wanted) + Rows(org, wanted - current)
         == (set row | row in allowed && row.0 != org) + Rows(org, wanted)
  {
    forall row | row in allowed && row.0 == org ensures row.1 in current && row == (org, row.1) { }
    forall x | x in current ensures (org, x) in allowed {
      var row :| row in allowed && row.0 == org && row.1 == x;
      assert row == (org, x);
    }
  }

  class AgentSizeRepository {
    var sizes: map<SizeId, Size>
    var orgs: set<Org>
    var allowed: set<(Org, SizeId)>
    var agents: map<AgentId, (Org, Option<SizeId>)>

    ghost function Snapshot(): Catalog
      reads this
    {
      Catalog(sizes, orgs, allowed, agents)
    }

    /** Replaces an Organization's set row by row. */
    method SetAllowedSizes(org: Org, ids: set<SizeId>) returns (r: Result<()>)
      modifies this`allowed
      ensures r.Ok? <==> SetAllowed(old(Snapshot()), org, ids).Ok?
      ensures Snapshot() == OrKeep(old(Snapshot()), SetAllowed(old(Snapshot()), org, ids))
    {
      if org !in orgs { return NotFound; }
      var wanted := set s | s in ids && !(s in sizes && sizes[s].isDefault);
      var current := set row | row in allowed && row.0 == org :: row.1;
      assert wanted == Wanted(Snapshot(), ids) && current == StoredFor(Snapshot(), org);
      if exists s :: s in wanted - current && !(s in sizes && sizes[s].enabled) { return Unprocessable; }
      ReplacedRows(allowed, org, current, wanted);
      RemoveRows(org, current - wanted);
      AddRows(org, wanted - current);
      r := Ok(());
    }

    method RemoveRows(org: Org, ids: set<SizeId>)
      modifies this`allowed
      ensures allowed == old(allowed) - Rows(org, ids)
    {
      var rest := ids;
      while rest != {}
        invariant rest <= ids && allowed == old(allowed) - Rows(org, ids - rest)
        decreases rest
      {
        var s :| s in rest;
        assert ids - (rest - {s}) == (ids - rest) + {s};
        allowed, rest := allowed - {(org, s)}, rest - {s};
      }
      assert ids - rest == ids;
    }

    method AddRows(org: Org, ids: set<SizeId>)
      modifies this`allowed
      ensures allowed == old(allowed) + Rows(org, ids)
    {
      var rest := ids;
      while rest != {}
        invariant rest <= ids && allowed == old(allowed) + Rows(org, ids - rest)
        decreases rest
      {
        var s :| s in rest;
        assert ids - (rest - {s}) == (ids - rest) + {s};
        allowed, rest := allowed + {(org, s)}, rest - {s};
      }
      assert ids - rest == ids;
    }

    /** Gives the old default to every Organization with a stored set and takes the new one out. */
    method SwapDefaultInAllowedSets(new_: SizeId, old_: SizeId)
      requires new_ != old_
      modifies this`allowed
      ensures allowed == Swapped(old(allowed), new_, old_)
    {
      var pending := set row | row in allowed :: row.0;
      ghost var done: set<Org> := {};
      ghost var all := pending;
      while pending != {}
        invariant done + pending == all && done !! pending
        invariant forall row :: row in allowed <==>
                    if row.0 in done then row in Swapped(old(allowed), new_, old_) else row in old(allowed)
        decreases pending
      {
        var org :| org in pending;
        assert exists row :: row in old(allowed) && row.0 == org;
        allowed := allowed - {(org, new_)} + {(org, old_)};
        pending, done := pending - {org}, done + {org};
      }
      forall row ensures row in allowed <==> row in Swapped(old(allowed), new_, old_) {
        if row.0 !in done { assert row !in old(allowed); }
      }
    }

    /**
     Applies a change with the default switch in one transaction, or rolls back on a constraint. The index
     admits one default.
     */
    method UpdateSize(id: SizeId, ch: Changes) returns (r: Result<()>)
      requires forall s, t :: s in sizes && t in sizes && sizes[s].isDefault && sizes[t].isDefault ==> s == t
      modifies this`sizes, this`allowed
      ensures r.Ok? <==> Updated(old(Snapshot()), id, ch).Ok?
      ensures Snapshot() == OrKeep(old(Snapshot()), Updated(old(Snapshot()), id, ch))
    {
      if id !in sizes { return NotFound; }
      var size := Merged(sizes[id], ch);
      if !RowConstraint(size) { return Conflict; }
      if ch.makeDefault && !sizes[id].isDefault { ClearDefault(id); }
      sizes := sizes[id := size];
      r := Ok(());
    }

    /** Clears the old default, if any, and swaps it into the allowed sets. */
    method ClearDefault(id: SizeId)
      requires forall s, t :: s in sizes && t in sizes && sizes[s].isDefault && sizes[t].isDefault ==> s == t
      requires id in sizes && !sizes[id].isDefault
      modifies this`sizes, this`allowed
      ensures sizes == Cleared(old(sizes)) && allowed == SwappedFrom(old(sizes), old(allowed), id)
    {
      var defaults := Defaults(sizes);
      assert forall s :: s in sizes && sizes[s].isDefault ==> s in defaults;
      if defaults != {} {
        var previous :| previous in defaults;
        assert defaults == {previous};
        SwapFromDefault(sizes, allowed, id, previous);
        sizes := sizes[previous := sizes[previous].(isDefault := false)];
        SwapDefaultInAllowedSets(id, previous);
      }
    }
  }
}
