/**
 Where the content of a memory bank comes from, over whole runs: who forwarded each part and under which
 grant (api/domains/agent_memory/gateway_service.py, api/domains/agent_memory/repository.py).
 */
module MemoryProvenance {
  import opened Common
  import opened MemoryBank

  /** A bank before the first request. */
  predicate Blank(st: State) { Inv(st) && st.docs == map[] && st.pending == [] && st.requests == {} }

  /** At some point of the run the Agent was authenticated while it held a read-write Organization grant. */
  ghost predicate WroteWithGrant(init: State, steps: seq<Step>, a: AgentId) {
    exists k :: 0 <= k < |steps| && GrantedAt(init, steps, a, k)
  }

  ghost predicate GrantedAt(init: State, steps: seq<Step>, a: AgentId, k: nat)
    requires k < |steps|
  {
    var st := Run(init, steps[..k]);
    steps[k] == Authenticate(a) && ResolveAccess(st, a).Some? && MayWrite(st, a)
  }

  /** Some retain of the run, on an authenticated access that allowed it, forwarded this part to this document. */
  ghost predicate WasRetained(init: State, steps: seq<Step>, id: DocId, part: Part) {
    exists k, i :: 0 <= k < |steps| && RetainedAt(init, steps, id, part, k, i)
  }

  ghost predicate RetainedAt(init: State, steps: seq<Step>, id: DocId, part: Part, k: nat, i: nat)
    requires k < |steps|
  {
    && steps[k].Retain? && steps[k].access in Run(init, steps[..k]).requests && steps[k].access.agent == id.owner
    && (id.scope == Team ==> steps[k].access.teamWrite)
    && i < |steps[k].writes| && steps[k].writes[i].id == id && steps[k].writes[i].part == part
  }

  /** What every run keeps about the origin of accesses, pending writes and stored parts. */
  ghost predicate Origins(init: State, steps: seq<Step>) {
    var st := Run(init, steps);
    && (forall access :: access in st.requests && access.teamWrite ==> WroteWithGrant(init, steps, access.agent))
    && (forall i :: 0 <= i < |st.pending| ==> WriteOrigin(init, steps, st.pending[i].id, st.pending[i].part))
    && (forall id, i :: id in st.docs && 0 <= i < |st.docs[id].parts| ==>
          WriteOrigin(init, steps, id, st.docs[id].parts[i]))
  }

  ghost predicate WriteOrigin(init: State, steps: seq<Step>, id: DocId, part: Part) {
    WasRetained(init, steps, id, part) && (id.scope == Team ==> WroteWithGrant(init, steps, id.owner))
  }

  lemma LongerRun(init: State, steps: seq<Step>, last: Step, id: DocId, part: Part, a: AgentId)
    ensures WroteWithGrant(init, steps, a) ==> WroteWithGrant(init, steps + [last], a)
    ensures WasRetained(init, steps, id, part) ==> WasRetained(init, steps + [last], id, part)
  {
    var longer := steps + [last];
    if WroteWithGrant(init, steps, a) {
      var k :| 0 <= k < |steps| && GrantedAt(init, steps, a, k);
      assert longer[..k] == steps[..k];
      assert GrantedAt(init, longer, a, k);
    }
    if WasRetained(init, steps, id, part) {
      var k, i :| 0 <= k < |steps| && RetainedAt(init, steps, id, part, k, i);
      assert longer[..k] == steps[..k];
      assert RetainedAt(init, longer, id, part, k, i);
    }
  }

  lemma LongerOrigin(init: State, steps: seq<Step>, last: Step, id: DocId, part: Part)
    requires WriteOrigin(init, steps, id, part)
    ensures WriteOrigin(init, steps + [last], id, part)
  {
    LongerRun(init, steps, last, id, part, id.owner);
  }

  /** A new access that may write was authenticated under the grant. */
  lemma RequestOrigin(init: State, steps: seq<Step>, last: Step, access: Access)
    requires Inv(Run(init, steps)) && Origins(init, steps)
    requires access in Next(Run(init, steps), last).requests && access.teamWrite
    ensures WroteWithGrant(init, steps + [last], access.agent)
  {
    var st, longer := Run(init, steps), steps + [last];
    if access in st.requests {
      LongerRun(init, steps, last, DocId(0, Private, Generated(0)), Part(0, Private, ""), access.agent);
    } else {
      AccessIs(st, last.agent);
      assert longer[..|steps|] == steps;
      assert GrantedAt(init, longer, last.agent, |steps|);
    }
  }

  /** A newly queued write was forwarded by this retain. */
  lemma QueuedOrigin(init: State, steps: seq<Step>, last: Step, i: nat)
    requires Origins(init, steps) && last.Retain? && last.access in Run(init, steps).requests
    requires Forwardable(last.access, last.writes) && i < |last.writes|
    ensures WriteOrigin(init, steps + [last], last.writes[i].id, last.writes[i].part)
  {
    var w, longer := last.writes[i], steps + [last];
    assert longer[..|steps|] == steps;
    assert RetainedAt(init, longer, w.id, w.part, |steps|, i);
    if w.id.scope == Team {
      LongerRun(init, steps, last, w.id, w.part, w.id.owner);
    }
  }

  /** Where a pending write stood before the step: in the queue, or in the retain. */
  lemma PendingSource(st: State, step: Step, i: nat) returns (j: nat, fromQueue: bool)
    requires i < |Next(st, step).pending|
    ensures fromQueue ==> j < |st.pending| && Next(st, step).pending[i] == st.pending[j]
    ensures !fromQueue ==>
              && step.Retain? && step.access in st.requests && Forwardable(step.access, step.writes)
              && j < |step.writes| && Next(st, step).pending[i] == step.writes[j]
  {
    if step.Retain? && i >= |st.pending| {
      j, fromQueue := i - |st.pending|, false;
    } else {
      fromQueue := true;
      j := if step.ApplyWrite? && step.index < |st.pending| && i >= step.index then i + 1 else i;
    }
  }

  lemma PendingOrigin(init: State, steps: seq<Step>, last: Step, i: nat)
    requires Origins(init, steps) && i < |Next(Run(init, steps), last).pending|
    ensures var w := Next(Run(init, steps), last).pending[i]; WriteOrigin(init, steps + [last], w.id, w.part)
  {
    var j, fromQueue := PendingSource(Run(init, steps), last, i);
    if fromQueue {
      var w := Run(init, steps).pending[j];
      LongerOrigin(init, steps, last, w.id, w.part);
    } else {
      QueuedOrigin(init, steps, last, j);
    }
  }

  /** Where a stored part was before the step: in the document, or in the pending write it applies. */
  lemma PartSource(st: State, step: Step, id: DocId, i: nat) returns (stored: bool)
    requires id in Next(st, step).docs && i < |Next(st, step).docs[id].parts|
    ensures var part := Next(st, step).docs[id].parts[i];
            if stored then id in st.docs && i < |st.docs[id].parts| && st.docs[id].parts[i] == part
            else && step.ApplyWrite? && step.index < |st.pending|
                 && st.pending[step.index].id == id && st.pending[step.index].part == part
  {
    stored := !(step.ApplyWrite? && step.index < |st.pending| && st.pending[step.index].id == id)
              || (id in st.docs && st.pending[step.index].append && i < |st.docs[id].parts|);
  }

  lemma PartOrigin(init: State, steps: seq<Step>, last: Step, id: DocId, i: nat)
    requires Origins(init, steps)
    requires id in Next(Run(init, steps), last).docs && i < |Next(Run(init, steps), last).docs[id].parts|
    ensures WriteOrigin(init, steps + [last], id, Next(Run(init, steps), last).docs[id].parts[i])
  {
    var st := Run(init, steps);
    var stored := PartSource(st, last, id, i);
    if stored {
      LongerOrigin(init, steps, last, id, st.docs[id].parts[i]);
    } else {
      LongerOrigin(init, steps, last, id, st.pending[last.index].part);
    }
  }

  lemma {:induction false} RunKeepsOrigins(init: State, steps: seq<Step>)
    requires Blank(init)
    ensures Inv(Run(init, steps)) && Origins(init, steps)
  {
    RunKeepsInv(init, steps);
    if steps != [] {
      var before, last := steps[..|steps| - 1], steps[|steps| - 1];
      RunKeepsOrigins(init, before);
      assert steps == before + [last];
      var later := Next(Run(init, before), last);
      forall access | access in later.requests && access.teamWrite ensures WroteWithGrant(init, steps, access.agent) {
        RequestOrigin(init, before, last, access);
      }
      forall i | 0 <= i < |later.pending| ensures WriteOrigin(init, steps, later.pending[i].id, later.pending[i].part) {
        PendingOrigin(init, before, last, i);
      }
      forall id, i | id in later.docs && 0 <= i < |later.docs[id].parts|
        ensures WriteOrigin(init, steps, id, later.docs[id].parts[i])
      {
        PartOrigin(init, before, last, id, i);
      }
    }
  }

  /**
   Everything stored or pending was forwarded by its author on an authenticated request, and team content
   only by an Agent authenticated while it held a read-write Organization grant.
   */
  lemma ContentHasOrigin(init: State, steps: seq<Step>, id: DocId, i: nat)
    requires Blank(init)
    requires id in Run(init, steps).docs && i < |Run(init, steps).docs[id].parts|
    ensures var part := Run(init, steps).docs[id].parts[i];
            && part.author == id.owner && part.scope == id.scope && WasRetained(init, steps, id, part)
            && (part.scope == Team ==> WroteWithGrant(init, steps, part.author))
  {
    RunKeepsOrigins(init, steps);
    assert TagInvariant(Run(init, steps).docs[id]);
  }

  lemma PendingHasOrigin(init: State, steps: seq<Step>, i: nat)
    requires Blank(init) && i < |Run(init, steps).pending|
    ensures var w := Run(init, steps).pending[i];
            && w.part.author == w.id.owner && WasRetained(init, steps, w.id, w.part)
            && (w.part.scope == Team ==> WroteWithGrant(init, steps, w.part.author))
  {
    RunKeepsOrigins(init, steps);
  }

  // ----- What steps do to content and grants -----

  /** Applying a pending write appends or replaces, stamps the write's tags, and touches nothing else. */
  lemma ApplyStores(st: State, i: nat, mergeTags: bool)
    requires Inv(st) && i < |st.pending|
    ensures var w, later := st.pending[i], Next(st, ApplyWrite(i, mergeTags));
            && w.id in later.docs
            && later.docs[w.id].tags == (if mergeTags && w.id in st.docs then st.docs[w.id].tags else {}) + w.tags
            && (if w.id in st.docs && w.append then later.docs[w.id].parts == st.docs[w.id].parts + [w.part]
                else later.docs[w.id].parts == [w.part])
            && (forall id :: id != w.id ==>
                  (id in later.docs <==> id in st.docs) && (id in st.docs ==> later.docs[id] == st.docs[id]))
            && later.pending == st.pending[..i] + st.pending[i + 1..]
  {
    StoredKeepsTags(st.docs, st.pending[i], mergeTags);
  }

  /** The step replaces the document's content or purges it. */
  predicate Overwrites(st: State, step: Step, id: DocId) {
    || step == Purge(id)
    || (step.ApplyWrite? && step.index < |st.pending| && st.pending[step.index].id == id
      && !st.pending[step.index].append)
  }

  /** Unless a document is replaced or purged, its parts stay and new ones come after them. */
  lemma {:induction false} PartsStay(st: State, steps: seq<Step>, id: DocId)
    requires id in st.docs
    requires forall k :: 0 <= k < |steps| ==> !Overwrites(Run(st, steps[..k]), steps[k], id)
    ensures id in Run(st, steps).docs && st.docs[id].parts <= Run(st, steps).docs[id].parts
  {
    if steps != [] {
      var before, last := steps[..|steps| - 1], steps[|steps| - 1];
      forall k | 0 <= k < |before| ensures !Overwrites(Run(st, before[..k]), before[k], id) {
        assert before[..k] == steps[..k];
      }
      PartsStay(st, before, id);
      assert !Overwrites(Run(st, before), last, id);
      StepKeepsParts(Run(st, before), last, id);
    }
  }

  lemma StepKeepsParts(st: State, step: Step, id: DocId)
    requires id in st.docs && !Overwrites(st, step, id)
    ensures id in Next(st, step).docs && st.docs[id].parts <= Next(st, step).docs[id].parts
  {
  }

  /** The bounds of a retain request. */
  lemma RequestBounds(items: seq<Item>)
    ensures ValidRequest(items) <==>
              && 1 <= |items| <= 20
              && forall i :: 0 <= i < |items| ==>
                   1 <= |items[i].content| <= 100_000 && |items[i].documentId| <= 1_000 && |items[i].tags| <= 100
  {
  }

  /** Agents start stopped and without memory; only live ones are switched, and only as asked. */
  lemma AgentSteps(st: State, a: AgentId, on: bool)
    ensures Next(st, CreateAgent(a)) ==
            if a in st.agents then st else st.(agents := st.agents[a := AgentRow(false, false, false)])
    ensures Next(st, SetRunning(a, on)) ==
            if Live(st, a) then st.(agents := st.agents[a := AgentRow(false, on, st.agents[a].memoryEnabled)]) else st
    ensures Next(st, SetMemory(a, on)) ==
            if Live(st, a) then st.(agents := st.agents[a := AgentRow(false, st.agents[a].running, on)]) else st
  {
  }

  /**
   Deletion takes the Agent's grants with it, both ways, leaves a tombstone, and leaves its documents to
   the purge.
   */
  lemma DeleteStep(st: State, a: AgentId, g: Grant)
    requires Live(st, a)
    ensures var later := Next(st, DeleteAgent(a));
            && a in later.agents && later.agents[a].deleted && later.tombstones == st.tombstones + {a}
            && (g in later.grants <==> g in st.grants && g.reader != a && g.source != Some(a))
            && later.docs == st.docs && later.pending == st.pending && later.requests == st.requests
            && forall b :: b in st.agents && b != a ==> b in later.agents && later.agents[b] == st.agents[b]
  {
  }

  /** A grant is created exactly for a live reader, from another live Agent read-only or to the team, and once. */
  lemma GrantIff(st: State, g: Grant)
    ensures Next(st, CreateGrant(g)) ==
            if && Live(st, g.reader)
               && (g.source.Some? ==> Live(st, g.source.value) && g.source.value != g.reader && !g.readWrite)
               && (forall h :: h in st.grants && h.reader == g.reader ==> h.source != g.source)
            then st.(grants := st.grants + {g}) else st
    ensures Next(st, RevokeGrant(g)) == st.(grants := st.grants - {g})
  {
  }

  /**
   Authentication keeps the access for later; a retain needs one, and queues all its writes or none; a
   purge needs a tombstone.
   */
  lemma RequestSteps(st: State, a: AgentId, access: Access, writes: seq<Write>, id: DocId)
    ensures Next(st, Authenticate(a)) ==
            if ResolveAccess(st, a).Some? then st.(requests := st.requests + {ResolveAccess(st, a).value}) else st
    ensures Next(st, Retain(access, writes)) ==
            if access in st.requests && Forwardable(access, writes) then st.(pending := st.pending + writes) else st
    ensures Next(st, Purge(id)) == if id.owner in st.tombstones then st.(docs := st.docs - {id}) else st
  {
  }

  /** A revoked grant is gone until it is created again. */
  lemma {:induction false} RevokedStaysOut(st: State, g: Grant, steps: seq<Step>)
    requires forall k :: 0 <= k < |steps| ==> steps[k] != CreateGrant(g)
    ensures g !in Run(Next(st, RevokeGrant(g)), steps).grants
  {
    if steps != [] { RevokedStaysOut(st, g, steps[..|steps| - 1]); }
  }

  /** A grant between two live Agents, or to the team, opens exactly what it names to the next request. */
  lemma GrantOpens(st: State, g: Grant, id: DocId)
    requires Inv(st) && ResolveAccess(st, g.reader).Some?
    requires g.source.Some? ==> Live(st, g.source.value) && g.source.value != g.reader && !g.readWrite
    requires forall h :: h in st.grants ==> !(h.reader == g.reader && h.source == g.source)
    ensures var later := Next(st, CreateGrant(g));
            && ResolveAccess(later, g.reader).Some?
            && (MayRead(later, g.reader, id) <==>
                  MayRead(st, g.reader, id)
                  || (if g.source.Some? then id.scope == Private && id.owner == g.source.value else id.scope == Team))
            && (MayWrite(later, g.reader) <==> MayWrite(st, g.reader) || (g.source == None && g.readWrite))
  {
    var later := Next(st, CreateGrant(g));
    assert later.grants == st.grants + {g};
    assert g in later.grants;
    forall h | h in st.grants ensures h in later.grants { }
  }
}
