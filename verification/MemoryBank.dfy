/**
 One Organization's memory bank as a protocol: the gateway's rewriting of retains, Memory Grants, Agent
 deletion, asynchronous application by the backend, retagging and purging
 (api/domains/agent_memory/gateway_service.py, api/domains/agent_memory/repository.py).

 Tags and document ids are structured values: Agent ids and digests are opaque and injective.
 */
module MemoryBank {
  import opened Common

  type AgentId = nat

  datatype Scope = Private | Team
  datatype Tag = AgentTag(agent: AgentId) | AuthorTag(agent: AgentId) | TeamTag
  /** The digest of a caller's document id, or a generated one. */
  datatype Handle = Digest(text: string) | Generated(nonce: nat)
  datatype DocId = DocId(owner: AgentId, scope: Scope, handle: Handle)
  datatype Part = Part(author: AgentId, scope: Scope, content: string)
  datatype Document = Document(id: DocId, tags: set<Tag>, parts: seq<Part>)

  datatype AgentRow = AgentRow(deleted: bool, running: bool, memoryEnabled: bool)
  datatype Grant = Grant(reader: AgentId, source: Option<AgentId>, readWrite: bool)
  datatype Access = Access(agent: AgentId, readable: set<Tag>, teamWrite: bool)

  const TEAM_SCOPE := "scope:team"
  const MAX_ITEMS := 20
  const MAX_CONTENT := 100_000
  const MAX_DOCUMENT_ID := 1_000
  const MAX_TAGS := 100

  /** An item of a retain request as an Agent sends it; an empty document id asks for a generated one. */
  datatype Item = Item(content: string, documentId: string, tags: seq<string>, append: bool)
  /** An item as the gateway forwards it. */
  datatype Write = Write(id: DocId, tags: set<Tag>, part: Part, append: bool)
  datatype Outcome<T> = Ok(value: T) | Refused(status: nat)

  // ----- The gateway's rewriting -----

  predicate AsksTeam(item: Item) { TEAM_SCOPE in item.tags }

  function ScopeOf(item: Item): Scope { if AsksTeam(item) then Team else Private }

  /** The tags the gateway stamps on a document of this id. */
  function GatewayTags(id: DocId): set<Tag> {
    match id.scope
    case Private => {AgentTag(id.owner)}
    case Team => {AuthorTag(id.owner), TeamTag}
  }

  /** A write that stays inside one Agent's namespace and one scope. */
  predicate WellScoped(w: Write) {
    && w.tags == GatewayTags(w.id)
    && w.part.author == w.id.owner && w.part.scope == w.id.scope
  }

  /** The bounds a request is validated against as a whole, before anything is rewritten. */
  predicate ValidRequest(items: seq<Item>) {
    && 1 <= |items| <= MAX_ITEMS
    && forall i :: 0 <= i < |items| ==>
         && 1 <= |items[i].content| <= MAX_CONTENT && |items[i].documentId| <= MAX_DOCUMENT_ID
         && |items[i].tags| <= MAX_TAGS
  }

  predicate MayForward(access: Access, items: seq<Item>) {
    ValidRequest(items) && (access.teamWrite || forall i :: 0 <= i < |items| ==> !AsksTeam(items[i]))
  }

  /** The item went into its Agent's namespace, in the scope it asked for, with its content and mode. */
  predicate Rewritten(w: Write, access: Access, item: Item, nonce: nat) {
    && WellScoped(w)
    && w.id.owner == access.agent && w.id.scope == ScopeOf(item)
    && w.id.handle == (if item.documentId == "" then Generated(nonce) else Digest(item.documentId))
    && w.part.content == item.content && w.append == item.append
  }

  predicate AllRewritten(writes: seq<Write>, access: Access, items: seq<Item>, nonces: seq<nat>)
    requires |nonces| == |items|
  {
    |writes| == |items| && forall i :: 0 <= i < |items| ==> Rewritten(writes[i], access, items[i], nonces[i])
  }

  /**
   Rewrites a whole request or refuses it: 422 for a request out of bounds, 403 for a team item without
   write access.
   */
  method Rewrite(access: Access, items: seq<Item>, nonces: seq<nat>) returns (r: Outcome<seq<Write>>)
    requires |nonces| == |items|
    ensures r.Ok? <==> MayForward(access, items)
    ensures r.Refused? ==> r.status == if ValidRequest(items) then 403 else 422
    ensures r.Ok? ==> AllRewritten(r.value, access, items, nonces)
  {
    if !ValidRequest(items) { return Refused(422); }
    var writes := [];
    for i := 0 to |items|
      invariant AllRewritten(writes, access, items[..i], nonces[..i])
      invariant access.teamWrite || forall j :: 0 <= j < i ==> !AsksTeam(items[j])
    {
      var item := items[i];
      var team := AsksTeam(item);
      if team && !access.teamWrite { return Refused(403); }
      var tags := if team then {AuthorTag(access.agent), TeamTag} else {AgentTag(access.agent)};
      var handle := if item.documentId == "" then Generated(nonces[i]) else Digest(item.documentId);
      var id := DocId(access.agent, if team then Team else Private, handle);
      writes := writes + [Write(id, tags, Part(access.agent, id.scope, item.content), item.append)];
    }
    assert items[..|items|] == items && nonces[..|items|] == nonces;
    r := Ok(writes);
  }

  // ----- State -----

  /**
   `requests` holds the access each authenticated request was resolved to: it is used later, when rows may
   have changed. `pending` holds writes the backend accepted and has not applied yet.
   */
  datatype State = State(agents: map<AgentId, AgentRow>, grants: set<Grant>, requests: set<Access>,
                         docs: map<DocId, Document>, pending: seq<Write>, tombstones: set<AgentId>)

  predicate Live(st: State, a: AgentId) { a in st.agents && !st.agents[a].deleted }

  /** Grants reloaded on each request; a grant whose source Agent is deleted does not count. */
  predicate Counts(st: State, g: Grant, reader: AgentId) {
    g in st.grants && g.reader == reader
    && !(g.source.Some? && g.source.value in st.agents && st.agents[g.source.value].deleted)
  }

  function ResolveAccess(st: State, a: AgentId): Option<Access> {
    if !Live(st, a) || !st.agents[a].running || !st.agents[a].memoryEnabled then None
    else
      var sources := set g | g in st.grants && Counts(st, g, a) && g.source.Some? :: AgentTag(g.source.value);
      var team := exists g :: g in st.grants && Counts(st, g, a) && g.source.None?;
      var write := exists g :: g in st.grants && Counts(st, g, a) && g.source.None? && g.readWrite;
      Some(Access(a, {AgentTag(a)} + sources + (if team then {TeamTag} else {}), write))
  }

  /** One tag group of a recall: team facts by containment, private facts by exact tag set. */
  predicate Visible(tags: set<Tag>, readable: set<Tag>) {
    exists t :: t in readable && if t == TeamTag then TeamTag in tags else tags == {t}
  }

  /** What the backend returns to a request that was resolved to `access`. */
  function Recall(st: State, access: Access): set<DocId> {
    set id | id in st.docs && Visible(st.docs[id].tags, access.readable)
  }

  // ----- Steps -----

  datatype Step =
    | CreateAgent(agent: AgentId)
    | SetRunning(agent: AgentId, on: bool)
    | SetMemory(agent: AgentId, on: bool)
    | DeleteAgent(agent: AgentId)
    | CreateGrant(grant: Grant)
    | RevokeGrant(grant: Grant)
    | Authenticate(agent: AgentId)
    | Retain(access: Access, writes: seq<Write>)
    | ApplyWrite(index: nat, mergeTags: bool)
    | Retag(id: DocId)
    | Purge(id: DocId)

  /** What the rewriting lets a request forward. */
  predicate Forwardable(access: Access, writes: seq<Write>) {
    forall i :: 0 <= i < |writes| ==>
      WellScoped(writes[i]) && writes[i].id.owner == access.agent && (writes[i].id.scope == Team ==> access.teamWrite)
  }

  predicate Grantable(st: State, g: Grant) {
    && Live(st, g.reader)
    && (g.source.Some? ==> Live(st, g.source.value) && g.source.value != g.reader && !g.readWrite)
    && (forall h :: h in st.grants ==> !(h.reader == g.reader && h.source == g.source))
  }

  /** The backend stores a write: tags are replaced, or merged with those of the document it joins. */
  function Stored(docs: map<DocId, Document>, w: Write, mergeTags: bool): Document {
    if w.id in docs then
      var was := docs[w.id];
      Document(w.id, if mergeTags then was.tags + w.tags else w.tags,
               if w.append then was.parts + [w.part] else [w.part])
    else Document(w.id, w.tags, [w.part])
  }

  /** The tags after repair: the Agent access tag becomes authorship. */
  function Repaired(id: DocId, tags: set<Tag>): set<Tag> {
    if TeamTag in tags && AgentTag(id.owner) in tags then tags - {AgentTag(id.owner)} + {AuthorTag(id.owner)} else tags
  }

  /** The next state; a refused step changes nothing. */
  function Next(st: State, step: Step): State {
    match step
    case CreateAgent(a) => if a in st.agents then st else st.(agents := st.agents[a := AgentRow(false, false, false)])
    case SetRunning(a, on) => if Live(st, a) then st.(agents := st.agents[a := st.agents[a].(running := on)]) else st
    case SetMemory(a, on) =>
      if Live(st, a) then st.(agents := st.agents[a := st.agents[a].(memoryEnabled := on)]) else st
    case DeleteAgent(a) =>
      if Live(st, a) then
        st.(agents := st.agents[a := st.agents[a].(deleted := true)],
            grants := (set g | g in st.grants && g.reader != a && g.source != Some(a)),
            tombstones := st.tombstones + {a})
      else st
    case CreateGrant(g) => if Grantable(st, g) then st.(grants := st.grants + {g}) else st
    case RevokeGrant(g) => st.(grants := st.grants - {g})
    case Authenticate(a) =>
      if ResolveAccess(st, a).Some? then st.(requests := st.requests + {ResolveAccess(st, a).value}) else st
    case Retain(access, ws) =>
      if access in st.requests && Forwardable(access, ws) then st.(pending := st.pending + ws) else st
    case ApplyWrite(i, merge) =>
      if i < |st.pending| then
        var w := st.pending[i];
        st.(docs := st.docs[w.id := Stored(st.docs, w, merge)], pending := st.pending[..i] + st.pending[i + 1..])
      else st
    case Retag(id) =>
      if id in st.docs then
        st.(docs := st.docs[id := st.docs[id].(tags := Repaired(id, st.docs[id].tags))])
      else st
    case Purge(id) => if id.owner in st.tombstones then st.(docs := st.docs - {id}) else st
  }

  function Run(st: State, steps: seq<Step>): State {
    if steps == [] then st else Next(Run(st, steps[..|steps| - 1]), steps[|steps| - 1])
  }

  /**
   An authenticated retain: rewrite, pass the spend gate, forward. `gate` is the status the gate refuses
   with, if any.
   */
  method Forward(st: State, access: Access, items: seq<Item>, nonces: seq<nat>, gate: Option<nat>)
    returns (r: Outcome<State>, ghost step: Step)
    requires |nonces| == |items| && access in st.requests
    ensures r.Ok? <==> MayForward(access, items) && gate.None?
    ensures r.Refused? ==>
              r.status == if !ValidRequest(items) then 422 else if !MayForward(access, items) then 403 else gate.value
    ensures r.Ok? ==> step.Retain? && step.access == access && AllRewritten(step.writes, access, items, nonces)
    ensures r.Ok? ==> r.value == Next(st, step) == st.(pending := st.pending + step.writes)
  {
    step := Retain(access, []);
    var rewritten := Rewrite(access, items, nonces);
    if rewritten.Refused? { return Refused(rewritten.status), step; }
    if gate.Some? { return Refused(gate.value), step; }
    step := Retain(access, rewritten.value);
    r := Ok(Next(st, Retain(access, rewritten.value)));
  }

  /**
   The write endpoint of Organization Memory: one team item under a generated id, for holders of write
   access only.
   */
  method WriteOrganizationMemory(st: State, access: Access, content: string, nonce: nat, gate: Option<nat>)
    returns (r: Outcome<State>)
    requires access in st.requests
    ensures r.Ok? <==> access.teamWrite && 1 <= |content| <= MAX_CONTENT && gate.None?
    ensures r.Refused? ==>
              r.status == if !access.teamWrite then 403
                          else if !(1 <= |content| <= MAX_CONTENT) then 422
                          else gate.value
    ensures r.Ok? ==>
              var id := DocId(access.agent, Team, Generated(nonce));
              var write := Write(id, GatewayTags(id), Part(access.agent, Team, content), false);
              r.value == st.(pending := st.pending + [write])
  {
    if !access.teamWrite { return Refused(403); }
    if !(1 <= |content| <= MAX_CONTENT) { return Refused(422); }
    var item := Item(content, "", [TEAM_SCOPE], false);
    assert TEAM_SCOPE in item.tags;
    ghost var step;
    r, step := Forward(st, access, [item], [nonce], gate);
  }

  // ----- The invariant -----

  /** Namespace, tags and content of a document agree. Team documents may still carry the legacy Agent tag. */
  predicate TagInvariant(d: Document) {
    var me, author := AgentTag(d.id.owner), AuthorTag(d.id.owner);
    && (d.id.scope == Private ==> d.tags == {me})
    && (d.id.scope == Team ==>
          TeamTag in d.tags && d.tags <= {me, author, TeamTag} && (me in d.tags || author in d.tags))
    && (forall i :: 0 <= i < |d.parts| ==> d.parts[i].author == d.id.owner && d.parts[i].scope == d.id.scope)
  }

  predicate GrantInvariant(st: State) {
    forall g :: g in st.grants ==>
      Live(st, g.reader) && (g.source.Some? ==> Live(st, g.source.value) && g.source.value != g.reader)
  }

  predicate Inv(st: State) {
    && (forall id :: id in st.docs ==> st.docs[id].id == id && TagInvariant(st.docs[id]))
    && (forall i :: 0 <= i < |st.pending| ==> WellScoped(st.pending[i]))
    && GrantInvariant(st)
    && (forall a :: a in st.agents && st.agents[a].deleted ==> a in st.tombstones)
    && (forall a :: a in st.tombstones ==> a in st.agents && st.agents[a].deleted)
  }

  lemma StoredKeepsTags(docs: map<DocId, Document>, w: Write, merge: bool)
    requires WellScoped(w) && (w.id in docs ==> docs[w.id].id == w.id && TagInvariant(docs[w.id]))
    ensures Stored(docs, w, merge).id == w.id && TagInvariant(Stored(docs, w, merge))
  {
  }

  lemma RepairKeepsTags(d: Document)
    requires TagInvariant(d)
    ensures TagInvariant(d.(tags := Repaired(d.id, d.tags)))
  {
  }

  lemma NextKeepsInv(st: State, step: Step)
    requires Inv(st)
    ensures Inv(Next(st, step))
  {
    match step
    case ApplyWrite(i, merge) =>
      if i < |st.pending| { StoredKeepsTags(st.docs, st.pending[i], merge); }
    case Retag(id) =>
      if id in st.docs { RepairKeepsTags(st.docs[id]); }
    case Retain(access, ws) => RetainKeepsInv(st, access, ws);
    case CreateAgent(_) => AgentStepKeepsInv(st, step);
    case SetRunning(_, _) => AgentStepKeepsInv(st, step);
    case SetMemory(_, _) => AgentStepKeepsInv(st, step);
    case DeleteAgent(_) => AgentStepKeepsInv(st, step);
    case Authenticate(_) => case CreateGrant(_) => case RevokeGrant(_) => case Purge(_) =>
  }

  lemma AgentStepKeepsInv(st: State, step: Step)
    requires Inv(st) && (step.CreateAgent? || step.SetRunning? || step.SetMemory? || step.DeleteAgent?)
    ensures Inv(Next(st, step))
  {
  }

  lemma RetainKeepsInv(st: State, access: Access, ws: seq<Write>)
    requires Inv(st)
    ensures Inv(Next(st, Retain(access, ws)))
  {
  }

  lemma {:induction false} RunKeepsInv(st: State, steps: seq<Step>)
    requires Inv(st)
    ensures Inv(Run(st, steps))
  {
    if steps != [] {
      RunKeepsInv(st, steps[..|steps| - 1]);
      NextKeepsInv(Run(st, steps[..|steps| - 1]), steps[|steps| - 1]);
    }
  }

  // ----- Who reads what -----

  predicate GrantedPrivate(st: State, b: AgentId, source: AgentId) {
    exists g :: g in st.grants && g.reader == b && g.source == Some(source)
  }

  predicate GrantedTeam(st: State, b: AgentId) {
    exists g :: g in st.grants && g.reader == b && g.source == None
  }

  /** The promise: own private documents, private ones of live granted Agents, team ones under an Organization grant. */
  predicate MayRead(st: State, b: AgentId, id: DocId) {
    match id.scope
    case Private => id.owner == b || (GrantedPrivate(st, b, id.owner) && Live(st, id.owner))
    case Team => GrantedTeam(st, b)
  }

  /** Write access to Organization Memory is a read-write Organization grant. */
  predicate MayWrite(st: State, b: AgentId) {
    exists g :: g in st.grants && g.reader == b && g.source == None && g.readWrite
  }

  /**
   An authenticated request acts for its own Agent, and writes for the team exactly under a read-write
   Organization grant.
   */
  lemma AccessIs(st: State, b: AgentId)
    requires Inv(st) && ResolveAccess(st, b).Some?
    ensures ResolveAccess(st, b).value.agent == b
    ensures ResolveAccess(st, b).value.teamWrite <==> MayWrite(st, b)
  {
    if g :| g in st.grants && g.reader == b && g.source == None && g.readWrite { assert Counts(st, g, b); }
  }

  lemma ReadableTags(st: State, b: AgentId)
    requires Inv(st) && ResolveAccess(st, b).Some?
    ensures var readable := ResolveAccess(st, b).value.readable;
            && (TeamTag in readable <==> GrantedTeam(st, b))
            && (forall a :: AgentTag(a) in readable <==> a == b || (GrantedPrivate(st, b, a) && Live(st, a)))
            && (forall a :: AuthorTag(a) !in readable)
  {
    var readable := ResolveAccess(st, b).value.readable;
    forall a ensures AgentTag(a) in readable <==> a == b || (GrantedPrivate(st, b, a) && Live(st, a)) {
      if GrantedPrivate(st, b, a) {
        var g :| g in st.grants && g.reader == b && g.source == Some(a);
        assert Counts(st, g, b);
      }
    }
    if GrantedTeam(st, b) {
      var g :| g in st.grants && g.reader == b && g.source == None;
      assert Counts(st, g, b);
    }
  }

  /** A request resolved in `st` and answered in `later` sees the later documents with the earlier permissions. */
  lemma RecallIsMayRead(st: State, later: State, b: AgentId, id: DocId)
    requires Inv(st) && Inv(later) && ResolveAccess(st, b).Some?
    ensures id in Recall(later, ResolveAccess(st, b).value) <==> id in later.docs && MayRead(st, b, id)
  {
    ReadableTags(st, b);
    if id in later.docs {
      var readable := ResolveAccess(st, b).value.readable;
      assert TagInvariant(later.docs[id]);
      match id.scope {
        case Private =>
          assert Visible(later.docs[id].tags, readable) <==> AgentTag(id.owner) in readable;
        case Team =>
          assert Visible(later.docs[id].tags, readable) <==> TeamTag in readable;
      }
    }
  }

  /**
   Whatever happened before a recall was authenticated, and whatever happens before the backend answers it,
   it returns exactly the documents its Agent could read when it was authenticated. Only a live, running
   Agent with memory switched on is authenticated.
   */
  lemma RecallAfterAnyRun(init: State, before: seq<Step>, after: seq<Step>, b: AgentId, id: DocId)
    requires Inv(init)
    ensures var st, later := Run(init, before), Run(init, before + after);
            && Inv(st) && Inv(later)
            && (ResolveAccess(st, b).Some? <==> Live(st, b) && st.agents[b].running && st.agents[b].memoryEnabled)
            && (ResolveAccess(st, b).Some? ==>
                  (id in Recall(later, ResolveAccess(st, b).value) <==> id in later.docs && MayRead(st, b, id)))
  {
    RunKeepsInv(init, before);
    RunKeepsInv(init, before + after);
    var st := Run(init, before);
    if ResolveAccess(st, b).Some? { RecallIsMayRead(st, Run(init, before + after), b, id); }
  }

  /** Content never crosses scopes: every part of a recalled document was written by its owner in its scope. */
  lemma RecalledContentStaysInScope(init: State, before: seq<Step>, after: seq<Step>, b: AgentId, id: DocId, i: nat)
    requires Inv(init) && ResolveAccess(Run(init, before), b).Some?
    requires id in Recall(Run(init, before + after), ResolveAccess(Run(init, before), b).value)
    requires id in Run(init, before + after).docs && i < |Run(init, before + after).docs[id].parts|
    ensures var st := Run(init, before);
            var part := Run(init, before + after).docs[id].parts[i];
            && part.author == id.owner && part.scope == id.scope
            && (part.scope == Private ==>
                  part.author == b || (GrantedPrivate(st, b, part.author) && Live(st, part.author)))
            && (part.scope == Team ==> GrantedTeam(st, b))
  {
    RecallAfterAnyRun(init, before, after, b, id);
    assert TagInvariant(Run(init, before + after).docs[id]);
  }

  /**
   Private memory of an Agent is out of reach of every request authenticated after its deletion, even
   before it is purged.
   */
  lemma DeletedPrivateMemoryUnreachable(init: State, before: seq<Step>, after: seq<Step>, b: AgentId, id: DocId)
    requires Inv(init) && id.scope == Private
    requires id.owner in Run(init, before).tombstones && ResolveAccess(Run(init, before), b).Some?
    ensures id !in Recall(Run(init, before + after), ResolveAccess(Run(init, before), b).value)
  {
    RecallAfterAnyRun(init, before, after, b, id);
    assert Live(Run(init, before), b) && !Live(Run(init, before), id.owner);
  }

  /** Retagging changes no reader's view of a document, nor which Agent's purge owns it. */
  lemma RepairKeepsVisibility(d: Document, readable: set<Tag>, a: AgentId)
    requires TagInvariant(d) && forall x :: AuthorTag(x) !in readable
    ensures Visible(Repaired(d.id, d.tags), readable) <==> Visible(d.tags, readable)
    ensures OwnedBy(Repaired(d.id, d.tags), a) <==> OwnedBy(d.tags, a)
  {
    if d.id.scope == Team {
      assert Visible(d.tags, readable) <==> TeamTag in readable;
      assert Visible(Repaired(d.id, d.tags), readable) <==> TeamTag in readable;
    }
  }

  /** The filter a purge lists with: documents carrying the Agent's tag or its authorship. */
  predicate OwnedBy(tags: set<Tag>, a: AgentId) {
    AgentTag(a) in tags || AuthorTag(a) in tags
  }

  lemma OwnedIsNamespace(d: Document, a: AgentId)
    requires TagInvariant(d)
    ensures OwnedBy(d.tags, a) <==> d.id.owner == a
  {
  }
}
