/**
 The two operator loops over a bank's documents: purging a deleted Agent (api/domains/agent_memory/purge.py)
 and retagging legacy shared documents (api/domains/agent_memory/retag_shared.py).
 */
module MemorySweeps {
  import opened Common
  import opened MemoryBank

  const MAX_DOCUMENTS := 100
  const NOT_FOUND := 404

  ghost predicate Distinct(docs: seq<Document>) {
    forall i, j :: 0 <= i < j < |docs| ==> docs[i].id != docs[j].id
  }

  /** Every document satisfies the gateway's namespace and tag invariant. */
  ghost predicate AllTagged(docs: seq<Document>) {
    forall d :: d in docs ==> TagInvariant(d)
  }

  function Owned(docs: seq<Document>, a: AgentId): seq<Document> {
    Filter(docs, (d: Document) => OwnedBy(d.tags, a))
  }

  function Others(docs: seq<Document>, a: AgentId): seq<Document> {
    Filter(docs, (d: Document) => !OwnedBy(d.tags, a))
  }

  /** Documents outside the namespace of `a`. */
  function Foreign(docs: seq<Document>, a: AgentId): seq<Document> {
    Filter(docs, (d: Document) => d.id.owner != a)
  }

  function RemoveAt(docs: seq<Document>, i: nat): seq<Document>
    requires i < |docs|
  {
    docs[..i] + docs[i + 1..]
  }

  /** The stored documents of one bank in listing order. */
  class Backend {
    var docs: seq<Document>

    ghost predicate Valid()
      reads this
    {
      Distinct(docs)
    }

    constructor (initial: seq<Document>)
      requires Distinct(initial)
      ensures Valid() && docs == initial
    {
      docs := initial;
    }

    /** The first document a purge of `a` lists, if any. */
    method FirstOwned(a: AgentId) returns (i: nat)
      ensures i <= |docs| && Owned(docs[..i], a) == []
      ensures i < |docs| ==> OwnedBy(docs[i].tags, a)
    {
      i := 0;
      while i < |docs| && !OwnedBy(docs[i].tags, a)
        invariant i <= |docs| && Owned(docs[..i], a) == []
      {
        assert docs[..i + 1][..i] == docs[..i];
        i := i + 1;
      }
    }

    /** Deleting an absent document changes nothing. */
    method Delete(id: DocId) returns (ghost at: nat)
      requires Valid()
      modifies this`docs
      ensures Valid() && at <= |old(docs)|
      ensures if at < |old(docs)| then old(docs)[at].id == id && docs == RemoveAt(old(docs), at)
              else docs == old(docs) && forall d :: d in docs ==> d.id != id
    {
      var i := 0;
      while i < |docs| && docs[i].id != id
        invariant i <= |docs| && forall j :: 0 <= j < i ==> docs[j].id != id
      {
        i := i + 1;
      }
      at := i;
      if i < |docs| { docs := docs[..i] + docs[i + 1..]; }
    }

    method Patch(id: DocId, tags: set<Tag>) returns (ghost at: nat)
      requires Valid() && exists d :: d in docs && d.id == id
      modifies this`docs
      ensures at < |old(docs)| && old(docs)[at].id == id
      ensures docs == old(docs)[at := old(docs)[at].(tags := tags)]
      ensures Valid()
    {
      var i := 0;
      while docs[i].id != id
        invariant i < |docs| && forall j :: 0 <= j < i ==> docs[j].id != id
        decreases |docs| - i
      {
        i := i + 1;
      }
      at := i;
      docs := docs[i := docs[i].(tags := tags)];
    }
  }

  // ----- Purge -----

  /** What the world does during one iteration. A delete that fails or is not confirmed may still have been applied. */
  datatype Turn = Turn(pastDeadline: bool, listing: ListReply, deletion: DeleteReply)
  /** A truthful page, any other document, an empty page whatever is stored, a malformed answer, or none. */
  datatype ListReply = Listed | Misreported(doc: Document) | Empty(total: nat) | Malformed | ListFailed(code: nat)
  datatype DeleteReply = Deleted | AlreadyGone | DeleteFailed(code: nat, applied: bool) | Unconfirmed(applied: bool)

  datatype PurgeResult = Clean | Http(code: nat) | OutsideNamespace | OutsideTags | NotConfirmed | InvalidPage

  predicate Quiet(t: Turn) { !t.pastDeadline && t.listing == Listed && t.deletion == Deleted }

  /** The turn ends a purge cleanly with `left` documents of the Agent stored. */
  predicate EndsClean(t: Turn, left: nat) {
    && !t.pastDeadline
    && (t.listing == ListFailed(NOT_FOUND) || t.listing == Empty(0) || (t.listing == Listed && left == 0))
  }

  /** The turn deletes a document and lets the purge go on. */
  predicate Continues(t: Turn) {
    !t.pastDeadline && t.listing == Listed && (t.deletion == Deleted || t.deletion == AlreadyGone)
  }

  /** With `n` documents stored, every turn before turn `i` deletes one, and turn `i` ends the purge cleanly. */
  ghost predicate CleanAt(world: seq<Turn>, n: nat, i: nat) {
    i < |world| && i <= n && ContinuesTo(world, i) && EndsClean(world[i], n - i)
  }

  ghost predicate ContinuesTo(world: seq<Turn>, i: nat)
    requires i <= |world|
  {
    forall j :: 0 <= j < i ==> Continues(world[j])
  }

  ghost predicate CleanEnd(world: seq<Turn>, n: nat) { exists i: nat :: CleanAt(world, n, i) }

  /** A purge that stops for another reason, or never stops by itself, has no clean end. */
  lemma StopsOtherwise(world: seq<Turn>, n: nat, i: nat)
    requires i <= |world| && i <= n && ContinuesTo(world, i)
    requires i < |world| ==> !EndsClean(world[i], n - i) && !(Continues(world[i]) && i < n)
    ensures !CleanEnd(world, n)
  {
    forall k: nat ensures !CleanAt(world, n, k) {
      if k < i { assert Continues(world[k]); }
      if i < k <= |world| && ContinuesTo(world, k) { assert Continues(world[i]); }
    }
  }

  /** A listing answered with 404, or an empty page that counts nothing, ends a purge whatever is stored. */
  lemma EndsCleanIff(t: Turn, left: nat)
    ensures EndsClean(t, left) <==>
              && !t.pastDeadline
              && (t.listing == ListFailed(404) || t.listing == Empty(0) || (t.listing == Listed && left == 0))
  {
  }

  lemma RemoveFirstOwned(docs: seq<Document>, a: AgentId, i: nat)
    requires i < |docs| && OwnedBy(docs[i].tags, a) && Owned(docs[..i], a) == []
    ensures Owned(docs, a) == [docs[i]] + Owned(RemoveAt(docs, i), a)
    ensures Others(RemoveAt(docs, i), a) == Others(docs, a)
  {
    var before, doc, after := docs[..i], docs[i], docs[i + 1..];
    assert docs == before + [doc] + after;
    FilterParts(docs, before, doc, after, (d: Document) => OwnedBy(d.tags, a));
    FilterParts(docs, before, doc, after, (d: Document) => !OwnedBy(d.tags, a));
  }

  lemma FilterParts(docs: seq<Document>, before: seq<Document>, doc: Document, after: seq<Document>,
                    p: Document -> bool)
    requires docs == before + [doc] + after
    ensures Filter(docs, p) == Filter(before, p) + (if p(doc) then [doc] else []) + Filter(after, p)
    ensures Filter(before + after, p) == Filter(before, p) + Filter(after, p)
  {
    FilterAround(before, doc, after, p);
  }

  /** Deleting the listed document by its id removes the first one owned. */
  lemma FirstOwnedGone(was: seq<Document>, left: seq<Document>, a: AgentId, at: nat, deletedAt: nat)
    requires Distinct(was) && at < |was| && OwnedBy(was[at].tags, a) && Owned(was[..at], a) == [] && deletedAt <= |was|
    requires if deletedAt < |was| then was[deletedAt].id == was[at].id && left == RemoveAt(was, deletedAt)
             else forall d :: d in left ==> d.id != was[at].id
    requires deletedAt == |was| ==> left == was
    ensures Owned(was, a) != [] && Owned(left, a) == Owned(was, a)[1..] && Others(left, a) == Others(was, a)
  {
    assert was[at] in was;
    assert deletedAt == at;
    RemoveFirstOwned(was, a, at);
  }

  lemma SomeOwned(docs: seq<Document>, a: AgentId, at: nat)
    requires at < |docs| && OwnedBy(docs[at].tags, a) && Owned(docs[..at], a) == []
    ensures Owned(docs, a) != []
  {
    RemoveFirstOwned(docs, a, at);
  }

  lemma NoneOwned(docs: seq<Document>, a: AgentId)
    ensures Owned(docs[..|docs|], a) == Owned(docs, a)
  {
    assert docs[..|docs|] == docs;
  }

  lemma RemoveOwnNamespace(docs: seq<Document>, a: AgentId, i: nat)
    requires i < |docs| && docs[i].id.owner == a
    ensures Foreign(RemoveAt(docs, i), a) == Foreign(docs, a)
  {
    var before, doc, after := docs[..i], docs[i], docs[i + 1..];
    assert docs == before + [doc] + after;
    FilterParts(docs, before, doc, after, (d: Document) => d.id.owner != a);
  }

  /** One iteration: list one document at offset zero, check it, delete it. `None` means the loop goes on. */
  method PurgeOne(store: Backend, a: AgentId, turn: Turn) returns (r: Option<PurgeResult>, ghost removed: nat)
    requires store.Valid()
    modifies store`docs
    ensures store.Valid() && Foreign(store.docs, a) == Foreign(old(store.docs), a)
    ensures !turn.listing.Misreported? ==>
              && removed <= 1 && removed <= |Owned(old(store.docs), a)|
              && Owned(store.docs, a) == Owned(old(store.docs), a)[removed..]
              && Others(store.docs, a) == Others(old(store.docs), a)
              && (r == None ==> removed == 1) && (r == Some(Clean) ==> removed == 0)
              && (AllTagged(old(store.docs)) ==> r != Some(OutsideNamespace) && r != Some(OutsideTags))
    ensures r == Some(Clean) <==> EndsClean(turn, |Owned(old(store.docs), a)|)
    ensures !turn.listing.Misreported? && AllTagged(old(store.docs)) ==>
              (r == None <==> Continues(turn) && Owned(old(store.docs), a) != [])
    ensures AllTagged(old(store.docs)) ==> AllTagged(store.docs)
    ensures Quiet(turn) && AllTagged(old(store.docs)) ==>
              r == if Owned(old(store.docs), a) == [] then Some(Clean) else None
  {
    removed := 0;
    if turn.pastDeadline { return Some(Http(503)), 0; }
    if turn.listing.ListFailed? {
      // No bank: nothing has been retained.
      if turn.listing.code == NOT_FOUND { return Some(Clean), 0; }
      return Some(Http(turn.listing.code)), 0;
    }
    if turn.listing.Malformed? { return Some(InvalidPage), 0; }
    if turn.listing.Empty? { return Some(if turn.listing.total == 0 then Clean else InvalidPage), 0; }
    var at := store.FirstOwned(a);
    if turn.listing.Listed? && at == |store.docs| {
      NoneOwned(store.docs, a);
      return Some(Clean), 0;
    }
    var doc := if turn.listing.Misreported? then turn.listing.doc else store.docs[at];
    if turn.listing.Listed? { SomeOwned(store.docs, a, at); }
    if doc.id.owner != a {
      if turn.listing.Listed? { OwnedGuard(store.docs, at, a); }
      return Some(OutsideNamespace), 0;
    }
    if !OwnedBy(doc.tags, a) { return Some(OutsideTags), 0; }
    if turn.deletion.Deleted? || turn.deletion.AlreadyGone? || turn.deletion.applied {
      ghost var was := store.docs;
      ghost var deletedAt := store.Delete(doc.id);
      if deletedAt < |was| { RemoveOwnNamespace(was, a, deletedAt); }
      if turn.listing.Listed? { FirstOwnedGone(was, store.docs, a, at, deletedAt); }
      removed := 1;
    }
    r := match turn.deletion
      case Deleted => None
      case AlreadyGone => None
      case DeleteFailed(code, _) => Some(Http(code))
      case Unconfirmed(_) => Some(NotConfirmed);
  }

  ghost predicate AllQuiet(world: seq<Turn>) { forall i :: 0 <= i < |world| ==> Quiet(world[i]) }

  /** Some listing was answered as if nothing were stored. */
  ghost predicate Denied(world: seq<Turn>) {
    exists i :: 0 <= i < |world| && (world[i].listing == ListFailed(NOT_FOUND) || world[i].listing == Empty(0))
  }

  ghost predicate Honest(world: seq<Turn>) { forall i :: 0 <= i < |world| ==> !world[i].listing.Misreported? }

  /**
   Deletes the listed documents one at a time, always at offset zero. Whatever the backend lists, no
   document outside the Agent's namespace is deleted. With a backend that honours the filter, `removed`
   documents left the front of the Agent's list and nothing else changed, and within the tag invariant the
   namespace and tag guards never fire. The result is Clean exactly when the turns up to one that finds, or
   claims, nothing left all delete a document; if something is left then, the backend denied it.
   */
  method PurgeAgent(store: Backend, a: AgentId, world: seq<Turn>) returns (r: PurgeResult, ghost removed: nat)
    requires store.Valid() && |world| == MAX_DOCUMENTS
    modifies store`docs
    ensures store.Valid() && Foreign(store.docs, a) == Foreign(old(store.docs), a)
    ensures Honest(world) ==>
              && removed <= |Owned(old(store.docs), a)| && Owned(store.docs, a) == Owned(old(store.docs), a)[removed..]
              && Others(store.docs, a) == Others(old(store.docs), a)
              && (AllTagged(old(store.docs)) ==> r != OutsideNamespace && r != OutsideTags)
    ensures r == Clean ==> Owned(store.docs, a) == [] || Denied(world)
    ensures Honest(world) && AllTagged(old(store.docs)) ==>
              && (r == Clean <==> CleanEnd(world, |Owned(old(store.docs), a)|))
              && (r == Clean ==> CleanAt(world, |Owned(old(store.docs), a)|, removed))
    ensures AllTagged(old(store.docs)) ==> AllTagged(store.docs)
    ensures AllQuiet(world) && AllTagged(old(store.docs)) ==>
              if |Owned(old(store.docs), a)| < MAX_DOCUMENTS then r == Clean
              else r == Http(503) && removed == MAX_DOCUMENTS
  {
    removed := 0;
    ghost var n := |Owned(store.docs, a)|;
    for i := 0 to MAX_DOCUMENTS
      invariant store.Valid() && Foreign(store.docs, a) == Foreign(old(store.docs), a)
      invariant Honest(world) ==>
                  && removed == i <= |Owned(old(store.docs), a)|
                  && Owned(store.docs, a) == Owned(old(store.docs), a)[removed..]
                  && Others(store.docs, a) == Others(old(store.docs), a)
      invariant Honest(world) && AllTagged(old(store.docs)) ==> ContinuesTo(world, i)
      invariant AllTagged(old(store.docs)) ==> AllTagged(store.docs)
    {
      var done, gone := PurgeOne(store, a, world[i]);
      removed := removed + gone;
      if done.Some? {
        r := done.value;
        if Honest(world) && AllTagged(old(store.docs)) {
          if r == Clean { assert CleanAt(world, n, i); } else { StopsOtherwise(world, n, i); }
        }
        return;
      }
    }
    if Honest(world) && AllTagged(old(store.docs)) { StopsOtherwise(world, n, MAX_DOCUMENTS); }
    r := Http(503);
  }

  /** A clean end with a document left: the first listing is answered as if there were no bank. */
  method DeniedExample(doc: Document) returns (r: PurgeResult, left: seq<Document>)
    requires TagInvariant(doc)
    ensures r == Clean && Owned(left, doc.id.owner) == [doc]
  {
    var store := new Backend([doc]);
    var world := seq(MAX_DOCUMENTS, _ => Turn(false, ListFailed(NOT_FOUND), Deleted));
    OwnedIsNamespace(doc, doc.id.owner);
    FilterUniform([doc], (d: Document) => OwnedBy(d.tags, doc.id.owner), true);
    assert CleanAt(world, 1, 0);
    ghost var removed;
    r, removed := PurgeAgent(store, doc.id.owner, world);
    assert !Continues(world[0]);
    left := store.docs;
  }

  lemma OwnedGuard(docs: seq<Document>, i: nat, a: AgentId)
    requires i < |docs| && OwnedBy(docs[i].tags, a) && docs[i].id.owner != a
    ensures !AllTagged(docs)
  {
    assert docs[i] in docs;
    if TagInvariant(docs[i]) { OwnedIsNamespace(docs[i], a); }
  }

  /**
   Undisturbed, a purge needs exactly n / 100 + 1 runs: a run that deletes a full batch cannot yet know it
   was the last.
   */
  method PurgeUntilClean(store: Backend, a: AgentId) returns (runs: nat)
    requires store.Valid() && AllTagged(store.docs)
    modifies store`docs
    ensures runs == |Owned(old(store.docs), a)| / 100 + 1
    ensures Owned(store.docs, a) == [] && Others(store.docs, a) == Others(old(store.docs), a)
  {
    runs := 0;
    var world := seq(MAX_DOCUMENTS, _ => Turn(false, Listed, Deleted));
    var clean := false;
    while !clean
      invariant store.Valid() && AllTagged(store.docs) && Others(store.docs, a) == Others(old(store.docs), a)
      invariant !clean ==> |Owned(old(store.docs), a)| == |Owned(store.docs, a)| + MAX_DOCUMENTS * runs
      invariant clean ==> Owned(store.docs, a) == [] && runs == |Owned(old(store.docs), a)| / MAX_DOCUMENTS + 1
      decreases if clean then 0 else 1, |Owned(store.docs, a)|
    {
      var result, removed := PurgeAgent(store, a, world);
      runs := runs + 1;
      clean := result == Clean;
    }
  }

  // ----- Retag -----

  predicate IsTeam(d: Document) { TeamTag in d.tags }
  predicate IsLegacy(d: Document) { IsTeam(d) && exists t :: t in d.tags && t.AgentTag? }

  function Shared(docs: seq<Document>): seq<Document> { Filter(docs, IsTeam) }
  function Legacy(docs: seq<Document>): seq<Document> { Filter(docs, IsLegacy) }

  function Repair(d: Document): Document { d.(tags := Repaired(d.id, d.tags)) }

  /** The documents with those in `done` repaired. */
  function RepairOn(docs: seq<Document>, done: set<DocId>): seq<Document> {
    seq(|docs|, i requires 0 <= i < |docs| => if docs[i].id in done then Repair(docs[i]) else docs[i])
  }

  function RepairAll(docs: seq<Document>): seq<Document> {
    seq(|docs|, i requires 0 <= i < |docs| => Repair(docs[i]))
  }

  function Ids(docs: seq<Document>): set<DocId> { set d | d in docs :: d.id }

  datatype RetagResult = Retagged(changed: nat) | InvalidBatch | Ambiguous | OutsideGateway | BackendFailed

  /** A patch that fails or is not confirmed may still have been applied. */
  datatype PatchReply = Patched | PatchLost(applied: bool)

  /** How the backend answers: the listing at each offset, and the patch of each shared document by position. */
  datatype RetagWorld = RetagWorld(lists: nat -> bool, patches: nat -> PatchReply)

  ghost predicate Reliable(world: RetagWorld) {
    (forall offset :: world.lists(offset)) && forall i :: world.patches(i) == Patched
  }

  /** Repair never changes which documents are shared, so the listing keeps its positions while it is being mutated. */
  lemma {:induction false} SharedOfRepaired(docs: seq<Document>, done: set<DocId>)
    ensures Shared(RepairOn(docs, done)) == RepairOn(Shared(docs), done)
  {
    if docs != [] {
      var init, last := docs[..|docs| - 1], docs[|docs| - 1];
      SharedOfRepaired(init, done);
      assert RepairOn(docs, done)[..|docs| - 1] == RepairOn(init, done);
      assert RepairOn(Shared(init) + [last], done) == RepairOn(Shared(init), done) + RepairOn([last], done);
    }
  }

  lemma {:induction false} LegacyOfShared(docs: seq<Document>)
    ensures Legacy(Shared(docs)) == Legacy(docs)
  {
    if docs != [] {
      var init, last := docs[..|docs| - 1], docs[|docs| - 1];
      LegacyOfShared(init);
      if IsTeam(last) {
        FilterConcat(Shared(init), [last], IsLegacy);
        FilterUniform([last], IsLegacy, IsLegacy(last));
        assert Shared(docs) == Shared(init) + [last];
      } else {
        assert Shared(docs) == Shared(init) && !IsLegacy(last);
      }
    }
  }

  /** The ids repaired once the first `n` shared documents have been visited. */
  ghost function Finished(shared: seq<Document>, n: nat): set<DocId>
    requires n <= |shared|
  {
    Ids(Legacy(shared[..n]))
  }

  /** The bank once the first `n` shared documents have been visited. */
  ghost function Visited(docs: seq<Document>, n: nat): seq<Document>
    requires n <= |Shared(docs)|
  {
    RepairOn(docs, Finished(Shared(docs), n))
  }

  /** How many of the first `n` shared documents are legacy. */
  ghost function LegacyUpTo(docs: seq<Document>, n: nat): nat
    requires n <= |Shared(docs)|
  {
    |Legacy(Shared(docs)[..n])|
  }

  lemma FinishedGrows(shared: seq<Document>, n: nat)
    requires n < |shared|
    ensures Legacy(shared[..n + 1]) == Legacy(shared[..n]) + if IsLegacy(shared[n]) then [shared[n]] else []
    ensures Finished(shared, n + 1) == Finished(shared, n) + if IsLegacy(shared[n]) then {shared[n].id} else {}
  {
    assert shared[..n + 1][..n] == shared[..n];
  }

  lemma NotYetFinished(shared: seq<Document>, n: nat, j: nat)
    requires Distinct(shared) && n <= j < |shared|
    ensures shared[j].id !in Finished(shared, n)
  {
    FilterMembers(shared[..n], IsLegacy);
  }

  lemma {:induction false} FilterDistinct(docs: seq<Document>, p: Document -> bool)
    requires Distinct(docs)
    ensures Distinct(Filter(docs, p))
  {
    if docs != [] {
      var init := docs[..|docs| - 1];
      FilterDistinct(init, p);
      FilterMembers(init, p);
      forall d | d in Filter(init, p) ensures d.id != docs[|docs| - 1].id {
        var i :| 0 <= i < |init| && init[i] == d;
      }
    }
  }

  lemma SharedDistinct(docs: seq<Document>)
    requires Distinct(docs)
    ensures Distinct(Shared(docs)) && forall d :: d in Shared(docs) ==> d in docs && IsTeam(d)
  {
    FilterMembers(docs, IsTeam);
    FilterDistinct(docs, IsTeam);
  }

  /** The page at `offset` still shows the original documents: only earlier ones were repaired. */
  lemma PageIsOriginal(docs: seq<Document>, offset: nat, limit: nat)
    requires Distinct(docs) && offset <= |Shared(docs)|
    ensures Page(Shared(Visited(docs, offset)), offset, limit) == Page(Shared(docs), offset, limit)
  {
    var shared := Shared(docs);
    var done := Finished(shared, offset);
    SharedOfRepaired(docs, done);
    SharedDistinct(docs);
    forall j | offset <= j < |shared|
      ensures RepairOn(shared, done)[j] == shared[j] { NotYetFinished(shared, offset, j); }
  }

  lemma ListedIsSlice(docs: seq<Document>, offset: nat, limit: nat, page: seq<Document>)
    requires Distinct(docs) && offset <= |Shared(docs)| && limit > 0
    requires page == Page(Shared(Visited(docs, offset)), offset, limit)
    ensures offset + |page| <= |Shared(docs)| && page == Shared(docs)[offset..offset + |page|]
    ensures page == [] <==> offset == |Shared(docs)|
  {
    PageIsOriginal(docs, offset, limit);
    PageIsSlice(Shared(docs), offset, limit);
  }

  lemma VisitedAll(docs: seq<Document>)
    requires Distinct(docs)
    ensures Visited(docs, |Shared(docs)|) == RepairAll(docs)
    ensures Legacy(Shared(docs)[..|Shared(docs)|]) == Legacy(docs)
  {
    assert Shared(docs)[..|Shared(docs)|] == Shared(docs);
    LegacyOfShared(docs);
    RepairFinished(docs);
  }

  lemma PatchIsRepair(docs: seq<Document>, done: set<DocId>, at: nat)
    requires Distinct(docs) && at < |docs| && docs[at].id !in done
    ensures RepairOn(docs, done)[at] == docs[at]
    ensures RepairOn(docs, done)[at := Repair(docs[at])] == RepairOn(docs, done + {docs[at].id})
  {
  }

  /** The loop body for one listed document. */
  method RetagDocument(store: Backend, doc: Document, reply: PatchReply, ghost docs: seq<Document>,
                       ghost done: set<DocId>)
    returns (r: RetagResult)
    requires store.Valid() && Distinct(docs) && store.docs == RepairOn(docs, done)
    requires doc in docs && IsTeam(doc) && doc.id !in done
    modifies store`docs
    ensures store.Valid() && r != InvalidBatch
    ensures r.Retagged? ==>
              if IsLegacy(doc) then r.changed == 1 && store.docs == RepairOn(docs, done + {doc.id})
              else r.changed == 0 && store.docs == old(store.docs)
    ensures r == BackendFailed ==>
              && IsLegacy(doc) && reply.PatchLost?
              && store.docs == if reply.applied then RepairOn(docs, done + {doc.id}) else old(store.docs)
    ensures r == Ambiguous || r == OutsideGateway ==> store.docs == old(store.docs) && !TagInvariant(doc)
  {
    var legacy := set t | t in doc.tags && t.AgentTag?;
    LoneLegacyTag(doc);
    assert IsLegacy(doc) <==> legacy != {} by {
      if IsLegacy(doc) { var t :| t in doc.tags && t.AgentTag?; assert t in legacy; }
    }
    if legacy == {} { return Retagged(0); }
    if |legacy| != 1 { return Ambiguous; }
    var tag :| tag in legacy;
    SingletonSet(legacy, tag);
    if doc.id.owner != tag.agent || doc.id.scope != Team { return OutsideGateway; }
    PatchedTags(doc, tag);
    Position(docs, done, doc);
    if reply == PatchLost(false) { return BackendFailed; }
    ghost var at := store.Patch(doc.id, doc.tags - legacy + {AuthorTag(tag.agent)});
    PatchIsRepair(docs, done, at);
    r := if reply.Patched? then Retagged(1) else BackendFailed;
  }

  /** Visiting the next shared document; `m` documents have been visited then. */
  method RetagNext(store: Backend, doc: Document, reply: PatchReply, ghost docs: seq<Document>, ghost n: nat)
    returns (r: RetagResult, ghost m: nat)
    requires store.Valid() && Distinct(docs) && n < |Shared(docs)| && doc == Shared(docs)[n]
    requires store.docs == Visited(docs, n)
    modifies store`docs
    ensures store.Valid() && r != InvalidBatch && n <= m <= n + 1 && store.docs == Visited(docs, m)
    ensures r.Retagged? ==> m == n + 1 && LegacyUpTo(docs, m) == LegacyUpTo(docs, n) + r.changed
    ensures r == BackendFailed ==> reply.PatchLost?
    ensures r == Ambiguous || r == OutsideGateway ==> !AllTagged(docs)
  {
    SharedDistinct(docs);
    assert doc in Shared(docs);
    FinishedGrows(Shared(docs), n);
    NotYetFinished(Shared(docs), n, n);
    r := RetagDocument(store, doc, reply, docs, Finished(Shared(docs), n));
    m := if r.Retagged? || (r == BackendFailed && reply.applied) then n + 1 else n;
  }

  /** The loop over one page, which shows original documents from `offset` on. */
  method RetagPage(store: Backend, page: seq<Document>, offset: nat, world: RetagWorld, ghost docs: seq<Document>)
    returns (r: RetagResult, ghost m: nat)
    requires store.Valid() && Distinct(docs) && offset + |page| <= |Shared(docs)|
    requires page == Shared(docs)[offset..offset + |page|]
    requires store.docs == Visited(docs, offset)
    modifies store`docs
    ensures store.Valid() && r != InvalidBatch && offset <= m <= offset + |page| && store.docs == Visited(docs, m)
    ensures r.Retagged? ==> m == offset + |page| && LegacyUpTo(docs, m) == LegacyUpTo(docs, offset) + r.changed
    ensures r == BackendFailed ==> !Reliable(world)
    ensures AllTagged(docs) ==> r.Retagged? || r == BackendFailed
  {
    var changed: nat := 0;
    m := offset;
    for j := 0 to |page|
      invariant store.Valid() && m == offset + j && store.docs == Visited(docs, m)
      invariant LegacyUpTo(docs, m) == LegacyUpTo(docs, offset) + changed
    {
      assert page[j] == Shared(docs)[m];
      ghost var n := m;
      r, m := RetagNext(store, page[j], world.patches(offset + j), docs, n);
      if !r.Retagged? { return; }
      changed := changed + r.changed;
    }
    r := Retagged(changed);
  }

  /** One request: list a page at `offset` and retag it. An empty page ends the loop. */
  method RetagAt(store: Backend, offset: nat, batchSize: nat, world: RetagWorld, ghost docs: seq<Document>)
    returns (r: RetagResult, listed: nat, ghost m: nat)
    requires store.Valid() && Distinct(docs) && offset <= |Shared(docs)| && batchSize > 0
    requires store.docs == Visited(docs, offset)
    modifies store`docs
    ensures store.Valid() && r != InvalidBatch && offset <= m <= |Shared(docs)| && store.docs == Visited(docs, m)
    ensures r.Retagged? ==> m == offset + listed && (listed == 0 <==> offset == |Shared(docs)|)
    ensures r.Retagged? ==> LegacyUpTo(docs, m) == LegacyUpTo(docs, offset) + r.changed
    ensures r == BackendFailed ==> !Reliable(world)
    ensures AllTagged(docs) ==> r.Retagged? || r == BackendFailed
  {
    if !world.lists(offset) { return BackendFailed, 0, offset; }
    var page := Page(Shared(store.docs), offset, batchSize);
    listed := |page|;
    ListedIsSlice(docs, offset, batchSize, page);
    r, m := RetagPage(store, page, offset, world, docs);
  }

  /**
   Replaces legacy Agent tags of shared documents by authorship, page by page, advancing the offset.
   However it ends, the legacy ones among the first `seen` shared documents are repaired and nothing else
   has changed. When it returns a count it has visited every shared document exactly once, in listing
   order, and the count is the number of legacy documents. Within the tag invariant only the backend can
   keep it from that.
   */
  method RetagShared(store: Backend, batchSize: int, world: RetagWorld) returns (r: RetagResult, ghost seen: nat)
    requires store.Valid()
    modifies store`docs
    ensures store.Valid() && seen <= |Shared(old(store.docs))|
    ensures store.docs == Visited(old(store.docs), seen)
    ensures r == InvalidBatch <==> !(1 <= batchSize <= 100)
    ensures r == InvalidBatch ==> store.docs == old(store.docs)
    ensures r.Retagged? ==> seen == |Shared(old(store.docs))| && r.changed == |Legacy(old(store.docs))|
    ensures r.Retagged? ==> store.docs == RepairAll(old(store.docs))
    ensures r == BackendFailed ==> !Reliable(world)
    ensures AllTagged(old(store.docs)) && 1 <= batchSize <= 100 ==> r.Retagged? || r == BackendFailed
  {
    ghost var docs := store.docs;
    VisitedNone(docs);
    seen := 0;
    if !(1 <= batchSize <= 100) { return InvalidBatch, 0; }
    var offset: nat, changed: nat := 0, 0;
    while true
      invariant store.Valid() && docs == old(store.docs) && seen == offset <= |Shared(docs)|
      invariant changed == LegacyUpTo(docs, seen) && store.docs == Visited(docs, seen)
      decreases |Shared(docs)| - offset
    {
      var listed: nat;
      r, listed, seen := RetagAt(store, offset, batchSize, world, docs);
      if !r.Retagged? { return; }
      if listed == 0 {
        VisitedAll(docs);
        r := Retagged(changed);
        return;
      }
      offset, changed := offset + listed, changed + r.changed;
    }
  }

  /** Wherever a run was interrupted, a complete one afterwards leads where an undisturbed one would have. */
  lemma RerunCompletes(docs: seq<Document>, n: nat)
    requires Distinct(docs) && n <= |Shared(docs)|
    ensures Distinct(Visited(docs, n)) && RepairAll(Visited(docs, n)) == RepairAll(docs)
    ensures AllTagged(docs) ==> AllTagged(Visited(docs, n))
  {
    var visited := Visited(docs, n);
    forall i | 0 <= i < |docs| ensures Repair(visited[i]) == Repair(docs[i]) { RepairTwice(docs[i]); }
    if AllTagged(docs) {
      forall d | d in visited ensures TagInvariant(d) {
        var i :| 0 <= i < |visited| && visited[i] == d;
        assert docs[i] in docs;
        RepairKeepsTags(docs[i]);
      }
    }
  }

  lemma RepairTwice(d: Document)
    ensures Repair(Repair(d)) == Repair(d)
  {
  }

  lemma RepairNone(docs: seq<Document>)
    ensures RepairOn(docs, {}) == docs
  {
  }

  lemma RepairFinished(docs: seq<Document>)
    requires Distinct(docs)
    ensures RepairOn(docs, Ids(Legacy(Shared(docs)))) == RepairAll(docs)
  {
    LegacyOfShared(docs);
    FilterMembers(docs, IsLegacy);
    forall i | 0 <= i < |docs| && docs[i].id !in Ids(Legacy(docs)) ensures Repair(docs[i]) == docs[i] {
      assert docs[i] in docs && !IsLegacy(docs[i]);
    }
  }

  lemma SingletonSet(s: set<Tag>, t: Tag)
    requires |s| == 1 && t in s
    ensures s == {t}
  {
    assert |s - {t}| == 0;
  }

  lemma LoneLegacyTag(d: Document)
    requires IsTeam(d)
    ensures TagInvariant(d) ==> d.id.scope == Team && (set t | t in d.tags && t.AgentTag?) <= {AgentTag(d.id.owner)}
    ensures TagInvariant(d) && (exists t :: t in d.tags && t.AgentTag?) ==>
              (set t | t in d.tags && t.AgentTag?) == {AgentTag(d.id.owner)}
  {
  }

  lemma PatchedTags(d: Document, tag: Tag)
    requires IsTeam(d) && tag == AgentTag(d.id.owner) && tag in d.tags
    ensures d.tags - {tag} + {AuthorTag(tag.agent)} == Repaired(d.id, d.tags)
  {
  }

  lemma Position(docs: seq<Document>, done: set<DocId>, d: Document)
    requires d in docs
    ensures exists e :: e in RepairOn(docs, done) && e.id == d.id
  {
    var i :| 0 <= i < |docs| && docs[i] == d;
    assert RepairOn(docs, done)[i].id == d.id;
  }

  /** A second run finds nothing to change. */
  lemma SecondRunChangesNothing(docs: seq<Document>)
    requires AllTagged(docs)
    ensures AllTagged(RepairAll(docs))
    ensures Legacy(RepairAll(docs)) == [] && RepairAll(RepairAll(docs)) == RepairAll(docs)
  {
    var repaired := RepairAll(docs);
    forall d | d in repaired ensures TagInvariant(d) && !IsLegacy(d) && Repair(d) == d {
      var i :| 0 <= i < |docs| && d == Repair(docs[i]);
      assert TagInvariant(docs[i]);
      RepairKeepsTags(docs[i]);
    }
    FilterUniform(repaired, IsLegacy, false);
  }

  // ----- The sweeps are runs of the bank protocol -----

  /** The documents of a bank, in some listing order. */
  ghost predicate Stores(bank: map<DocId, Document>, docs: seq<Document>) {
    && Distinct(docs)
    && (forall id :: id in bank ==> bank[id].id == id && bank[id] in docs)
    && (forall d :: d in docs ==> d.id in bank && bank[d.id] == d)
  }

  /** The bank maps exactly the listed documents, each under its own id. */
  lemma StoresIs(bank: map<DocId, Document>, docs: seq<Document>, d: Document)
    requires Stores(bank, docs)
    ensures d in docs <==> d.id in bank && bank[d.id] == d
    ensures forall id :: id in bank ==> bank[id].id == id
  {
  }

  lemma ChangeStores(bank: map<DocId, Document>, docs: seq<Document>, at: nat, d: Document)
    requires Stores(bank, docs) && at < |docs| && d.id == docs[at].id
    ensures Stores(bank[d.id := d], docs[at := d])
  {
    var later := docs[at := d];
    assert later[at] == d && d in later;
    forall id | id in bank && id != d.id ensures bank[id] in later {
      var i :| 0 <= i < |docs| && docs[i] == bank[id];
      assert later[i] == bank[id];
    }
    forall x | x in later ensures x.id in bank[d.id := d] && bank[d.id := d][x.id] == x {
      var i :| 0 <= i < |later| && later[i] == x;
      if i != at { assert docs[i] in docs && docs[i].id != docs[at].id; }
    }
  }

  lemma RunSnoc(st: State, steps: seq<Step>, step: Step)
    ensures Run(st, steps + [step]) == Next(Run(st, steps), step)
  {
    assert (steps + [step])[..|steps|] == steps;
  }

  lemma VisitedNone(docs: seq<Document>)
    ensures Visited(docs, 0) == docs
  {
    assert Shared(docs)[..0] == [];
    assert Finished(Shared(docs), 0) == {};
    RepairNone(docs);
  }

  /** Where the `n`-th shared document stands, not repaired yet; repairing one that is not legacy changes nothing. */
  lemma NextShared(docs: seq<Document>, n: nat) returns (at: nat)
    requires Distinct(docs) && 0 < n <= |Shared(docs)|
    ensures at < |docs| && docs[at] == Shared(docs)[n - 1] && Visited(docs, n - 1)[at] == docs[at]
    ensures Visited(docs, n) == Visited(docs, n - 1)[at := Repair(docs[at])]
  {
    var shared := Shared(docs);
    SharedDistinct(docs);
    assert shared[n - 1] in shared;
    at :| 0 <= at < |docs| && docs[at] == shared[n - 1];
    NotYetFinished(shared, n - 1, n - 1);
    FinishedGrows(shared, n - 1);
    PatchIsRepair(docs, Finished(shared, n - 1), at);
  }

  /** Visiting a document is a retag step of the bank. */
  lemma RetagIsStep(st: State, current: seq<Document>, at: nat, next: seq<Document>) returns (later: State)
    requires Stores(st.docs, current) && at < |current| && next == current[at := Repair(current[at])]
    ensures later == Next(st, Retag(current[at].id)) && Stores(later.docs, next)
    ensures later.(docs := st.docs) == st && later.docs.Keys == st.docs.Keys
  {
    later := Next(st, Retag(current[at].id));
    assert current[at] in current;
    ChangeStores(st.docs, current, at, Repair(current[at]));
  }

  /** `later` is `st` with the first `n` shared documents of its bank visited. */
  ghost predicate MidRetag(st: State, later: State, docs: seq<Document>, n: nat)
    requires n <= |Shared(docs)|
  {
    Stores(later.docs, Visited(docs, n)) && later.(docs := st.docs) == st && later.docs.Keys == st.docs.Keys
  }

  lemma NoneVisited(st: State, docs: seq<Document>)
    requires Stores(st.docs, docs)
    ensures MidRetag(st, st, docs, 0)
  {
    VisitedNone(docs);
  }

  function RetagSteps(shared: seq<Document>, n: nat): seq<Step>
    requires n <= |shared|
  {
    seq(n, i requires 0 <= i < n => Retag(shared[i].id))
  }

  lemma RetagStepsRun(st: State, shared: seq<Document>, n: nat)
    requires n <= |shared|
    ensures Run(st, RetagSteps(shared, n)) ==
              if n == 0 then st else Next(Run(st, RetagSteps(shared, n - 1)), Retag(shared[n - 1].id))
  {
    if n > 0 {
      RunSnoc(st, RetagSteps(shared, n - 1), Retag(shared[n - 1].id));
      assert RetagSteps(shared, n) == RetagSteps(shared, n - 1) + [Retag(shared[n - 1].id)];
    }
  }

  lemma VisitNext(st: State, mid: State, docs: seq<Document>, n: nat) returns (later: State)
    requires Distinct(docs) && 0 < n <= |Shared(docs)| && MidRetag(st, mid, docs, n - 1)
    ensures later == Next(mid, Retag(Shared(docs)[n - 1].id)) && MidRetag(st, later, docs, n)
  {
    var at := NextShared(docs, n);
    later := RetagIsStep(mid, Visited(docs, n - 1), at, Visited(docs, n));
  }

  /** After visiting any number of shared documents, the bank is where that many retag steps lead. */
  lemma {:induction false} RetagIsRun(st: State, docs: seq<Document>, n: nat) returns (later: State)
    requires Stores(st.docs, docs) && n <= |Shared(docs)|
    ensures later == Run(st, RetagSteps(Shared(docs), n)) && MidRetag(st, later, docs, n)
  {
    if n == 0 {
      later := st;
      NoneVisited(st, docs);
    } else {
      later := RetagIsRun(st, docs, n - 1);
      later := VisitNext(st, later, docs, n);
    }
    RetagStepsRun(st, Shared(docs), n);
  }

  /** At every point of a retag run, every request sees the documents it saw before it. */
  lemma RetagKeepsRecall(st: State, docs: seq<Document>, n: nat, b: AgentId) returns (later: State)
    requires Inv(st) && Stores(st.docs, docs) && n <= |Shared(docs)| && ResolveAccess(st, b).Some?
    ensures Inv(later) && MidRetag(st, later, docs, n)
    ensures Stores(later.docs, Visited(docs, n)) && later.(docs := st.docs) == st
    ensures Recall(later, ResolveAccess(st, b).value) == Recall(st, ResolveAccess(st, b).value)
  {
    later := RetagIsRun(st, docs, n);
    RunKeepsInv(st, RetagSteps(Shared(docs), n));
    var access := ResolveAccess(st, b).value;
    forall id ensures id in Recall(later, access) <==> id in Recall(st, access) {
      RecallIsMayRead(st, later, b, id);
      RecallIsMayRead(st, st, b, id);
    }
  }

  /** The purge steps for the first `n` of some documents. */
  function PurgeSteps(docs: seq<Document>, n: nat): seq<Step>
    requires n <= |docs|
  {
    seq(n, i requires 0 <= i < n => Purge(docs[i].id))
  }

  lemma IdsGrow(docs: seq<Document>, n: nat)
    requires 0 < n <= |docs|
    ensures Ids(docs[..n]) == Ids(docs[..n - 1]) + {docs[n - 1].id}
  {
    assert docs[..n] == docs[..n - 1] + [docs[n - 1]];
  }

  lemma {:induction false} PurgeStepsRun(st: State, owned: seq<Document>, n: nat, a: AgentId)
    requires n <= |owned| && a in st.tombstones && forall i :: 0 <= i < |owned| ==> owned[i].id.owner == a
    ensures Run(st, PurgeSteps(owned, n)) == st.(docs := st.docs - Ids(owned[..n]))
  {
    if n > 0 {
      PurgeStepsRun(st, owned, n - 1, a);
      RunSnoc(st, PurgeSteps(owned, n - 1), Purge(owned[n - 1].id));
      assert PurgeSteps(owned, n) == PurgeSteps(owned, n - 1) + [Purge(owned[n - 1].id)];
      IdsGrow(owned, n);
      assert st.docs - Ids(owned[..n - 1]) - {owned[n - 1].id} == st.docs - Ids(owned[..n]);
    } else {
      assert PurgeSteps(owned, 0) == [];
    }
  }

  /** After removing any number of the Agent's documents, the bank is where a run of purge steps leads. */
  lemma PurgeIsRun(st: State, docs: seq<Document>, left: seq<Document>, a: AgentId, removed: nat)
    requires Stores(st.docs, docs) && AllTagged(docs) && a in st.tombstones && Distinct(left)
    requires removed <= |Owned(docs, a)| && Owned(left, a) == Owned(docs, a)[removed..]
             && Others(left, a) == Others(docs, a)
    ensures var later := Run(st, PurgeSteps(Owned(docs, a), removed));
            Stores(later.docs, left) && later.(docs := st.docs) == st
  {
    var owned := Owned(docs, a);
    FilterMembers(docs, (d: Document) => OwnedBy(d.tags, a));
    forall i | 0 <= i < |owned| ensures owned[i].id.owner == a {
      assert owned[i] in owned;
      OwnedIsNamespace(owned[i], a);
    }
    PurgeStepsRun(st, owned, removed, a);
    FilterDistinct(docs, (d: Document) => OwnedBy(d.tags, a));
    forall d ensures d in left <==> d in docs && d !in owned[..removed] { LeftMembers(docs, left, a, removed, d); }
    forall d | d in docs ensures d in owned[..removed] <==> d.id in Ids(owned[..removed]) {
      if d.id in Ids(owned[..removed]) {
        var e :| e in owned[..removed] && e.id == d.id;
        assert e in owned && e in docs;
        assert st.docs[d.id] == d && st.docs[d.id] == e;
      }
    }
  }

  lemma PartsDisjoint(docs: seq<Document>, n: nat, d: Document)
    requires Distinct(docs) && n <= |docs|
    ensures d in docs <==> d in docs[..n] || d in docs[n..]
    ensures !(d in docs[..n] && d in docs[n..])
  {
    assert docs == docs[..n] + docs[n..];
    if d in docs[..n] {
      var i :| 0 <= i < n && docs[i] == d;
      assert forall j :: n <= j < |docs| ==> docs[j].id != docs[i].id;
    }
  }

  lemma LeftMembers(docs: seq<Document>, left: seq<Document>, a: AgentId, removed: nat, d: Document)
    requires Distinct(docs) && removed <= |Owned(docs, a)|
    requires Owned(left, a) == Owned(docs, a)[removed..] && Others(left, a) == Others(docs, a)
    ensures d in left <==> d in docs && d !in Owned(docs, a)[..removed]
  {
    var owned := Owned(docs, a);
    FilterMembers(docs, (x: Document) => OwnedBy(x.tags, a));
    FilterMembers(docs, (x: Document) => !OwnedBy(x.tags, a));
    FilterMembers(left, (x: Document) => OwnedBy(x.tags, a));
    FilterMembers(left, (x: Document) => !OwnedBy(x.tags, a));
    FilterDistinct(docs, (x: Document) => OwnedBy(x.tags, a));
    PartsDisjoint(owned, removed, d);
  }
}
