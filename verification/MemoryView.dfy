/**
 The read-only memory viewer: private memories first, then Organization Memory, as one paginated list
 (api/domains/agent_memory/view_service.py).
 */
module MemoryView {
  import opened Common
  import opened MemoryBank
  import opened MemorySweeps

  const MAX_LIMIT := 50
  const MAX_OFFSET := 100_000
  const MAX_PAGE := 2_000

  datatype Query = Query(limit: int, offset: int)
  datatype View<T> = View(items: seq<T>, total: nat)

  /** The bounds every query is validated against. */
  predicate ValidQuery(q: Query) {
    1 <= q.limit <= MAX_LIMIT && 0 <= q.offset <= MAX_OFFSET
  }

  lemma QueryBounds(q: Query)
    ensures ValidQuery(q) <==> 1 <= q.limit <= 50 && 0 <= q.offset <= 100_000
  {
  }

  /** What the backend answers for one scope; a count-only request asks for no items. */
  function ListScope<T>(all: seq<T>, q: Query, countOnly: bool): View<T>
    requires ValidQuery(q)
  {
    View(Page(all, q.offset, if countOnly then 0 else q.limit), |all|)
  }

  /** The query for the second list, derived from the first answer. */
  function SharedQuery<T>(q: Query, own: View<T>): Query {
    var left := q.limit - |own.items|;
    Query(if left == 0 then 1 else left, if q.offset > own.total then q.offset - own.total else 0)
  }

  /** The derived query always passes the validation it is constructed under. */
  lemma SharedQueryValid<T>(own: seq<T>, q: Query)
    requires ValidQuery(q)
    ensures ValidQuery(SharedQuery(q, ListScope(own, q, false)))
  {
  }

  function ListMemories<T>(own: seq<T>, shared: seq<T>, granted: bool, q: Query): View<T>
    requires ValidQuery(q)
  {
    var first := ListScope(own, q, false);
    if !granted then first
    else
      SharedQueryValid(own, q);
      var second := ListScope(shared, SharedQuery(q, first), |first.items| == q.limit);
      View(first.items + second.items, first.total + second.total)
  }

  /** The two answers together are one page of the concatenated lists, in every overlap case. */
  lemma PageOfBoth<T>(own: seq<T>, shared: seq<T>, q: Query)
    requires ValidQuery(q)
    ensures ListMemories(own, shared, true, q) == View(Page(own + shared, q.offset, q.limit), |own + shared|)
    ensures ListMemories(own, shared, false, q) == View(Page(own, q.offset, q.limit), |own|)
  {
    var first := Page(own, q.offset, q.limit);
    var both := Page(own + shared, q.offset, q.limit);
    if q.offset >= |own| {
      assert both == Page(shared, q.offset - |own|, q.limit);
    } else if q.offset + q.limit <= |own| {
      assert both == first + Page(shared, 0, 0);
    } else {
      assert both == first + Page(shared, 0, q.limit - |first|);
    }
  }

  /** The first `n` pages of a list, one after the other. */
  function Pages<T>(all: seq<T>, size: nat, n: nat): seq<T> {
    if n == 0 then [] else Pages(all, size, n - 1) + Page(all, (n - 1) * size, size)
  }

  /** The elements before position `m`. */
  function UpTo<T>(all: seq<T>, m: nat): seq<T> { if m <= |all| then all[..m] else all }

  lemma NextPage<T>(all: seq<T>, m: nat, size: nat)
    ensures UpTo(all, m) + Page(all, m, size) == UpTo(all, m + size)
  {
  }

  /** Consecutive pages enumerate the list once, in order, without gaps or repeats. */
  lemma {:induction false} PagesEnumerate<T>(all: seq<T>, size: nat, n: nat)
    ensures Pages(all, size, n) == UpTo(all, n * size)
  {
    if n == 0 {
      assert n * size == 0;
    } else {
      PagesEnumerate(all, size, n - 1);
      assert n * size == (n - 1) * size + size;
      NextPage(all, (n - 1) * size, size);
    }
  }

  lemma ProductGrows(a: int, b: int, size: int)
    requires 0 <= a <= b && 0 <= size
    ensures 0 <= a * size <= b * size
  {
  }

  /** Every page number and size the route accepts gives an offset of at most 99,950, within the cap. */
  lemma RouteOffsets(page: int, size: int)
    requires 1 <= page <= MAX_PAGE && 1 <= size <= MAX_LIMIT
    ensures 0 <= (page - 1) * size <= 99_950
    ensures ValidQuery(Query(size, (page - 1) * size))
  {
    ProductGrows(page - 1, 1_999, size);
  }

  /** What the viewer answers on pages 1 to `n`, one after the other. */
  function Shown<T>(own: seq<T>, shared: seq<T>, granted: bool, size: int, n: nat): seq<T>
    requires n <= MAX_PAGE && 1 <= size <= MAX_LIMIT
  {
    if n == 0 then []
    else
      RouteOffsets(n, size);
      Shown(own, shared, granted, size, n - 1) + ListMemories(own, shared, granted, Query(size, (n - 1) * size)).items
  }

  lemma {:induction false} ShownArePages<T>(own: seq<T>, shared: seq<T>, granted: bool, size: int, n: nat)
    requires n <= MAX_PAGE && 1 <= size <= MAX_LIMIT
    ensures Shown(own, shared, granted, size, n) == Pages(if granted then own + shared else own, size, n)
  {
    if n > 0 {
      ShownArePages(own, shared, granted, size, n - 1);
      RouteOffsets(n, size);
      PageOfBoth(own, shared, Query(size, (n - 1) * size));
    }
  }

  // ----- The two scopes of one bank -----

  function OwnList(docs: seq<Document>, a: AgentId): seq<Document> {
    Filter(docs, (d: Document) => d.tags == {AgentTag(a)})
  }

  /** The lists are the Agent's private documents and the team documents, and no document is in both. */
  lemma ScopesDisjoint(docs: seq<Document>, a: AgentId, d: Document)
    requires AllTagged(docs)
    ensures d in OwnList(docs, a) <==> d in docs && d.id.owner == a && d.id.scope == Private
    ensures d in Shared(docs) <==> d in docs && d.id.scope == Team
    ensures !(d in OwnList(docs, a) && d in Shared(docs))
  {
    FilterMembers(docs, (x: Document) => x.tags == {AgentTag(a)});
    FilterMembers(docs, IsTeam);
    if d in docs { assert TagInvariant(d); }
  }

  lemma ViewIsDistinct(docs: seq<Document>, a: AgentId)
    requires AllTagged(docs) && Distinct(docs)
    ensures Distinct(OwnList(docs, a) + Shared(docs))
  {
    var own, shared := OwnList(docs, a), Shared(docs);
    FilterDistinct(docs, (d: Document) => d.tags == {AgentTag(a)});
    SharedDistinct(docs);
    forall i, j | 0 <= i < |own| && 0 <= j < |shared| ensures own[i].id != shared[j].id {
      ScopesDisjoint(docs, a, own[i]);
      ScopesDisjoint(docs, a, shared[j]);
    }
  }

  /**
   Paging through an Agent's view shows each memory at most once, in order. The pages the route accepts show
   all of them exactly when they fit on 2,000 pages.
   */
  lemma ViewerShowsEachOnce(docs: seq<Document>, a: AgentId, granted: bool, size: int, n: nat)
    requires AllTagged(docs) && Distinct(docs) && n <= MAX_PAGE && 1 <= size <= MAX_LIMIT
    ensures var own, shared := OwnList(docs, a), Shared(docs);
            var all := if granted then own + shared else own;
            && Distinct(all)
            && Shown(own, shared, granted, size, n) == UpTo(all, n * size)
            && (Shown(own, shared, granted, size, MAX_PAGE) == all <==> |all| <= MAX_PAGE * size)
  {
    var own, shared := OwnList(docs, a), Shared(docs);
    var all := if granted then own + shared else own;
    ViewIsDistinct(docs, a);
    assert Distinct(all) by {
      if !granted { FilterDistinct(docs, (d: Document) => d.tags == {AgentTag(a)}); }
    }
    ShownArePages(own, shared, granted, size, n);
    PagesEnumerate(all, size, n);
    ShownArePages(own, shared, granted, size, MAX_PAGE);
    PagesEnumerate(all, size, MAX_PAGE);
  }

  // ----- Checking what the backend returned -----

  datatype FactType = World | Experience | Observation | Unknown
  datatype Fact = Fact(tags: set<Tag>, kind: FactType)

  predicate InView(f: Fact, own: Tag, exact: bool) {
    own in f.tags && (exact ==> f.tags == {own}) && f.kind != Unknown
  }

  /**
   Maps a backend page, failing closed: one row outside the view, or more rows than asked for or counted,
   refuses it all.
   */
  method CheckPage(rows: seq<Fact>, total: int, own: Tag, limit: nat, exact: bool) returns (r: Option<View<Fact>>)
    ensures r.Some? <==>
              && (forall i :: 0 <= i < |rows| ==> InView(rows[i], own, exact))
              && |rows| <= limit && |rows| <= total
    ensures r.Some? ==> r.value == View(rows, total)
  {
    var items := [];
    for i := 0 to |rows|
      invariant items == rows[..i] && forall j :: 0 <= j < i ==> InView(rows[j], own, exact)
    {
      if own !in rows[i].tags || (exact && rows[i].tags != {own}) || rows[i].kind == Unknown { return None; }
      items := items + [rows[i]];
    }
    if |items| > limit || total < |items| { return None; }
    r := Some(View(items, total));
  }
}
