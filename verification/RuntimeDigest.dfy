/**
 The code closure behind the runtime digest (api/domains/agents/runtime_digest.py).

 Syntax trees are represented by what the extractors read from them: the names a node references, a
 class's methods and annotated attributes, the calls a method makes on `self` and on collaborators.
 The methods below pick set elements with `:|`, so what they ensure holds for every iteration order.
 */
module RuntimeDigest {
  import opened Common

  type Name = string
  type ModuleName = string

  const ENTRY_MODULE: ModuleName := "api.domains.agents.service"
  const ENTRY_CLASS: Name := "AgentService"
  const ENTRY_METHOD: Name := "_provision_and_start"
  const PACKAGE_PREFIX := "api."
  const MAX_RESOLVE_DEPTH := 8

  datatype Node = Node(refs: set<Name>, dump: string)
  /** `attributeCalls` holds (attribute, method) for every call `self.attribute.method(...)`. */
  datatype Method = Method(node: Node, selfCalls: set<Name>, attributeCalls: set<(Name, Name)>)
  datatype Class = Class(methods: map<Name, Method>, attributes: map<Name, Name>)
  datatype Definition = Definition(node: Node, class_: Option<Class>)
  datatype Source = Source(definitions: map<Name, Definition>, imports: map<Name, ModuleName>)
  type Program = map<ModuleName, Source>

  /** Identifiers hold no dot, so a method's symbol never equals a top-level one. */
  datatype Symbol = Member(owner: Name, method_: Name) | Top(name: Name)
  datatype Key = Key(module_: ModuleName, symbol: Symbol)

  predicate InPackage(m: ModuleName) {
    |PACKAGE_PREFIX| <= |m| && m[..|PACKAGE_PREFIX|] == PACKAGE_PREFIX
  }

  // ----- Resolution -----

  function Resolve(p: Program, m: ModuleName, name: Name, depth: nat): (found: Option<ModuleName>)
    ensures found.Some? ==> found.value in p && name in p[found.value].definitions
    decreases MAX_RESOLVE_DEPTH + 1 - depth
  {
    if depth > MAX_RESOLVE_DEPTH || m !in p then None
    else if name in p[m].definitions then Some(m)
    else if name !in p[m].imports || !InPackage(p[m].imports[name]) then None
    else Resolve(p, p[m].imports[name], name, depth + 1)
  }

  /** A chain of modules that re-export `name`, ending in one that defines it. */
  ghost predicate ReexportChain(p: Program, name: Name, chain: seq<ModuleName>) {
    && chain != []
    && (forall i :: 0 <= i < |chain| ==> chain[i] in p)
    && (forall i {:trigger chain[i]} :: 0 <= i < |chain| - 1 ==> Reexports(p, name, chain[i], chain[i + 1]))
    && name in p[chain[|chain| - 1]].definitions
  }

  predicate Reexports(p: Program, name: Name, m: ModuleName, next: ModuleName) {
    && m in p && name !in p[m].definitions
    && name in p[m].imports && InPackage(next) && p[m].imports[name] == next
  }

  /**
   Resolution succeeds exactly when a re-export chain with at most MAX_RESOLVE_DEPTH hops exists, and lands
   on its end.
   */
  lemma {:induction false} ResolveComplete(p: Program, name: Name, chain: seq<ModuleName>, depth: nat)
    requires ReexportChain(p, name, chain) && |chain| + depth <= MAX_RESOLVE_DEPTH + 1
    ensures Resolve(p, chain[0], name, depth) == Some(chain[|chain| - 1])
    decreases |chain|
  {
    if |chain| > 1 {
      assert Reexports(p, name, chain[0], chain[1]);
      var rest := chain[1..];
      forall i | 0 <= i < |rest| - 1 ensures Reexports(p, name, rest[i], rest[i + 1]) {
        assert rest[i] == chain[i + 1];
      }
      ResolveComplete(p, name, rest, depth + 1);
    }
  }

  lemma {:induction false} ResolveSound(p: Program, name: Name, m: ModuleName, depth: nat)
    returns (chain: seq<ModuleName>)
    requires Resolve(p, m, name, depth).Some?
    ensures ReexportChain(p, name, chain) && |chain| + depth <= MAX_RESOLVE_DEPTH + 1
    ensures chain[0] == m && Resolve(p, m, name, depth) == Some(chain[|chain| - 1])
    decreases MAX_RESOLVE_DEPTH + 1 - depth
  {
    if name in p[m].definitions {
      chain := [m];
    } else {
      var rest := ResolveSound(p, name, p[m].imports[name], depth + 1);
      chain := [m] + rest;
      forall i | 0 <= i < |chain| - 1 ensures Reexports(p, name, chain[i], chain[i + 1]) {
        if i > 0 { assert Reexports(p, name, rest[i - 1], rest[i]); }
      }
    }
  }

  /** What a name used inside module `m` stands for: an import inside the package first, then a local definition. */
  function Lookup(p: Program, m: ModuleName, name: Name): (found: Option<ModuleName>)
    ensures found.Some? ==> found.value in p && name in p[found.value].definitions
  {
    if m !in p then None
    else if name in p[m].imports && InPackage(p[m].imports[name]) then Resolve(p, p[m].imports[name], name, 0)
    else if name in p[m].definitions then Some(m)
    else None
  }

  function ResolveClass(p: Program, m: ModuleName, name: Name): (found: Option<(ModuleName, Class)>)
    ensures found.Some? ==>
              && found.value.0 in p && name in p[found.value.0].definitions
              && p[found.value.0].definitions[name].class_ == Some(found.value.1)
  {
    var r := Resolve(p, m, name, 0);
    if r.None? || p[r.value].definitions[name].class_.None? then None
    else Some((r.value, p[r.value].definitions[name].class_.value))
  }

  // ----- Reachable methods: the least fixed point of self-calls -----

  ghost predicate ClosedUnderCalls(methods: map<Name, Method>, seed: set<Name>, s: set<Name>) {
    && (forall n :: n in seed && n in methods ==> n in s)
    && (forall n, m :: n in s && n in methods && m in methods[n].selfCalls && m in methods ==> m in s)
  }

  /** The intersection of all sets closed under self-calls from the seed. */
  ghost function Reach(methods: map<Name, Method>, seed: set<Name>): set<Name> {
    set n | n in methods && InEveryClosed(methods, seed, n)
  }

  ghost predicate InEveryClosed(methods: map<Name, Method>, seed: set<Name>, n: Name) {
    forall s: set<Name> :: ClosedUnderCalls(methods, seed, s) ==> n in s
  }

  lemma ReachIsLeastFixpoint(methods: map<Name, Method>, seed: set<Name>)
    ensures ClosedUnderCalls(methods, seed, Reach(methods, seed))
    ensures forall s :: ClosedUnderCalls(methods, seed, s) ==> Reach(methods, seed) <= s
  {
    forall n, m | n in Reach(methods, seed) && m in methods[n].selfCalls && m in methods
      ensures m in Reach(methods, seed)
    {
      forall s | ClosedUnderCalls(methods, seed, s) ensures m in s { assert n in s; }
    }
  }

  /** A set's elements in some order. */
  method Enumerate<T(==)>(s: set<T>) returns (xs: seq<T>)
    ensures forall x :: x in xs <==> x in s
    ensures |xs| == |s|
  {
    xs := [];
    var rest := s;
    while rest != {}
      invariant rest <= s && |xs| + |rest| == |s|
      invariant forall x :: x in s <==> x in rest || x in xs
      decreases rest
    {
      var x :| x in rest;
      xs, rest := xs + [x], rest - {x};
    }
  }

  /**
   Nothing is lost: every seed and every callee of a reached method is reached or still pending, and all
   lie in `goal`.
   */
  ghost predicate Working(methods: map<Name, Method>, seeds: set<Name>, goal: set<Name>, reached: set<Name>,
                          pending: seq<Name>) {
    && reached <= goal
    && (forall n :: n in pending && n in methods ==> n in goal)
    && (forall n :: n in seeds && n in methods ==> n in reached || n in pending)
    && (forall n, m :: n in reached && n in methods && m in methods[n].selfCalls && m in methods ==>
          m in reached || m in pending)
  }

  lemma SkipMethod(methods: map<Name, Method>, seeds: set<Name>, goal: set<Name>, reached: set<Name>,
                   rest: seq<Name>, current: Name)
    requires Working(methods, seeds, goal, reached, rest + [current]) && (current in reached || current !in methods)
    ensures Working(methods, seeds, goal, reached, rest)
  {
    forall n | n in rest ensures n in rest + [current] { }
  }

  lemma VisitMethod(methods: map<Name, Method>, seeds: set<Name>, goal: set<Name>, reached: set<Name>,
                    rest: seq<Name>, current: Name, more: seq<Name>)
    requires Working(methods, seeds, goal, reached, rest + [current]) && current in methods
    requires ClosedUnderCalls(methods, seeds, goal)
    requires forall n :: n in more <==> n in methods[current].selfCalls && n in methods && n !in reached + {current}
    ensures Working(methods, seeds, goal, reached + {current}, rest + more)
  {
    assert current in rest + [current];
    forall n | n in rest ensures n in rest + [current] { }
  }

  lemma WorkDone(methods: map<Name, Method>, seeds: set<Name>, goal: set<Name>, reached: set<Name>)
    requires Working(methods, seeds, goal, reached, []) && goal == Reach(methods, seeds)
    ensures reached == goal
  {
    ReachIsLeastFixpoint(methods, seeds);
    assert ClosedUnderCalls(methods, seeds, reached);
  }

  lemma WorkStarts(methods: map<Name, Method>, seed: seq<Name>, seeds: set<Name>, goal: set<Name>)
    requires seeds == (set n | n in seed) && goal == Reach(methods, seeds)
    ensures ClosedUnderCalls(methods, seeds, goal) && Working(methods, seeds, goal, {}, seed)
  {
    ReachIsLeastFixpoint(methods, seeds);
  }

  /** The worklist alone: whatever closed set bounds it, it ends with nothing pending. */
  method Saturate(methods: map<Name, Method>, seed: seq<Name>, ghost seeds: set<Name>, ghost goal: set<Name>)
    returns (reached: set<Name>)
    requires ClosedUnderCalls(methods, seeds, goal) && Working(methods, seeds, goal, {}, seed)
    ensures Working(methods, seeds, goal, reached, [])
  {
    reached := {};
    var pending := seed;
    while pending != []
      invariant Working(methods, seeds, goal, reached, pending)
      decreases methods.Keys - reached, |pending|
    {
      var current, rest := pending[|pending| - 1], pending[..|pending| - 1];
      assert pending == rest + [current];
      if current in reached || current !in methods {
        SkipMethod(methods, seeds, goal, reached, rest, current);
        pending := rest;
      } else {
        var called := set m | m in methods[current].selfCalls && m in methods;
        var more := Enumerate(called - (reached + {current}));
        VisitMethod(methods, seeds, goal, reached, rest, current, more);
        LessUnreached(methods.Keys, reached, current);
        reached, pending := reached + {current}, rest + more;
      }
    }
  }

  method ReachableMethods(methods: map<Name, Method>, seed: seq<Name>) returns (reached: set<Name>)
    ensures reached == Reach(methods, set n | n in seed)
  {
    ghost var seeds := set n | n in seed;
    ghost var goal := Reach(methods, seeds);
    WorkStarts(methods, seed, seeds, goal);
    reached := Saturate(methods, seed, seeds, goal);
    WorkDone(methods, seeds, goal, reached);
  }

  lemma LessUnreached(all: set<Name>, reached: set<Name>, current: Name)
    requires current in all && current !in reached
    ensures all - (reached + {current}) < all - reached
  {
    assert current in all - reached && current !in all - (reached + {current});
  }

  // ----- The closure -----

  /** The node a key stands for. Every collected value is this function of its key. */
  function NodeAt(p: Program, k: Key): (r: Option<Node>) {
    if k.module_ !in p then None
    else match k.symbol
      case Top(n) =>
        if n in p[k.module_].definitions then Some(p[k.module_].definitions[n].node) else None
      case Member(c, m) =>
        if c !in p[k.module_].definitions then None
        else match p[k.module_].definitions[c].class_
          case None => None
          case Some(class_) => if m in class_.methods then Some(class_.methods[m].node) else None
  }

  function Targets(p: Program, m: ModuleName, names: set<Name>): set<Key> {
    set n | n in names && Lookup(p, m, n).Some? :: Key(Lookup(p, m, n).value, Top(n))
  }

  function RefsAt(p: Program, k: Key): set<Name> {
    if NodeAt(p, k).Some? then NodeAt(p, k).value.refs else {}
  }

  ghost predicate ClosedUnderReferences(p: Program, seeds: set<Key>, s: set<Key>) {
    seeds <= s && forall k :: k in s ==> Targets(p, k.module_, RefsAt(p, k)) <= s
  }

  ghost predicate InEveryReferenceClosed(p: Program, seeds: set<Key>, k: Key) {
    forall s: set<Key> :: ClosedUnderReferences(p, seeds, s) ==> k in s
  }

  /** Every key the program can name, which bounds the search. */
  function Universe(p: Program, seeds: set<Key>): set<Key> {
    seeds + set m, n | m in p && n in p[m].definitions :: Key(m, Top(n))
  }

  ghost function Closure(p: Program, seeds: set<Key>): set<Key> {
    set k | k in Universe(p, seeds) && InEveryReferenceClosed(p, seeds, k)
  }

  lemma ClosureIsLeastFixpoint(p: Program, seeds: set<Key>)
    ensures ClosedUnderReferences(p, seeds, Closure(p, seeds))
    ensures forall s :: ClosedUnderReferences(p, seeds, s) ==> Closure(p, seeds) <= s
  {
    forall k, t | k in Closure(p, seeds) && t in Targets(p, k.module_, RefsAt(p, k)) ensures t in Closure(p, seeds) {
      forall s | ClosedUnderReferences(p, seeds, s) ensures t in s {
        assert Targets(p, k.module_, RefsAt(p, k)) <= s;
      }
    }
  }

  /** A mapping that holds exactly the nodes of its keys. */
  ghost predicate Faithful(p: Program, collected: map<Key, Node>) {
    forall k :: k in collected ==> NodeAt(p, k) == Some(collected[k])
  }

  type Entry = (ModuleName, set<Name>)

  function EntryOf(k: Key, node: Node): Entry { (k.module_, node.refs) }

  /** Nothing is lost: what a seen marker resolves to is collected, and every collected key was seen or still waits. */
  ghost predicate Progress(p: Program, goal: set<Key>, collected: map<Key, Node>, queue: seq<Entry>,
                           visited: set<Entry>) {
    && collected.Keys <= goal && Faithful(p, collected)
    && (forall e :: e in queue ==> Targets(p, e.0, e.1) <= goal)
    && (forall e :: e in visited ==> Targets(p, e.0, e.1) <= collected.Keys)
    && (forall k :: k in collected ==> EntryOf(k, collected[k]) in queue || EntryOf(k, collected[k]) in visited)
  }

  lemma ProgressAtStart(p: Program, seeds: map<Key, Node>, keys: seq<Key>)
    requires Faithful(p, seeds) && forall k :: k in keys <==> k in seeds
    ensures Progress(p, Closure(p, seeds.Keys), seeds, EntriesOf(keys, seeds), {})
  {
    ClosureIsLeastFixpoint(p, seeds.Keys);
    EntriesMembers(keys, seeds);
    forall e | e in EntriesOf(keys, seeds) ensures Targets(p, e.0, e.1) <= Closure(p, seeds.Keys) {
      var k :| k in keys && e == EntryOf(k, seeds[k]);
      assert Targets(p, k.module_, RefsAt(p, k)) <= Closure(p, seeds.Keys);
    }
  }

  lemma ProgressOnSeen(p: Program, goal: set<Key>, collected: map<Key, Node>, queue: seq<Entry>, e: Entry,
                       visited: set<Entry>)
    requires Progress(p, goal, collected, queue + [e], visited) && e in visited
    ensures Progress(p, goal, collected, queue, visited)
  {
  }

  lemma ProgressOnFresh(p: Program, goal: set<Key>, collected: map<Key, Node>, queue: seq<Entry>, e: Entry,
                        visited: set<Entry>, more: map<Key, Node>, added: seq<Key>)
    requires Progress(p, goal, collected, queue + [e], visited)
    requires forall k :: k in goal ==> Targets(p, k.module_, RefsAt(p, k)) <= goal
    requires more.Keys == collected.Keys + Targets(p, e.0, e.1) && Extends(p, collected, more, added)
    ensures Progress(p, goal, more, queue + EntriesOf(added, more), visited + {e})
  {
    var queued := EntriesOf(added, more);
    EntriesMembers(added, more);
    assert e in queue + [e];
    QueuedInGoal(p, goal, more, added);
    forall k | k in more ensures EntryOf(k, more[k]) in queue + queued || EntryOf(k, more[k]) in visited + {e} {
      if k in collected { StillAccounted(EntryOf(k, collected[k]), queue, e, visited, queued); }
    }
  }

  lemma StillAccounted(x: Entry, queue: seq<Entry>, e: Entry, visited: set<Entry>, queued: seq<Entry>)
    requires x in queue + [e] || x in visited
    ensures x in queue + queued || x in visited + {e}
  {
  }

  lemma QueuedInGoal(p: Program, goal: set<Key>, nodes: map<Key, Node>, keys: seq<Key>)
    requires Faithful(p, nodes) && nodes.Keys <= goal && forall k :: k in keys ==> k in nodes
    requires forall k :: k in goal ==> Targets(p, k.module_, RefsAt(p, k)) <= goal
    ensures forall x :: x in EntriesOf(keys, nodes) ==> Targets(p, x.0, x.1) <= goal
  {
    EntriesMembers(keys, nodes);
    forall x | x in EntriesOf(keys, nodes) ensures Targets(p, x.0, x.1) <= goal {
      var k :| k in keys && x == EntryOf(k, nodes[k]);
      assert Targets(p, k.module_, RefsAt(p, k)) <= goal;
    }
  }

  lemma ProgressAtEnd(p: Program, seeds: set<Key>, collected: map<Key, Node>, visited: set<Entry>)
    requires Progress(p, Closure(p, seeds), collected, [], visited) && seeds <= collected.Keys
    ensures collected.Keys == Closure(p, seeds)
  {
    forall k | k in collected ensures Targets(p, k.module_, RefsAt(p, k)) <= collected.Keys {
      assert EntryOf(k, collected[k]) in visited;
    }
    ClosureIsLeastFixpoint(p, seeds);
    assert ClosedUnderReferences(p, seeds, collected.Keys);
  }

  function EntriesOf(keys: seq<Key>, nodes: map<Key, Node>): seq<Entry>
    requires forall k :: k in keys ==> k in nodes
  {
    seq(|keys|, i requires 0 <= i < |keys| => EntryOf(keys[i], nodes[keys[i]]))
  }

  lemma EntriesMembers(keys: seq<Key>, nodes: map<Key, Node>)
    requires forall k :: k in keys ==> k in nodes
    ensures forall k :: k in keys ==> EntryOf(k, nodes[k]) in EntriesOf(keys, nodes)
    ensures forall e :: e in EntriesOf(keys, nodes) ==> exists k :: k in keys && e == EntryOf(k, nodes[k])
  {
    var entries := EntriesOf(keys, nodes);
    forall k | k in keys ensures EntryOf(k, nodes[k]) in entries {
      var i :| 0 <= i < |keys| && keys[i] == k;
      assert entries[i] == EntryOf(k, nodes[k]);
    }
  }

  /** The worklist: pop an entry, skip a seen marker, resolve its names in any order, queue what is new. */
  method CloseOver(p: Program, seeds: map<Key, Node>) returns (collected: map<Key, Node>)
    requires Faithful(p, seeds)
    ensures collected.Keys == Closure(p, seeds.Keys)
    ensures Faithful(p, collected)
  {
    ghost var goal := Closure(p, seeds.Keys);
    var keys := Enumerate(seeds.Keys);
    collected := seeds;
    var queue, visited: set<Entry> := EntriesOf(keys, seeds), {};
    ProgressAtStart(p, seeds, keys);
    while queue != []
      invariant seeds.Keys <= collected.Keys && Progress(p, goal, collected, queue, visited)
      decreases goal - collected.Keys, |queue|
    {
      ghost var before := collected.Keys;
      collected, queue, visited := VisitLast(p, collected, queue, visited, seeds.Keys);
      LessRemains(goal, before, collected.Keys);
    }
    ProgressAtEnd(p, seeds.Keys, collected, visited);
  }

  lemma LessRemains(goal: set<Key>, before: set<Key>, after: set<Key>)
    requires before <= after <= goal
    ensures after == before || goal - after < goal - before
  {
    if after != before {
      var k :| k in after && k !in before;
      assert k in goal - before && k !in goal - after;
    }
  }

  /** One iteration of the worklist. */
  method VisitLast(p: Program, collected: map<Key, Node>, queue: seq<Entry>, visited: set<Entry>, ghost seeds: set<Key>)
    returns (more: map<Key, Node>, queue': seq<Entry>, visited': set<Entry>)
    requires queue != [] && Progress(p, Closure(p, seeds), collected, queue, visited)
    ensures Progress(p, Closure(p, seeds), more, queue', visited') && collected.Keys <= more.Keys
    ensures more.Keys == collected.Keys ==> |queue'| < |queue|
  {
    var entry, rest := queue[|queue| - 1], queue[..|queue| - 1];
    assert queue == rest + [entry];
    if entry in visited {
      ProgressOnSeen(p, Closure(p, seeds), collected, rest, entry, visited);
      return collected, rest, visited;
    }
    var added;
    more, added := Collect(p, entry.0, entry.1, collected);
    ClosureIsLeastFixpoint(p, seeds);
    ProgressOnFresh(p, Closure(p, seeds), collected, rest, entry, visited, more, added);
    queue', visited' := rest + EntriesOf(added, more), visited + {entry};
  }

  /** `more` adds to `collected` exactly the nodes of the keys listed in `added`. */
  ghost predicate Extends(p: Program, collected: map<Key, Node>, more: map<Key, Node>, added: seq<Key>) {
    && Faithful(p, more)
    && (forall k :: k in collected ==> k in more && more[k] == collected[k])
    && (forall k :: k in added <==> k in more && k !in collected)
    && (more.Keys == collected.Keys ==> added == [])
  }

  lemma ExtendsByOne(p: Program, collected: map<Key, Node>, more: map<Key, Node>, added: seq<Key>, key: Key, node: Node)
    requires Extends(p, collected, more, added) && key !in more && NodeAt(p, key) == Some(node)
    ensures Extends(p, collected, more[key := node], added + [key])
  {
    var longer := more[key := node];
    assert key in longer.Keys && key !in collected;
  }

  /** The body of the worklist for one unseen entry: what its names resolve to is collected, and new keys are listed. */
  method Collect(p: Program, m: ModuleName, names: set<Name>, collected: map<Key, Node>)
    returns (more: map<Key, Node>, added: seq<Key>)
    requires Faithful(p, collected)
    ensures more.Keys == collected.Keys + Targets(p, m, names)
    ensures Extends(p, collected, more, added)
  {
    more, added := collected, [];
    var rest := names;
    ghost var done: set<Name> := {};
    while rest != {}
      invariant done + rest == names
      invariant more.Keys == collected.Keys + Targets(p, m, done)
      invariant Extends(p, collected, more, added)
      decreases rest
    {
      var name :| name in rest;
      var found := Lookup(p, m, name);
      TargetsGrow(p, m, done, name);
      if found.Some? {
        var key := Key(found.value, Top(name));
        if key !in more {
          var node := p[found.value].definitions[name].node;
          ExtendsByOne(p, collected, more, added, key, node);
          more, added := more[key := node], added + [key];
        }
      }
      MoveName(done, rest, names, name);
      rest, done := rest - {name}, done + {name};
    }
    assert done == names;
  }

  lemma MoveName(done: set<Name>, rest: set<Name>, all: set<Name>, name: Name)
    requires done + rest == all && name in rest
    ensures (done + {name}) + (rest - {name}) == all
  {
  }

  lemma TargetsGrow(p: Program, m: ModuleName, done: set<Name>, name: Name)
    ensures Targets(p, m, done + {name}) ==
              Targets(p, m, done) + match Lookup(p, m, name) case None => {} case Some(o) => {Key(o, Top(name))}
  {
  }

  // ----- The entry point -----

  /** The classes the assembly's methods call through annotated attributes, and the methods called on each. */
  function Annotations(c: Class, assembly: set<Name>): set<Name> {
    set n, call | n in assembly && n in c.methods && call in c.methods[n].attributeCalls && call.0 in c.attributes
      :: c.attributes[call.0]
  }

  function CalledOn(c: Class, assembly: set<Name>, annotation: Name): set<Name> {
    set n, call | n in assembly && n in c.methods && call in c.methods[n].attributeCalls
                  && call.0 in c.attributes && c.attributes[call.0] == annotation
      :: call.1
  }

  function Collaborator(p: Program, m: ModuleName, annotation: Name): (found: Option<(ModuleName, Class)>)
    ensures found.Some? ==>
              && found.value.0 in p && annotation in p[found.value.0].definitions
              && p[found.value.0].definitions[annotation].class_ == Some(found.value.1)
  {
    if m in p && annotation in p[m].imports && InPackage(p[m].imports[annotation])
    then ResolveClass(p, p[m].imports[annotation], annotation) else None
  }

  ghost function AssemblyKeys(m: ModuleName, assembly: set<Name>): set<Key> {
    set n | n in assembly :: Key(m, Member(ENTRY_CLASS, n))
  }

  /** The methods of one collaborator that belong to the closure. */
  ghost function CollaboratorKeys(p: Program, m: ModuleName, c: Class, assembly: set<Name>,
                                  annotation: Name): set<Key> {
    match Collaborator(p, m, annotation)
    case None => {}
    case Some(owner) =>
      set n | n in Reach(owner.1.methods, CalledOn(c, assembly, annotation)) :: Key(owner.0, Member(annotation, n))
  }

  ghost function AllCollaboratorKeys(p: Program, m: ModuleName, c: Class, assembly: set<Name>,
                                     annotations: set<Name>): set<Key> {
    set a, k | a in annotations && k in CollaboratorKeys(p, m, c, assembly, a) :: k
  }

  ghost function SeedKeys(p: Program, m: ModuleName, c: Class): set<Key> {
    var assembly := Reach(c.methods, {ENTRY_METHOD});
    AssemblyKeys(m, assembly) + AllCollaboratorKeys(p, m, c, assembly, Annotations(c, assembly))
  }

  /** The value `discover_closure` must return: a function of the program alone. */
  ghost predicate IsDiscovery(p: Program, r: Option<map<Key, Node>>) {
    var entry := ResolveClass(p, ENTRY_MODULE, ENTRY_CLASS);
    if entry.None? || ENTRY_METHOD !in entry.value.1.methods then r == None
    else
      && r.Some? && Faithful(p, r.value)
      && r.value.Keys == Closure(p, SeedKeys(p, entry.value.0, entry.value.1))
  }

  method DiscoverClosure(p: Program) returns (r: Option<map<Key, Node>>)
    ensures IsDiscovery(p, r)
  {
    var entry := ResolveClass(p, ENTRY_MODULE, ENTRY_CLASS);
    if entry.None? { return None; }
    var m, c := entry.value.0, entry.value.1;
    var assembly := ReachableMethods(c.methods, [ENTRY_METHOD]);
    assert (set n | n in [ENTRY_METHOD]) == {ENTRY_METHOD};
    ReachIsLeastFixpoint(c.methods, {ENTRY_METHOD});
    if ENTRY_METHOD !in assembly { return None; }
    var seeds := AssemblySeeds(p, m, c, assembly);
    seeds := CollaboratorSeeds(p, m, c, assembly, seeds);
    var collected := CloseOver(p, seeds);
    r := Some(collected);
  }

  method AssemblySeeds(p: Program, m: ModuleName, c: Class, assembly: set<Name>) returns (seeds: map<Key, Node>)
    requires m in p && ENTRY_CLASS in p[m].definitions && p[m].definitions[ENTRY_CLASS].class_ == Some(c)
    requires assembly <= c.methods.Keys
    ensures Faithful(p, seeds) && seeds.Keys == AssemblyKeys(m, assembly)
  {
    seeds := map[];
    var rest := assembly;
    while rest != {}
      invariant rest <= assembly && Faithful(p, seeds) && seeds.Keys == AssemblyKeys(m, assembly - rest)
      decreases rest
    {
      var name :| name in rest;
      var key := Key(m, Member(ENTRY_CLASS, name));
      assert AssemblyKeys(m, assembly - (rest - {name})) == AssemblyKeys(m, assembly - rest) + {key};
      seeds, rest := seeds[key := c.methods[name].node], rest - {name};
    }
  }

  method CollaboratorSeeds(p: Program, m: ModuleName, c: Class, assembly: set<Name>, start: map<Key, Node>)
    returns (seeds: map<Key, Node>)
    requires Faithful(p, start)
    ensures Faithful(p, seeds)
    ensures seeds.Keys == start.Keys + AllCollaboratorKeys(p, m, c, assembly, Annotations(c, assembly))
  {
    seeds := start;
    var rest := Annotations(c, assembly);
    ghost var done: set<Name> := {};
    while rest != {}
      invariant done + rest == Annotations(c, assembly) && Faithful(p, seeds)
      invariant seeds.Keys == start.Keys + AllCollaboratorKeys(p, m, c, assembly, done)
      decreases rest
    {
      var annotation :| annotation in rest;
      CollaboratorKeysGrow(p, m, c, assembly, done, annotation);
      seeds := OneCollaborator(p, m, c, assembly, annotation, seeds);
      MoveName(done, rest, Annotations(c, assembly), annotation);
      rest, done := rest - {annotation}, done + {annotation};
    }
    assert done == Annotations(c, assembly);
  }

  lemma CollaboratorKeysGrow(p: Program, m: ModuleName, c: Class, assembly: set<Name>, done: set<Name>,
                             annotation: Name)
    ensures AllCollaboratorKeys(p, m, c, assembly, done + {annotation})
         == AllCollaboratorKeys(p, m, c, assembly, done) + CollaboratorKeys(p, m, c, assembly, annotation)
  {
  }

  method OneCollaborator(p: Program, m: ModuleName, c: Class, assembly: set<Name>, annotation: Name,
                         start: map<Key, Node>)
    returns (seeds: map<Key, Node>)
    requires Faithful(p, start)
    ensures Faithful(p, seeds) && seeds.Keys == start.Keys + CollaboratorKeys(p, m, c, assembly, annotation)
  {
    seeds := start;
    var owner := Collaborator(p, m, annotation);
    if owner.Some? {
      var called := Enumerate(CalledOn(c, assembly, annotation));
      assert (set n | n in called) == CalledOn(c, assembly, annotation);
      var reached := ReachableMethods(owner.value.1.methods, called);
      seeds := MemberSeeds(p, owner.value.0, owner.value.1, annotation, reached, seeds);
    }
  }

  method MemberSeeds(p: Program, m: ModuleName, c: Class, annotation: Name, reached: set<Name>, start: map<Key, Node>)
    returns (seeds: map<Key, Node>)
    requires m in p && annotation in p[m].definitions && p[m].definitions[annotation].class_ == Some(c)
    requires reached <= c.methods.Keys && Faithful(p, start)
    ensures Faithful(p, seeds)
    ensures seeds.Keys == start.Keys + set n | n in reached :: Key(m, Member(annotation, n))
  {
    seeds := start;
    var rest := reached;
    while rest != {}
      invariant rest <= reached && Faithful(p, seeds)
      invariant seeds.Keys == start.Keys + set n | n in reached - rest :: Key(m, Member(annotation, n))
      decreases rest
    {
      var name :| name in rest;
      var key := Key(m, Member(annotation, name));
      if key !in seeds { seeds := seeds[key := c.methods[name].node]; }
      rest := rest - {name};
    }
    assert reached - rest == reached;
  }

  // ----- The digest is the same in every process -----

  /** Two runs of `discover_closure` on one program, whatever orders they iterate sets in, return equal mappings. */
  lemma DiscoveryIsDeterministic(p: Program, r: Option<map<Key, Node>>, q: Option<map<Key, Node>>)
    requires IsDiscovery(p, r) && IsDiscovery(p, q)
    ensures r == q
  {
    if r.Some? { FaithfulUnique(p, r.value, q.value); }
  }

  lemma FaithfulUnique(p: Program, a: map<Key, Node>, b: map<Key, Node>)
    requires Faithful(p, a) && Faithful(p, b) && a.Keys == b.Keys
    ensures a == b
  {
    forall k | k in a ensures a[k] == b[k] {
      assert NodeAt(p, k) == Some(a[k]) && NodeAt(p, k) == Some(b[k]);
    }
  }

  ghost predicate StrictOrder(less: (Key, Key) -> bool) {
    && (forall k :: !less(k, k))
    && (forall a, b, c :: less(a, b) && less(b, c) ==> less(a, c))
  }

  ghost predicate Ascending(keys: seq<Key>, less: (Key, Key) -> bool) {
    forall i, j :: 0 <= i < j < |keys| ==> less(keys[i], keys[j])
  }

  /** What is hashed: symbol and dump of every key, in the given order. */
  function DigestInput(keys: seq<Key>, closure: map<Key, Node>): seq<(Key, string)>
    requires forall k :: k in keys ==> k in closure
  {
    seq(|keys|, i requires 0 <= i < |keys| => (keys[i], closure[keys[i]].dump))
  }

  lemma {:induction false} AscendingUnique(a: seq<Key>, b: seq<Key>, less: (Key, Key) -> bool)
    requires StrictOrder(less) && Ascending(a, less) && Ascending(b, less)
    requires forall k :: k in a <==> k in b
    ensures a == b
    decreases |a|
  {
    if a != [] { assert a[0] in b; }
    if b != [] { assert b[0] in a; }
    if a != [] {
      SameFirst(a, b, less);
      TailMembers(a, less);
      TailMembers(b, less);
      AscendingUnique(a[1..], b[1..], less);
      assert a == [a[0]] + a[1..] && b == [b[0]] + b[1..];
    }
  }

  lemma SameFirst(a: seq<Key>, b: seq<Key>, less: (Key, Key) -> bool)
    requires StrictOrder(less) && Ascending(a, less) && Ascending(b, less)
    requires a != [] && b != [] && forall k :: k in a <==> k in b
    ensures a[0] == b[0]
  {
    assert a[0] in b && b[0] in a;
  }

  lemma TailMembers(a: seq<Key>, less: (Key, Key) -> bool)
    requires StrictOrder(less) && Ascending(a, less) && a != []
    ensures forall k :: k in a[1..] <==> k in a && k != a[0]
  {
  }

  /** Sorted keys of equal closures feed the hash the same input, so digests agree across processes. */
  lemma DigestIsDeterministic(p: Program, r: Option<map<Key, Node>>, q: Option<map<Key, Node>>,
                              a: seq<Key>, b: seq<Key>, less: (Key, Key) -> bool)
    requires IsDiscovery(p, r) && IsDiscovery(p, q) && r.Some?
    requires q.Some? && (forall k :: k in a <==> k in r.value) && (forall k :: k in b <==> k in q.value)
    requires StrictOrder(less) && Ascending(a, less) && Ascending(b, less)
    ensures DigestInput(a, r.value) == DigestInput(b, q.value)
  {
    DiscoveryIsDeterministic(p, r, q);
    AscendingUnique(a, b, less);
  }
}
