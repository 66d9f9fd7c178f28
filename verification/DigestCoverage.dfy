/**
 What the closure behind the runtime digest covers, read off the program alone
 (api/domains/agents/runtime_digest.py).
 */
module DigestCoverage {
  import opened Common
  import opened RuntimeDigest

  /** The package's modules are those whose name begins with `api.`. */
  lemma InPackageIs(m: ModuleName, rest: string)
    ensures InPackage("api." + rest)
    ensures InPackage(m) ==> m == "api." + m[4..]
  {
    assert ("api." + rest)[..4] == "api.";
    if InPackage(m) { assert m == m[..4] + m[4..]; }
  }

  /** The name is imported in the module from inside the package. */
  predicate PackageImport(p: Program, m: ModuleName, name: Name) {
    m in p && name in p[m].imports && InPackage(p[m].imports[name])
  }

  /** The name is defined in the module and not imported from inside the package. */
  predicate LocalName(p: Program, m: ModuleName, name: Name) {
    m in p && name in p[m].definitions && !PackageImport(p, m, name)
  }

  /** `owner` defines the name at the end of a chain of at most nine modules that starts at the import. */
  ghost predicate ImportLeadsTo(p: Program, m: ModuleName, name: Name, owner: ModuleName) {
    && PackageImport(p, m, name)
    && exists chain :: ReexportChain(p, name, chain) && |chain| <= 9
                       && chain[0] == p[m].imports[name] && chain[|chain| - 1] == owner
  }

  /** What a name used in a module stands for. */
  ghost predicate StandsFor(p: Program, m: ModuleName, name: Name, owner: ModuleName) {
    (LocalName(p, m, name) && owner == m) || ImportLeadsTo(p, m, name, owner)
  }

  lemma LookupIsStandsFor(p: Program, m: ModuleName, name: Name, owner: ModuleName)
    ensures Lookup(p, m, name) == Some(owner) <==> StandsFor(p, m, name, owner)
  {
    if PackageImport(p, m, name) {
      if ImportLeadsTo(p, m, name, owner) {
        var chain :| ReexportChain(p, name, chain) && |chain| <= 9
                     && chain[0] == p[m].imports[name] && chain[|chain| - 1] == owner;
        ResolveComplete(p, name, chain, 0);
      }
      if Lookup(p, m, name) == Some(owner) {
        var chain := ResolveSound(p, name, p[m].imports[name], 0);
        assert chain[|chain| - 1] == owner;
      }
    }
  }

  /** The class a collaborator's annotation stands for, and where it is defined. */
  ghost predicate IsCollaborator(p: Program, m: ModuleName, annotation: Name, owner: ModuleName, c: Class) {
    && ImportLeadsTo(p, m, annotation, owner)
    && owner in p && annotation in p[owner].definitions && p[owner].definitions[annotation].class_ == Some(c)
  }

  lemma CollaboratorIs(p: Program, m: ModuleName, annotation: Name, owner: ModuleName, c: Class)
    ensures Collaborator(p, m, annotation) == Some((owner, c)) <==> IsCollaborator(p, m, annotation, owner, c)
  {
    LookupIsStandsFor(p, m, annotation, owner);
  }

  // ----- The closure covers every reference -----

  /** Key `t` stands for a name that the definition of key `k` refers to. */
  ghost predicate ReferredBy(p: Program, k: Key, t: Key) {
    && NodeAt(p, k).Some? && t.symbol.Top? && t.symbol.name in NodeAt(p, k).value.refs
    && StandsFor(p, k.module_, t.symbol.name, t.module_)
  }

  lemma TargetsAreReferred(p: Program, k: Key, t: Key)
    ensures t in Targets(p, k.module_, RefsAt(p, k)) <==> ReferredBy(p, k, t)
  {
    if t.symbol.Top? { LookupIsStandsFor(p, k.module_, t.symbol.name, t.module_); }
  }

  /** Whatever a collected definition refers to is collected: its own module's definitions and the package's. */
  lemma DiscoveryFollowsReferences(p: Program, r: map<Key, Node>, k: Key, name: Name)
    requires IsDiscovery(p, Some(r)) && k in r && name in r[k].refs
    ensures LocalName(p, k.module_, name) ==> Key(k.module_, Top(name)) in r
    ensures forall owner :: ImportLeadsTo(p, k.module_, name, owner) ==> Key(owner, Top(name)) in r
  {
    var entry := ResolveClass(p, ENTRY_MODULE, ENTRY_CLASS).value;
    ClosureIsLeastFixpoint(p, SeedKeys(p, entry.0, entry.1));
    assert NodeAt(p, k) == Some(r[k]);
    forall owner | StandsFor(p, k.module_, name, owner) ensures Key(owner, Top(name)) in r {
      TargetsAreReferred(p, k, Key(owner, Top(name)));
      assert Targets(p, k.module_, RefsAt(p, k)) <= r.Keys;
    }
    if LocalName(p, k.module_, name) { assert StandsFor(p, k.module_, name, k.module_); }
  }

  /** A seed, or referred to by a key of the set. */
  ghost predicate HasReason(p: Program, seeds: set<Key>, keys: set<Key>, t: Key) {
    t in seeds || exists k :: k in keys && ReferredBy(p, k, t)
  }

  lemma ReasonedIsClosed(p: Program, seeds: set<Key>, keys: set<Key>, reasoned: set<Key>)
    requires ClosedUnderReferences(p, seeds, keys) && reasoned <= keys
    requires forall t :: t in keys ==> (t in reasoned <==> HasReason(p, seeds, keys, t))
    ensures ClosedUnderReferences(p, seeds, reasoned)
  {
    forall k | k in reasoned ensures Targets(p, k.module_, RefsAt(p, k)) <= reasoned {
      assert Targets(p, k.module_, RefsAt(p, k)) <= keys;
      forall t | t in Targets(p, k.module_, RefsAt(p, k)) ensures t in reasoned {
        TargetsAreReferred(p, k, t);
        assert HasReason(p, seeds, keys, t);
      }
    }
    forall t | t in seeds ensures t in reasoned { assert HasReason(p, seeds, keys, t); }
  }

  /** And nothing else is: a collected definition that is not a seed is referred to by a collected one. */
  lemma DiscoveryHasReasons(p: Program, r: map<Key, Node>, t: Key)
    requires IsDiscovery(p, Some(r)) && t in r
    ensures var entry := ResolveClass(p, ENTRY_MODULE, ENTRY_CLASS).value;
            HasReason(p, SeedKeys(p, entry.0, entry.1), r.Keys, t)
  {
    var entry := ResolveClass(p, ENTRY_MODULE, ENTRY_CLASS).value;
    var seeds := SeedKeys(p, entry.0, entry.1);
    ClosureIsLeastFixpoint(p, seeds);
    var reasoned := set x | x in r.Keys && HasReason(p, seeds, r.Keys, x);
    ReasonedIsClosed(p, seeds, r.Keys, reasoned);
    assert Closure(p, seeds) <= reasoned;
  }

  /** Each key holds the definition it names. */
  lemma DiscoveryHoldsDefinitions(p: Program, r: map<Key, Node>, k: Key)
    requires IsDiscovery(p, Some(r)) && k in r
    ensures k.module_ in p
    ensures match k.symbol
            case Top(name) => name in p[k.module_].definitions && r[k] == p[k.module_].definitions[name].node
            case Member(owner, m) =>
              && owner in p[k.module_].definitions && p[k.module_].definitions[owner].class_.Some?
              && var c := p[k.module_].definitions[owner].class_.value;
                 m in c.methods && r[k] == c.methods[m].node
  {
    assert NodeAt(p, k) == Some(r[k]);
  }

  // ----- The seeds -----

  /** The entry class's methods that the entry method reaches by calls on itself. */
  ghost function Assembly(c: Class): set<Name> { Reach(c.methods, {ENTRY_METHOD}) }

  /** A method of the assembly calls `called` on a collaborator annotated `annotation`. */
  ghost predicate Calls(c: Class, annotation: Name, called: Name) {
    exists n, attribute :: n in Assembly(c) && n in c.methods && (attribute, called) in c.methods[n].attributeCalls
                           && attribute in c.attributes && c.attributes[attribute] == annotation
  }

  lemma CalledOnIs(c: Class, annotation: Name, called: Name)
    ensures called in CalledOn(c, Assembly(c), annotation) <==> Calls(c, annotation, called)
    ensures Calls(c, annotation, called) ==> annotation in Annotations(c, Assembly(c))
  {
    if Calls(c, annotation, called) {
      var n, attribute :| n in Assembly(c) && n in c.methods && (attribute, called) in c.methods[n].attributeCalls
                          && attribute in c.attributes && c.attributes[attribute] == annotation;
      var call := (attribute, called);
      assert call in c.methods[n].attributeCalls && call.0 in c.attributes;
    }
  }

  /** The entry method is collected, and with a method of the assembly every method it calls on itself. */
  lemma DiscoveryHoldsAssembly(p: Program, r: map<Key, Node>, n: Name, callee: Name)
    requires IsDiscovery(p, Some(r))
    ensures var entry := ResolveClass(p, ENTRY_MODULE, ENTRY_CLASS).value;
            && Key(entry.0, Member(ENTRY_CLASS, ENTRY_METHOD)) in r
            && (n in Assembly(entry.1) ==> Key(entry.0, Member(ENTRY_CLASS, n)) in r)
            && (n in Assembly(entry.1) && callee in entry.1.methods[n].selfCalls && callee in entry.1.methods ==>
                  callee in Assembly(entry.1))
  {
    var entry := ResolveClass(p, ENTRY_MODULE, ENTRY_CLASS).value;
    var seeds := SeedKeys(p, entry.0, entry.1);
    ClosureIsLeastFixpoint(p, seeds);
    ReachIsLeastFixpoint(entry.1.methods, {ENTRY_METHOD});
    forall x | x in Assembly(entry.1) ensures Key(entry.0, Member(ENTRY_CLASS, x)) in seeds {
      assert Key(entry.0, Member(ENTRY_CLASS, x)) in AssemblyKeys(entry.0, Assembly(entry.1));
    }
  }

  /** A method the assembly calls on a collaborator is collected, and with it every method it reaches on itself. */
  lemma DiscoveryHoldsCollaborators(p: Program, r: map<Key, Node>, annotation: Name, owner: ModuleName, oc: Class,
                                    called: Name)
    requires IsDiscovery(p, Some(r))
    requires var entry := ResolveClass(p, ENTRY_MODULE, ENTRY_CLASS).value;
             IsCollaborator(p, entry.0, annotation, owner, oc) && Calls(entry.1, annotation, called)
    ensures forall n :: n in Reach(oc.methods, {called}) ==> Key(owner, Member(annotation, n)) in r
    ensures called in oc.methods ==> Key(owner, Member(annotation, called)) in r
  {
    var entry := ResolveClass(p, ENTRY_MODULE, ENTRY_CLASS).value;
    var seeds := SeedKeys(p, entry.0, entry.1);
    ClosureIsLeastFixpoint(p, seeds);
    CollaboratorIs(p, entry.0, annotation, owner, oc);
    CalledOnIs(entry.1, annotation, called);
    var calledOn := CalledOn(entry.1, Assembly(entry.1), annotation);
    ReachGrows(oc.methods, {called}, calledOn);
    ReachIsLeastFixpoint(oc.methods, {called});
    forall n | n in Reach(oc.methods, {called}) ensures Key(owner, Member(annotation, n)) in seeds {
      assert Key(owner, Member(annotation, n)) in CollaboratorKeys(p, entry.0, entry.1, Assembly(entry.1), annotation);
    }
  }

  /** A method reached, on a collaborator, from those the assembly calls there. */
  ghost predicate ReachedThere(p: Program, m: ModuleName, c: Class, k: Key, annotation: Name, oc: Class) {
    && IsCollaborator(p, m, annotation, k.module_, oc)
    && k.symbol.Member? && k.symbol.owner == annotation
    && k.symbol.method_ in Reach(oc.methods, CalledOn(c, Assembly(c), annotation))
  }

  lemma CollaboratorKeyReason(p: Program, m: ModuleName, c: Class, k: Key, annotation: Name) returns (oc: Class)
    requires k in CollaboratorKeys(p, m, c, Assembly(c), annotation)
    ensures ReachedThere(p, m, c, k, annotation, oc)
  {
    var owner := Collaborator(p, m, annotation).value;
    CollaboratorIs(p, m, annotation, owner.0, owner.1);
    oc := owner.1;
  }

  lemma SomeCollaborator(p: Program, m: ModuleName, c: Class, k: Key, annotations: set<Name>) returns (annotation: Name)
    requires k in AllCollaboratorKeys(p, m, c, Assembly(c), annotations)
    ensures k in CollaboratorKeys(p, m, c, Assembly(c), annotation)
  {
    annotation :| annotation in annotations && k in CollaboratorKeys(p, m, c, Assembly(c), annotation);
  }

  /** Every seed is a method of the assembly or is reached on a collaborator. */
  lemma SeedsHaveReasons(p: Program, m: ModuleName, c: Class, k: Key)
    requires k in SeedKeys(p, m, c)
    ensures k in AssemblyKeys(m, Assembly(c)) || exists annotation, oc :: ReachedThere(p, m, c, k, annotation, oc)
  {
    if k !in AssemblyKeys(m, Assembly(c)) {
      var annotation := SomeCollaborator(p, m, c, k, Annotations(c, Assembly(c)));
      var oc := CollaboratorKeyReason(p, m, c, k, annotation);
    }
  }

  lemma ReachGrows(methods: map<Name, Method>, small: set<Name>, large: set<Name>)
    requires small <= large
    ensures Reach(methods, small) <= Reach(methods, large)
  {
    ReachIsLeastFixpoint(methods, small);
    ReachIsLeastFixpoint(methods, large);
    assert ClosedUnderCalls(methods, small, Reach(methods, large));
  }

  // ----- The digest -----

  /** Over the same keys the hash sees the same input exactly when every definition reads the same. */
  lemma DigestSeesEveryChange(keys: seq<Key>, r: map<Key, Node>, q: map<Key, Node>)
    requires forall k :: k in keys ==> k in r && k in q
    ensures DigestInput(keys, r) == DigestInput(keys, q) <==> forall k :: k in keys ==> r[k].dump == q[k].dump
  {
    var a, b := DigestInput(keys, r), DigestInput(keys, q);
    if a == b {
      forall k | k in keys ensures r[k].dump == q[k].dump {
        var i :| 0 <= i < |keys| && keys[i] == k;
        assert a[i] == b[i];
      }
    }
  }
}
