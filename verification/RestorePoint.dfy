/**
 Capturing and restoring an Agent's volume (api/domains/agents/restore_point_job.py), for trees of
 regular files. Directory listings come in any order; the walk sorts them.
 */
module RestorePoint {
  import opened Common

  type Content = string

  datatype FileEntry = FileEntry(name: string, content: Content)
  datatype Sub = Sub(name: string, dir: Dir)
  datatype Dir = Dir(files: seq<FileEntry>, dirs: seq<Sub>)
  datatype Member = Member(path: string, content: Content)

  datatype Runtime = Hermes | OpenClaw

  const HERMES_EXCLUDED := [
    ".cache", ".config/aai-cli", ".env", "SOUL.md", "config.yaml", "plugins", "agentbarn-messages.sqlite3",
    "workspace/skills", "workspace/IDENTITY.md", "workspace/AGENTS.md", "workspace/TOOLS.md", "workspace/BOOT.md",
    "workspace/HEARTBEAT.md"]

  const OPENCLAW_EXCLUDED := [
    "aai-cli", "local-plugins", "openclaw.json", "agentbarn-messages.sqlite3", "workspace/skills",
    "workspace/AGENTS.md", "workspace/BOOT.md", "workspace/BOOTSTRAP.md", "workspace/HEARTBEAT.md",
    "workspace/IDENTITY.md", "workspace/SOUL.md", "workspace/TOOLS.md"]

  // ----- Exclusion -----

  predicate StartsWith(s: string, prefix: string) {
    |prefix| <= |s| && s[..|prefix|] == prefix
  }

  predicate MatchesPrefix(path: string, prefixes: seq<string>) {
    exists p :: p in prefixes && (path == p || StartsWith(path, p + "/"))
  }

  /** Paths the runtime rewrites at boot, which neither capture nor comparison looks at. */
  function ExcludedBy(runtime: Runtime): seq<string> {
    if runtime == Hermes then HERMES_EXCLUDED else OPENCLAW_EXCLUDED
  }

  /** Each runtime's own boot files are listed for it and only for it; shared ones for both. */
  lemma RuntimesDiffer()
    ensures forall p :: p in ["SOUL.md", "config.yaml", ".env", "plugins", ".cache", ".config/aai-cli"] ==>
              p in ExcludedBy(Hermes) && p !in ExcludedBy(OpenClaw)
    ensures forall p :: p in ["openclaw.json", "aai-cli", "local-plugins", "workspace/SOUL.md",
            "workspace/BOOTSTRAP.md"] ==>
              p in ExcludedBy(OpenClaw) && p !in ExcludedBy(Hermes)
    ensures forall p :: p in ["agentbarn-messages.sqlite3", "workspace/skills", "workspace/AGENTS.md",
                              "workspace/BOOT.md", "workspace/HEARTBEAT.md", "workspace/IDENTITY.md",
                              "workspace/TOOLS.md"] ==>
              p in ExcludedBy(Hermes) && p in ExcludedBy(OpenClaw)
  {
  }

  /** A listed path is excluded, and so is everything below it. */
  lemma ListedIsExcluded(p: string, rest: string, prefixes: seq<string>)
    requires p in prefixes
    ensures MatchesPrefix(p, prefixes) && MatchesPrefix(p + "/" + rest, prefixes)
  {
    ExclusionIsInherited(p, rest, prefixes);
  }

  /** Nothing else is: an excluded path is listed, or has a listed path as one of its leading parts. */
  lemma ExcludedIsListed(path: string, prefixes: seq<string>) returns (p: string, rest: string)
    requires MatchesPrefix(path, prefixes)
    ensures p in prefixes && (path == p || path == p + "/" + rest)
  {
    p :| p in prefixes && (path == p || StartsWith(path, p + "/"));
    rest := "";
    if path != p {
      rest := path[|p + "/"|..];
      assert path == path[..|p + "/"|] + rest;
    }
  }

  /** Whatever lies under an excluded path is excluded. */
  lemma ExclusionIsInherited(path: string, rest: string, prefixes: seq<string>)
    requires MatchesPrefix(path, prefixes)
    ensures MatchesPrefix(path + "/" + rest, prefixes)
  {
    var p :| p in prefixes && (path == p || StartsWith(path, p + "/"));
    var below := path + "/" + rest;
    if path == p {
      assert below[..|p + "/"|] == p + "/";
    } else {
      assert below[..|p + "/"|] == path[..|p + "/"|];
    }
    assert StartsWith(below, p + "/");
  }

  // ----- Sorting names -----

  /** Code point order on strings. */
  predicate NameLeq(a: string, b: string) {
    a == "" || (b != "" && (a[0] < b[0] || (a[0] == b[0] && NameLeq(a[1..], b[1..]))))
  }

  lemma {:induction false} NameTotal(a: string, b: string)
    ensures NameLeq(a, b) || NameLeq(b, a)
  {
    if a != "" && b != "" && a[0] == b[0] { NameTotal(a[1..], b[1..]); }
  }

  lemma {:induction false} NameTransitive(a: string, b: string, c: string)
    requires NameLeq(a, b) && NameLeq(b, c)
    ensures NameLeq(a, c)
  {
    if a != "" && a[0] == b[0] && b[0] == c[0] { NameTransitive(a[1..], b[1..], c[1..]); }
  }

  function Insert<T>(x: T, s: seq<T>, name: T -> string): seq<T> {
    if s == [] || NameLeq(name(x), name(s[0])) then [x] + s else [s[0]] + Insert(x, s[1..], name)
  }

  function Sort<T>(s: seq<T>, name: T -> string): seq<T> {
    if s == [] then [] else Insert(s[0], Sort(s[1..], name), name)
  }

  ghost predicate Ordered<T>(s: seq<T>, name: T -> string) {
    forall i, j :: 0 <= i < j < |s| ==> NameLeq(name(s[i]), name(s[j]))
  }

  lemma {:induction false} InsertMembers<T>(x: T, s: seq<T>, name: T -> string)
    ensures forall y :: y in Insert(x, s, name) <==> y == x || y in s
  {
    if s != [] && !NameLeq(name(x), name(s[0])) {
      InsertMembers(x, s[1..], name);
      assert s == [s[0]] + s[1..];
    }
  }

  /** Where an element of the longer list comes from: `x` itself for 0, else position j - 1 of `s`. */
  lemma {:induction false} InsertIndex<T>(x: T, s: seq<T>, name: T -> string, i: nat) returns (j: nat)
    requires i < |Insert(x, s, name)|
    ensures j <= |s| && Insert(x, s, name)[i] == if j == 0 then x else s[j - 1]
  {
    if s == [] || NameLeq(name(x), name(s[0])) {
      j := i;
    } else if i == 0 {
      j := 1;
    } else {
      j := InsertIndex(x, s[1..], name, i - 1);
      if j > 0 { j := j + 1; }
    }
  }

  lemma {:induction false} InsertOrdered<T>(x: T, s: seq<T>, name: T -> string)
    requires Ordered(s, name)
    ensures Ordered(Insert(x, s, name), name)
  {
    if s == [] {
    } else if NameLeq(name(x), name(s[0])) {
      forall i | 0 < i < |s| ensures NameLeq(name(x), name(s[i])) { NameTransitive(name(x), name(s[0]), name(s[i])); }
    } else {
      NameTotal(name(x), name(s[0]));
      InsertOrdered(x, s[1..], name);
      var rest := Insert(x, s[1..], name);
      forall i | 0 <= i < |rest| ensures NameLeq(name(s[0]), name(rest[i])) {
        var j := InsertIndex(x, s[1..], name, i);
        if j > 0 { assert rest[i] == s[j]; }
      }
    }
  }

  lemma {:induction false} SortOrdered<T>(s: seq<T>, name: T -> string)
    ensures Ordered(Sort(s, name), name)
    ensures forall y :: y in Sort(s, name) <==> y in s
  {
    if s != [] {
      SortOrdered(s[1..], name);
      InsertOrdered(s[0], Sort(s[1..], name), name);
      InsertMembers(s[0], Sort(s[1..], name), name);
      assert s == [s[0]] + s[1..];
    }
  }

  lemma {:induction false} FilterIndex<T>(s: seq<T>, p: T -> bool, i: nat) returns (j: nat)
    requires i < |Filter(s, p)|
    ensures j < |s| && s[j] == Filter(s, p)[i]
  {
    if i < |Filter(s[..|s| - 1], p)| { j := FilterIndex(s[..|s| - 1], p, i); } else { j := |s| - 1; }
  }

  lemma FilterCons<T>(x: T, s: seq<T>, p: T -> bool)
    ensures Filter([x] + s, p) == (if p(x) then [x] else []) + Filter(s, p)
  {
    FilterConcat([x], s, p);
    FilterUniform([x], p, p(x));
  }

  lemma {:induction false} FilterInsert<T>(x: T, s: seq<T>, name: T -> string, p: T -> bool)
    requires Ordered(s, name)
    ensures Filter(Insert(x, s, name), p) == if p(x) then Insert(x, Filter(s, p), name) else Filter(s, p)
  {
    if s == [] || NameLeq(name(x), name(s[0])) {
      FilterCons(x, s, p);
      if s != [] { InsertFirst(x, s, name, p); }
    } else {
      FilterInsert(x, s[1..], name, p);
      assert s == [s[0]] + s[1..];
      FilterCons(s[0], s[1..], p);
      FilterCons(s[0], Insert(x, s[1..], name), p);
      var kept := [s[0]] + Filter(s[1..], p);
      assert kept[1..] == Filter(s[1..], p);
      assert Insert(x, kept, name) == [s[0]] + Insert(x, Filter(s[1..], p), name);
      assert Insert(x, s, name) == [s[0]] + Insert(x, s[1..], name);
      assert Filter(s, p) == if p(s[0]) then kept else Filter(s[1..], p);
    }
  }

  /** What comes before the whole list comes before what is left of it. */
  lemma InsertFirst<T>(x: T, s: seq<T>, name: T -> string, p: T -> bool)
    requires Ordered(s, name) && s != [] && NameLeq(name(x), name(s[0]))
    ensures Insert(x, Filter(s, p), name) == [x] + Filter(s, p)
  {
    var kept := Filter(s, p);
    if kept != [] {
      var i := FilterIndex(s, p, 0);
      if i > 0 { NameTransitive(name(x), name(s[0]), name(s[i])); }
    }
  }

  /** Sorting what passes a filter is filtering what was sorted. */
  lemma {:induction false} SortFilter<T>(s: seq<T>, name: T -> string, p: T -> bool)
    ensures Sort(Filter(s, p), name) == Filter(Sort(s, name), p)
  {
    if s != [] {
      SortFilter(s[1..], name, p);
      SortOrdered(s[1..], name);
      FilterInsert(s[0], Sort(s[1..], name), name, p);
      assert s == [s[0]] + s[1..];
      FilterCons(s[0], s[1..], p);
      if p(s[0]) {
        var kept := [s[0]] + Filter(s[1..], p);
        assert kept[1..] == Filter(s[1..], p);
        assert Filter(s, p) == kept;
      } else {
        assert Filter(s, p) == Filter(s[1..], p);
      }
    }
  }

  // ----- Walking -----

  function Height(d: Dir): nat { 1 + MaxHeight(d.dirs) }

  function MaxHeight(subs: seq<Sub>): nat {
    if subs == [] then 0
    else
      var rest, h := MaxHeight(subs[1..]), Height(subs[0].dir);
      if h > rest then h else rest
  }

  lemma {:induction false} SubHeight(subs: seq<Sub>, s: Sub)
    requires s in subs
    ensures Height(s.dir) <= MaxHeight(subs)
  {
    if s != subs[0] { SubHeight(subs[1..], s); }
  }

  function FileName(f: FileEntry): string { f.name }
  function SubName(s: Sub): string { s.name }

  function Members(files: seq<FileEntry>, prefix: string): seq<Member> {
    seq(|files|, i requires 0 <= i < |files| => Member(prefix + files[i].name, files[i].content))
  }

  function KeptSubs(subs: seq<Sub>, prefix: string, excluded: seq<string>): seq<Sub> {
    Filter(subs, (s: Sub) => !MatchesPrefix(prefix + s.name, excluded))
  }

  /** The pruned walk: files of a directory first, then its kept subdirectories, each in name order. */
  function Walk(d: Dir, prefix: string, excluded: seq<string>): seq<Member>
    decreases Height(d), 0
  {
    var files := Filter(Sort(d.files, FileName), (f: FileEntry) => !MatchesPrefix(prefix + f.name, excluded));
    var subs := Sort(KeptSubs(d.dirs, prefix, excluded), SubName);
    SortOrdered(KeptSubs(d.dirs, prefix, excluded), SubName);
    FilterMembers(d.dirs, (s: Sub) => !MatchesPrefix(prefix + s.name, excluded));
    assert forall s :: s in subs ==> Height(s.dir) < Height(d) by {
      forall s | s in subs ensures Height(s.dir) < Height(d) { SubHeight(d.dirs, s); }
    }
    Members(files, prefix) + WalkSubs(subs, prefix, excluded, Height(d))
  }

  function WalkSubs(subs: seq<Sub>, prefix: string, excluded: seq<string>, ghost bound: nat): seq<Member>
    requires forall s :: s in subs ==> Height(s.dir) < bound
    decreases bound, 0, |subs|
  {
    if subs == [] then []
    else
      WalkSubs(subs[..|subs| - 1], prefix, excluded, bound)
      + (var s := subs[|subs| - 1]; Walk(s.dir, prefix + s.name + "/", excluded))
  }

  /** The same walk without pruning. */
  function WalkAll(d: Dir, prefix: string): seq<Member>
    decreases Height(d), 0
  {
    var subs := Sort(d.dirs, SubName);
    SortOrdered(d.dirs, SubName);
    assert forall s :: s in subs ==> Height(s.dir) < Height(d) by {
      forall s | s in subs ensures Height(s.dir) < Height(d) { SubHeight(d.dirs, s); }
    }
    Members(Sort(d.files, FileName), prefix) + WalkAllSubs(subs, prefix, Height(d))
  }

  function WalkAllSubs(subs: seq<Sub>, prefix: string, ghost bound: nat): seq<Member>
    requires forall s :: s in subs ==> Height(s.dir) < bound
    decreases bound, 0, |subs|
  {
    if subs == [] then []
    else
      WalkAllSubs(subs[..|subs| - 1], prefix, bound)
      + (var s := subs[|subs| - 1]; WalkAll(s.dir, prefix + s.name + "/"))
  }

  // ----- The walk lists the tree -----

  /** The files of a tree, whatever order it is walked in: those of the directory and those of its subdirectories. */
  ghost predicate InTree(d: Dir, prefix: string, m: Member)
    decreases d
  {
    || (exists f :: f in d.files && m == Member(prefix + f.name, f.content))
    || (exists s :: s in d.dirs && InTree(s.dir, prefix + s.name + "/", m))
  }

  /** What a file system guarantees: names hold no separator, and no directory lists a name twice. */
  ghost predicate WellNamed(d: Dir)
    decreases d
  {
    && (forall f :: f in d.files ==> '/' !in f.name)
    && (forall s :: s in d.dirs ==> '/' !in s.name && WellNamed(s.dir))
    && Distinct(d.files, FileName) && Distinct(d.dirs, SubName)
  }

  ghost predicate Distinct<T(!new)>(s: seq<T>, name: T -> string) {
    forall i, j :: 0 <= i < j < |s| ==> name(s[i]) != name(s[j])
  }

  function PathOf(m: Member): string { m.path }

  /** The unpruned walk lists exactly the files of the tree. */
  lemma {:induction false} WalkListsTree(d: Dir, prefix: string, m: Member)
    ensures m in WalkAll(d, prefix) <==> InTree(d, prefix, m)
    decreases d, 1, 0
  {
    var files, subs := Sort(d.files, FileName), Sort(d.dirs, SubName);
    SortOrdered(d.files, FileName);
    SortOrdered(d.dirs, SubName);
    forall s | s in subs ensures Height(s.dir) < Height(d) { SubHeight(d.dirs, s); }
    assert m in Members(files, prefix) <==> exists f :: f in d.files && m == Member(prefix + f.name, f.content) by {
      MembersOf(files, prefix, m);
    }
    SubsListTrees(d, subs, prefix, m, Height(d));
  }

  lemma MembersOf(files: seq<FileEntry>, prefix: string, m: Member)
    ensures m in Members(files, prefix) <==> exists f :: f in files && m == Member(prefix + f.name, f.content)
  {
    var members := Members(files, prefix);
    if f :| f in files && m == Member(prefix + f.name, f.content) {
      var i :| 0 <= i < |files| && files[i] == f;
      assert members[i] == m;
    }
  }

  lemma {:induction false} SubsListTrees(d: Dir, subs: seq<Sub>, prefix: string, m: Member, bound: nat)
    requires forall s :: s in subs ==> s in d.dirs && Height(s.dir) < bound
    ensures m in WalkAllSubs(subs, prefix, bound) <==> exists s :: s in subs && InTree(s.dir, prefix + s.name + "/", m)
    decreases d, 0, |subs|
  {
    if subs != [] {
      var init, s := subs[..|subs| - 1], subs[|subs| - 1];
      SubsListTrees(d, init, prefix, m, bound);
      assert s in subs && subs == init + [s];
      WalkListsTree(s.dir, prefix + s.name + "/", m);
    }
  }

  lemma {:induction false} InsertDistinct<T(!new)>(x: T, s: seq<T>, name: T -> string)
    requires Distinct(s, name) && forall y :: y in s ==> name(y) != name(x)
    ensures Distinct(Insert(x, s, name), name)
  {
    if s != [] && !NameLeq(name(x), name(s[0])) {
      InsertDistinct(x, s[1..], name);
      var rest := Insert(x, s[1..], name);
      forall i | 0 <= i < |rest| ensures name(s[0]) != name(rest[i]) {
        var j := InsertIndex(x, s[1..], name, i);
        if j > 0 { assert rest[i] == s[j]; } else { assert s[0] in s; }
      }
    } else {
      forall i | 0 <= i < |s| ensures name(s[i]) != name(x) { assert s[i] in s; }
    }
  }

  lemma {:induction false} SortDistinct<T(!new)>(s: seq<T>, name: T -> string)
    requires Distinct(s, name)
    ensures Distinct(Sort(s, name), name)
  {
    if s != [] {
      SortDistinct(s[1..], name);
      SortOrdered(s[1..], name);
      forall y | y in Sort(s[1..], name) ensures name(y) != name(s[0]) {
        var i :| 0 <= i < |s[1..]| && s[1..][i] == y;
        assert s[1 + i] == y;
      }
      InsertDistinct(s[0], Sort(s[1..], name), name);
    }
  }

  /** A path below an entry has its separator right after the entry's name, and none inside it. */
  lemma SeparatorAt(prefix: string, name: string, path: string)
    requires StartsWith(path, prefix + name + "/")
    ensures |prefix| + |name| < |path| && path[|prefix| + |name|] == '/' && path[|prefix|..|prefix| + |name|] == name
  {
    var start := prefix + name + "/";
    assert path[..|start|] == start;
    assert start[|prefix| + |name|] == '/' && start[|prefix|..|prefix| + |name|] == name;
  }

  lemma NoSeparatorInside(prefix: string, name: string, path: string, k: nat)
    requires StartsWith(path, prefix + name) && '/' !in name && k < |name|
    ensures path[|prefix| + k] != '/'
  {
    assert path[|prefix| + k] == path[..|prefix + name|][|prefix| + k] == name[k];
    assert name[k] in name;
  }

  /** Paths that pass through differently named entries of one directory differ. */
  lemma PathsPart(prefix: string, a: string, b: string, path: string)
    requires '/' !in a && '/' !in b && StartsWith(path, prefix + a + "/") && StartsWith(path, prefix + b + "/")
    ensures a == b
  {
    assert StartsWith(path, prefix + a) && StartsWith(path, prefix + b) by {
      assert path[..|prefix + a|] == path[..|prefix + a + "/"|][..|prefix + a|] == prefix + a;
      assert path[..|prefix + b|] == path[..|prefix + b + "/"|][..|prefix + b|] == prefix + b;
    }
    if |a| < |b| { NoSeparatorInside(prefix, b, path, |a|); }
    if |b| < |a| { NoSeparatorInside(prefix, a, path, |b|); }
    SeparatorAt(prefix, a, path);
    SeparatorAt(prefix, b, path);
  }

  /** A file of a directory is not a path below one of its subdirectories. */
  lemma FileIsNotBelow(prefix: string, f: string, a: string)
    requires '/' !in f
    ensures !StartsWith(prefix + f, prefix + a + "/")
  {
    if StartsWith(prefix + f, prefix + a + "/") {
      NoSeparatorInside(prefix, f, prefix + f, |a|);
      SeparatorAt(prefix, a, prefix + f);
    }
  }

  /** The unpruned walk lists no path twice. */
  lemma {:induction false} WalkListsOnce(d: Dir, prefix: string)
    requires WellNamed(d)
    ensures Distinct(WalkAll(d, prefix), PathOf)
    decreases d, 1, 0
  {
    var files, subs := Sort(d.files, FileName), Sort(d.dirs, SubName);
    SortOrdered(d.files, FileName);
    SortOrdered(d.dirs, SubName);
    SortDistinct(d.files, FileName);
    SortDistinct(d.dirs, SubName);
    forall s | s in subs ensures Height(s.dir) < Height(d) { SubHeight(d.dirs, s); }
    SubsListOnce(d, subs, prefix, Height(d));
    FilesListOnce(files, prefix);
    var own, below := Members(files, prefix), WalkAllSubs(subs, prefix, Height(d));
    forall i, j | 0 <= i < |own| && 0 <= j < |below| ensures own[i].path != below[j].path {
      var s := SubHolding(subs, prefix, Height(d), below[j]);
      assert files[i] in files;
      FileIsNotBelow(prefix, files[i].name, s.name);
    }
    DistinctConcat(own, below);
  }

  lemma FilesListOnce(files: seq<FileEntry>, prefix: string)
    requires Distinct(files, FileName)
    ensures Distinct(Members(files, prefix), PathOf)
  {
    var members := Members(files, prefix);
    forall i, j | 0 <= i < j < |members| ensures members[i].path != members[j].path {
      assert FileName(files[i]) != FileName(files[j]);
      assert members[i].path[|prefix|..] == files[i].name && members[j].path[|prefix|..] == files[j].name;
    }
  }

  lemma DistinctConcat(a: seq<Member>, b: seq<Member>)
    requires Distinct(a, PathOf) && Distinct(b, PathOf)
    requires forall i, j :: 0 <= i < |a| && 0 <= j < |b| ==> a[i].path != b[j].path
    ensures Distinct(a + b, PathOf)
  {
    var s := a + b;
    forall i, j | 0 <= i < j < |s| ensures PathOf(s[i]) != PathOf(s[j]) {
      if j < |a| { assert PathOf(a[i]) != PathOf(a[j]); }
      if i >= |a| { assert PathOf(b[i - |a|]) != PathOf(b[j - |a|]); }
    }
  }

  /** The subdirectory a listed path lies below. */
  lemma {:induction false} SubHolding(subs: seq<Sub>, prefix: string, bound: nat, m: Member) returns (s: Sub)
    requires (forall t :: t in subs ==> Height(t.dir) < bound) && m in WalkAllSubs(subs, prefix, bound)
    ensures s in subs && StartsWith(m.path, prefix + s.name + "/")
  {
    s := subs[|subs| - 1];
    if m in WalkAll(s.dir, prefix + s.name + "/") {
      WalkStaysUnder(s.dir, prefix + s.name + "/");
    } else {
      s := SubHolding(subs[..|subs| - 1], prefix, bound, m);
    }
  }

  lemma {:induction false} SubsListOnce(d: Dir, subs: seq<Sub>, prefix: string, bound: nat)
    requires forall s :: s in subs ==> s in d.dirs && Height(s.dir) < bound && '/' !in s.name && WellNamed(s.dir)
    requires Distinct(subs, SubName)
    ensures Distinct(WalkAllSubs(subs, prefix, bound), PathOf)
    decreases d, 0, |subs|
  {
    if subs != [] {
      var init, s := subs[..|subs| - 1], subs[|subs| - 1];
      assert s in subs && subs == init + [s];
      SubsListOnce(d, init, prefix, bound);
      WalkListsOnce(s.dir, prefix + s.name + "/");
      WalkStaysUnder(s.dir, prefix + s.name + "/");
      var earlier, last := WalkAllSubs(init, prefix, bound), WalkAll(s.dir, prefix + s.name + "/");
      forall i, j | 0 <= i < |earlier| && 0 <= j < |last| ensures earlier[i].path != last[j].path {
        var t := SubHolding(init, prefix, bound, earlier[i]);
        assert last[j] in last;
        NamesDiffer(init, s, t);
        if earlier[i].path == last[j].path { PathsPart(prefix, s.name, t.name, last[j].path); }
      }
      DistinctConcat(earlier, last);
    }
  }

  lemma NamesDiffer(init: seq<Sub>, s: Sub, t: Sub)
    requires Distinct(init + [s], SubName) && t in init
    ensures s.name != t.name
  {
    var i :| 0 <= i < |init| && init[i] == t;
    assert SubName((init + [s])[i]) != SubName((init + [s])[|init|]);
  }

  // ----- Pruning refines filtering -----

  predicate Kept(m: Member, excluded: seq<string>) { !MatchesPrefix(m.path, excluded) }

  function KeptOnly(members: seq<Member>, excluded: seq<string>): seq<Member> {
    Filter(members, (m: Member) => Kept(m, excluded))
  }

  lemma {:induction false} KeptFiles(files: seq<FileEntry>, prefix: string, excluded: seq<string>)
    ensures Members(Filter(files, (f: FileEntry) => !MatchesPrefix(prefix + f.name, excluded)), prefix)
         == KeptOnly(Members(files, prefix), excluded)
  {
    if files != [] {
      var init, last := files[..|files| - 1], files[|files| - 1];
      KeptFiles(init, prefix, excluded);
      assert Members(files, prefix)[..|files| - 1] == Members(init, prefix);
      var kept := Filter(init, (f: FileEntry) => !MatchesPrefix(prefix + f.name, excluded));
      assert Members(kept + [last], prefix) == Members(kept, prefix) + [Member(prefix + last.name, last.content)];
    }
  }

  ghost predicate Under(members: seq<Member>, prefix: string) {
    forall m :: m in members ==> StartsWith(m.path, prefix)
  }

  /** Every path of a walk lies under its directory. */
  lemma {:induction false} WalkStaysUnder(d: Dir, prefix: string)
    ensures Under(WalkAll(d, prefix), prefix)
    decreases Height(d), 0
  {
    var subs := Sort(d.dirs, SubName);
    SortOrdered(d.dirs, SubName);
    forall s | s in subs ensures Height(s.dir) < Height(d) { SubHeight(d.dirs, s); }
    WalkSubsStayUnder(subs, prefix, Height(d));
    var files := Members(Sort(d.files, FileName), prefix);
    forall m | m in files ensures StartsWith(m.path, prefix) { }
  }

  lemma {:induction false} WalkSubsStayUnder(subs: seq<Sub>, prefix: string, bound: nat)
    requires forall s :: s in subs ==> Height(s.dir) < bound
    ensures Under(WalkAllSubs(subs, prefix, bound), prefix)
    decreases bound, 0, |subs|
  {
    if subs != [] {
      var s := subs[|subs| - 1];
      WalkSubsStayUnder(subs[..|subs| - 1], prefix, bound);
      WalkStaysUnder(s.dir, prefix + s.name + "/");
      var below := WalkAll(s.dir, prefix + s.name + "/");
      forall m | m in below ensures StartsWith(m.path, prefix) {
        assert StartsWith(m.path, prefix + s.name + "/");
        assert m.path[..|prefix|] == (prefix + s.name + "/")[..|prefix|];
      }
    }
  }

  /** An excluded directory contributes nothing to the filtered walk. */
  lemma ExcludedSubIsEmpty(s: Sub, prefix: string, excluded: seq<string>)
    requires MatchesPrefix(prefix + s.name, excluded)
    ensures KeptOnly(WalkAll(s.dir, prefix + s.name + "/"), excluded) == []
  {
    var dir := prefix + s.name;
    var below := WalkAll(s.dir, dir + "/");
    WalkStaysUnder(s.dir, dir + "/");
    forall m | m in below ensures !Kept(m, excluded) {
      var rest := m.path[|dir| + 1..];
      assert m.path == dir + "/" + rest;
      ExclusionIsInherited(dir, rest, excluded);
    }
    FilterUniform(below, (m: Member) => Kept(m, excluded), false);
  }

  /**
   For every tree and every set of exclusions the pruned walk is the unpruned walk with excluded paths
   filtered out, in the same order.
   */
  lemma {:induction false} PrunedWalkIsFiltered(d: Dir, prefix: string, excluded: seq<string>)
    ensures Walk(d, prefix, excluded) == KeptOnly(WalkAll(d, prefix), excluded)
    decreases Height(d), 0
  {
    var p := (s: Sub) => !MatchesPrefix(prefix + s.name, excluded);
    var all := Sort(d.dirs, SubName);
    SortFilter(d.dirs, SubName, p);
    SortOrdered(d.dirs, SubName);
    FilterMembers(all, p);
    forall s | s in all ensures Height(s.dir) < Height(d) { SubHeight(d.dirs, s); }
    PrunedSubsAreFiltered(all, prefix, excluded, Height(d));
    var files := Sort(d.files, FileName);
    KeptFiles(files, prefix, excluded);
    FilterConcat(Members(files, prefix), WalkAllSubs(all, prefix, Height(d)), (m: Member) => Kept(m, excluded));
  }

  lemma {:induction false} PrunedSubsAreFiltered(subs: seq<Sub>, prefix: string, excluded: seq<string>, bound: nat)
    requires forall s :: s in subs ==> Height(s.dir) < bound
    ensures var kept := KeptSubs(subs, prefix, excluded);
            && (forall s :: s in kept ==> Height(s.dir) < bound)
            && WalkSubs(kept, prefix, excluded, bound) == KeptOnly(WalkAllSubs(subs, prefix, bound), excluded)
    decreases bound, 0, |subs|
  {
    FilterMembers(subs, (s: Sub) => !MatchesPrefix(prefix + s.name, excluded));
    if subs != [] {
      var init, s := subs[..|subs| - 1], subs[|subs| - 1];
      assert subs == init + [s];
      PrunedSubsAreFiltered(init, prefix, excluded, bound);
      OneMoreUnpruned(init, s, prefix, excluded, bound);
      var kept := KeptSubs(init, prefix, excluded);
      if MatchesPrefix(prefix + s.name, excluded) {
        ExcludedSubIsEmpty(s, prefix, excluded);
        assert KeptSubs(subs, prefix, excluded) == kept;
      } else {
        PrunedWalkIsFiltered(s.dir, prefix + s.name + "/", excluded);
        assert KeptSubs(subs, prefix, excluded) == kept + [s];
        OneMorePruned(kept, s, prefix, excluded, bound);
      }
    }
  }

  lemma OneMorePruned(init: seq<Sub>, s: Sub, prefix: string, excluded: seq<string>, bound: nat)
    requires (forall t :: t in init ==> Height(t.dir) < bound) && Height(s.dir) < bound
    ensures forall t :: t in init + [s] ==> Height(t.dir) < bound
    ensures WalkSubs(init + [s], prefix, excluded, bound)
         == WalkSubs(init, prefix, excluded, bound) + Walk(s.dir, prefix + s.name + "/", excluded)
  {
    var longer := init + [s];
    assert longer[..|longer| - 1] == init;
  }

  lemma OneMoreUnpruned(init: seq<Sub>, s: Sub, prefix: string, excluded: seq<string>, bound: nat)
    requires (forall t :: t in init ==> Height(t.dir) < bound) && Height(s.dir) < bound
    ensures forall t :: t in init + [s] ==> Height(t.dir) < bound
    ensures KeptOnly(WalkAllSubs(init + [s], prefix, bound), excluded)
         == KeptOnly(WalkAllSubs(init, prefix, bound), excluded)
          + KeptOnly(WalkAll(s.dir, prefix + s.name + "/"), excluded)
    ensures KeptSubs(init + [s], prefix, excluded)
         == KeptSubs(init, prefix, excluded) + if MatchesPrefix(prefix + s.name, excluded) then [] else [s]
  {
    var longer := init + [s];
    assert longer[..|longer| - 1] == init;
    FilterConcat(WalkAllSubs(init, prefix, bound), WalkAll(s.dir, prefix + s.name + "/"),
                 (m: Member) => Kept(m, excluded));
  }

  // ----- Archives -----

  type Archive = seq<Member>

  /** The files an archive leaves on an empty volume; a later member replaces an earlier one of the same path. */
  function Extract(a: Archive): map<string, Content> {
    if a == [] then map[] else Extract(a[..|a| - 1])[a[|a| - 1].path := a[|a| - 1].content]
  }

  /** The volume holds this file. */
  predicate Has(files: map<string, Content>, m: Member) { m.path in files && files[m.path] == m.content }

  lemma DistinctInit(a: Archive)
    requires Distinct(a, PathOf) && a != []
    ensures Distinct(a[..|a| - 1], PathOf)
    ensures forall m :: m in a[..|a| - 1] ==> m.path != a[|a| - 1].path
  {
    var init := a[..|a| - 1];
    forall m | m in init ensures m.path != a[|a| - 1].path {
      var i :| 0 <= i < |init| && init[i] == m;
      assert PathOf(a[i]) != PathOf(a[|a| - 1]);
    }
  }

  /** An archive without repeated paths leaves exactly its members. */
  lemma {:induction false} ExtractHas(a: Archive, m: Member)
    requires Distinct(a, PathOf)
    ensures Has(Extract(a), m) <==> m in a
  {
    if a != [] {
      var init, last := a[..|a| - 1], a[|a| - 1];
      DistinctInit(a);
      ExtractHas(init, m);
      assert m in a <==> m in init || m == last;
      if m.path != last.path {
        assert Has(Extract(a), m) <==> Has(Extract(init), m);
      }
    }
  }

  lemma {:induction false} FilterStaysDistinct(a: Archive, p: Member -> bool)
    requires Distinct(a, PathOf)
    ensures Distinct(Filter(a, p), PathOf)
  {
    if a != [] {
      var init, last := a[..|a| - 1], a[|a| - 1];
      FilterStaysDistinct(init, p);
      var kept := Filter(init, p);
      forall i | 0 <= i < |kept| ensures PathOf(kept[i]) != PathOf(last) {
        var j := FilterIndex(init, p, i);
        assert PathOf(a[j]) != PathOf(a[|a| - 1]);
      }
    }
  }

  /** Archives every kept file the safety filter accepts, counting both kinds. */
  method Capture(d: Dir, runtime: Runtime, safe: Member -> bool)
    returns (archive: Archive, fileCount: nat, skipped: nat)
    ensures archive == Filter(KeptOnly(WalkAll(d, ""), ExcludedBy(runtime)), safe)
    ensures fileCount == |archive| && fileCount + skipped == |KeptOnly(WalkAll(d, ""), ExcludedBy(runtime))|
  {
    PrunedWalkIsFiltered(d, "", ExcludedBy(runtime));
    var members := Walk(d, "", ExcludedBy(runtime));
    archive, fileCount, skipped := [], 0, 0;
    for i := 0 to |members|
      invariant archive == Filter(members[..i], safe) && fileCount == |archive| && fileCount + skipped == i
    {
      FilterSnoc(members, i, safe);
      if !safe(members[i]) {
        skipped := skipped + 1;
      } else {
        archive, fileCount := archive + [members[i]], fileCount + 1;
      }
    }
    assert members[..|members|] == members;
  }

  predicate IsSeparator(c: char) { c == '/' || c == '\\' }

  /** Absolute for POSIX or for Windows: a leading slash, two leading separators, or a drive with a separator. */
  predicate Rooted(path: string) {
    || (|path| >= 1 && path[0] == '/')
    || (|path| >= 2 && IsSeparator(path[0]) && IsSeparator(path[1]))
    || (|path| >= 3 && path[1] == ':' && IsSeparator(path[2]))
  }

  lemma RootedExamples()
    ensures Rooted("/") && Rooted("/etc/passwd") && Rooted("//") && Rooted("\\\\") && Rooted("\\/share")
            && Rooted("/\\")
    ensures Rooted("C:/") && Rooted("C:\\notes") && Rooted("::/")
    ensures !Rooted("") && !Rooted("\\") && !Rooted("\\notes") && !Rooted("C") && !Rooted("C:") && !Rooted("C:notes")
    ensures !Rooted("CC/") && !Rooted("C/:") && !Rooted("a/b") && !Rooted("a\\b") && !Rooted(":") && !Rooted("a//")
  {
  }

  /** Validation asks more of a member than capture does: its path must not read as absolute. */
  ghost predicate Accepted(archive: Archive, safe: Member -> bool) {
    forall m :: m in archive ==> safe(m) && !Rooted(m.path)
  }

  class Volume {
    var files: map<string, Content>

    /** Validates the whole archive before touching anything, then wipes and extracts. */
    method ApplyArchive(archive: Archive, safe: Member -> bool) returns (ok: bool)
      modifies this
      ensures ok <==> Accepted(archive, safe)
      ensures files == if ok then Extract(archive) else old(files)
    {
      for i := 0 to |archive|
        invariant forall j :: 0 <= j < i ==> safe(archive[j]) && !Rooted(archive[j].path)
        invariant files == old(files)
      {
        if Rooted(archive[i].path) || !safe(archive[i]) { return false; }
      }
      files := map[];
      for i := 0 to |archive|
        invariant files == Extract(archive[..i])
      {
        assert archive[..i + 1][..i] == archive[..i];
        files := files[archive[i].path := archive[i].content];
      }
      assert archive[..|archive|] == archive;
      ok := true;
    }
  }

  /** What a capture of the tree archives. */
  function Captured(d: Dir, runtime: Runtime, safe: Member -> bool): Archive {
    Filter(KeptOnly(WalkAll(d, ""), ExcludedBy(runtime)), safe)
  }

  /** The files of a tree a capture is meant to keep. */
  ghost predicate Worth(d: Dir, runtime: Runtime, safe: Member -> bool, m: Member) {
    InTree(d, "", m) && !MatchesPrefix(m.path, ExcludedBy(runtime)) && safe(m)
  }

  lemma CapturedHolds(d: Dir, runtime: Runtime, safe: Member -> bool, m: Member)
    ensures m in Captured(d, runtime, safe) <==> Worth(d, runtime, safe, m)
  {
    var all := WalkAll(d, "");
    WalkListsTree(d, "", m);
    FilterMembers(all, (x: Member) => Kept(x, ExcludedBy(runtime)));
    FilterMembers(KeptOnly(all, ExcludedBy(runtime)), safe);
  }

  /** Where a captured archive is accepted, extracting it yields exactly the files the capture was meant to keep. */
  lemma ApplyYieldsCaptured(d: Dir, runtime: Runtime, safe: Member -> bool)
    requires WellNamed(d)
    ensures Accepted(Captured(d, runtime, safe), safe) <==>
              forall m :: Worth(d, runtime, safe, m) ==> !Rooted(m.path)
    ensures forall m :: Has(Extract(Captured(d, runtime, safe)), m) <==> Worth(d, runtime, safe, m)
  {
    var all := WalkAll(d, "");
    var archive := Captured(d, runtime, safe);
    WalkListsOnce(d, "");
    FilterStaysDistinct(all, (x: Member) => Kept(x, ExcludedBy(runtime)));
    FilterStaysDistinct(KeptOnly(all, ExcludedBy(runtime)), safe);
    forall m ensures m in archive <==> Worth(d, runtime, safe, m) { CapturedHolds(d, runtime, safe, m); }
    forall m ensures Has(Extract(archive), m) <==> m in archive { ExtractHas(archive, m); }
  }

  /** A directory holding one subdirectory with one file. */
  function OneFile(dir: string, file: string, content: Content): Dir {
    Dir([], [Sub(dir, Dir([FileEntry(file, content)], []))])
  }

  lemma OneFileIsThere(dir: string, file: string, content: Content)
    requires '/' !in dir && '/' !in file
    ensures WellNamed(OneFile(dir, file, content))
    ensures InTree(OneFile(dir, file, content), "", Member(dir + "/" + file, content))
  {
    var inner := Dir([FileEntry(file, content)], []);
    var d := OneFile(dir, file, content);
    assert FileEntry(file, content) in inner.files;
    assert InTree(inner, "" + dir + "/", Member("" + dir + "/" + file, content));
    assert Sub(dir, inner) in d.dirs && "" + dir == dir;
    assert WellNamed(inner);
  }

  lemma SharesFirst(path: string, prefix: string)
    requires prefix != ""
    ensures path == prefix || StartsWith(path, prefix + "/") ==> path != "" && path[0] == prefix[0]
  {
    if StartsWith(path, prefix + "/") { assert path[..|prefix + "/"|][0] == (prefix + "/")[0]; }
  }

  lemma NoneStartsWithC()
    ensures forall p :: p in HERMES_EXCLUDED || p in OPENCLAW_EXCLUDED ==> p != "" && p[0] != 'C'
  {
  }

  lemma NothingExcludedUnder(path: string, runtime: Runtime)
    requires path != "" && path[0] == 'C'
    ensures !MatchesPrefix(path, ExcludedBy(runtime))
  {
    NoneStartsWithC();
    forall p | p in ExcludedBy(runtime) ensures !(path == p || StartsWith(path, p + "/")) { SharesFirst(path, p); }
  }

  /** A captured archive that is refused: the path of an ordinary file reads as an absolute Windows path. */
  lemma RootedCaptureExample(runtime: Runtime, content: Content)
    ensures var d, m := OneFile("C:", "notes.txt", content), Member("C:" + "/" + "notes.txt", content);
            && WellNamed(d) && Worth(d, runtime, x => true, m) && Rooted(m.path)
            && !Accepted(Captured(d, runtime, x => true), x => true)
  {
    var d, m := OneFile("C:", "notes.txt", content), Member("C:" + "/" + "notes.txt", content);
    OneFileIsThere("C:", "notes.txt", content);
    NothingExcludedUnder(m.path, runtime);
    CapturedHolds(d, runtime, x => true, m);
  }

  /** The volume holds exactly the files of the tree. */
  ghost predicate Holds(files: map<string, Content>, d: Dir) {
    forall m :: Has(files, m) <==> InTree(d, "", m)
  }

  /**
   Restores an archive over a volume, after backing it up, and then undoes that with the backup. A refused
   archive changes nothing. The backup is accepted exactly when no file worth keeping has a path that reads
   as absolute; the undo then brings back exactly the files the volume held before, less excluded ones and
   those the safety filter skipped.
   */
  method RestoreAndUndo(volume: Volume, target: Dir, archive: Archive, runtime: Runtime, safe: Member -> bool)
    returns (restored: bool, undone: bool, ghost between: map<string, Content>)
    requires WellNamed(target) && Holds(volume.files, target)
    modifies volume
    ensures restored <==> Accepted(archive, safe)
    ensures between == if restored then Extract(archive) else old(volume.files)
    ensures undone <==>
              forall m :: Has(old(volume.files), m) && !MatchesPrefix(m.path, ExcludedBy(runtime)) && safe(m) ==>
                            !Rooted(m.path)
    ensures !undone ==> volume.files == between
    ensures undone ==>
              forall m :: Has(volume.files, m) <==>
                            Has(old(volume.files), m) && !MatchesPrefix(m.path, ExcludedBy(runtime)) && safe(m)
  {
    ghost var before := volume.files;
    var backup, _, _ := Capture(target, runtime, safe);
    restored := volume.ApplyArchive(archive, safe);
    between := volume.files;
    ApplyYieldsCaptured(target, runtime, safe);
    forall m
      ensures Worth(target, runtime, safe, m) <==>
                Has(before, m) && !MatchesPrefix(m.path, ExcludedBy(runtime)) && safe(m)
    { }
    undone := volume.ApplyArchive(backup, safe);
  }
}
