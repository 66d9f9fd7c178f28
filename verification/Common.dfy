/** Small shared vocabulary: optional values and the few sequence functions several modules use. */
module Common {

  datatype Option<+T> = None | Some(value: T)

  /** The elements of `s` satisfying `p`, in order. */
  function Filter<T>(s: seq<T>, p: T -> bool): seq<T> {
    if s == [] then []
    else Filter(s[..|s| - 1], p) + (if p(s[|s| - 1]) then [s[|s| - 1]] else [])
  }

  /** The concatenation of a sequence of sequences. */
  function Flatten<T>(ss: seq<seq<T>>): seq<T> {
    if ss == [] then [] else Flatten(ss[..|ss| - 1]) + ss[|ss| - 1]
  }

  /** LIMIT and OFFSET: at most `limit` elements from `offset` on. */
  function Page<T>(s: seq<T>, offset: nat, limit: nat): seq<T> {
    if offset >= |s| then []
    else if offset + limit <= |s| then s[offset..offset + limit]
    else s[offset..]
  }

  /** A page is a slice, and one from inside the list is empty only at its end. */
  lemma PageIsSlice<T>(s: seq<T>, offset: nat, limit: nat)
    requires offset <= |s|
    ensures var page := Page(s, offset, limit);
            && offset + |page| <= |s| && page == s[offset..offset + |page|]
            && (limit > 0 ==> (page == [] <==> offset == |s|))
  {
  }

  /** The sum of `f` over a sequence. */
  function Sum<T>(s: seq<T>, f: T -> real): real {
    if s == [] then 0.0 else Sum(s[..|s| - 1], f) + f(s[|s| - 1])
  }

  lemma {:induction false} FilterConcat<T>(a: seq<T>, b: seq<T>, p: T -> bool)
    ensures Filter(a + b, p) == Filter(a, p) + Filter(b, p)
  {
    if b == [] {
      assert a + b == a;
    } else {
      var last := b[|b| - 1];
      assert (a + b)[..|a + b| - 1] == a + b[..|b| - 1];
      FilterConcat(a, b[..|b| - 1], p);
    }
  }

  lemma FilterSnoc<T>(s: seq<T>, i: nat, p: T -> bool)
    requires i < |s|
    ensures Filter(s[..i + 1], p) == Filter(s[..i], p) + if p(s[i]) then [s[i]] else []
  {
    assert s[..i + 1][..i] == s[..i];
  }

  lemma {:induction false} FilterMembers<T>(s: seq<T>, p: T -> bool)
    ensures forall x :: x in Filter(s, p) <==> x in s && p(x)
    ensures |Filter(s, p)| <= |s|
  {
    if s != [] {
      FilterMembers(s[..|s| - 1], p);
      assert s == s[..|s| - 1] + [s[|s| - 1]];
    }
  }

  lemma FilterHas<T>(s: seq<T>, p: T -> bool, x: T)
    ensures x in Filter(s, p) <==> x in s && p(x)
  {
    FilterMembers(s, p);
  }

  /** Filtering keeps everything when every element passes, and nothing when none does. */
  lemma {:induction false} FilterUniform<T>(s: seq<T>, p: T -> bool, keep: bool)
    requires forall x :: x in s ==> p(x) == keep
    ensures Filter(s, p) == if keep then s else []
  {
    if s != [] {
      var init, last := s[..|s| - 1], s[|s| - 1];
      assert last in s;
      forall x | x in init ensures p(x) == keep { assert x in s; }
      FilterUniform(init, p, keep);
      assert s == init + [last];
    }
  }

  lemma {:induction false} FilterAgree<T>(s: seq<T>, p: T -> bool, q: T -> bool)
    requires forall x :: x in s ==> p(x) == q(x)
    ensures Filter(s, p) == Filter(s, q)
  {
    if s != [] {
      FilterAgree(s[..|s| - 1], p, q);
    }
  }

  lemma FilterOne<T>(x: T, p: T -> bool)
    ensures Filter([x], p) == if p(x) then [x] else []
  {
    assert [x][..0] == [];
  }

  /** Filtering with and without one element. */
  lemma FilterAround<T>(a: seq<T>, x: T, b: seq<T>, p: T -> bool)
    ensures Filter(a + [x] + b, p) == Filter(a, p) + (if p(x) then [x] else []) + Filter(b, p)
    ensures Filter(a + b, p) == Filter(a, p) + Filter(b, p)
  {
    FilterConcat(a + [x], b, p);
    FilterConcat(a, [x], p);
    FilterConcat(a, b, p);
    FilterOne(x, p);
  }

  lemma {:induction false} SumConcat<T>(a: seq<T>, b: seq<T>, f: T -> real)
    ensures Sum(a + b, f) == Sum(a, f) + Sum(b, f)
  {
    if b == [] {
      assert a + b == a;
    } else {
      assert (a + b)[..|a + b| - 1] == a + b[..|b| - 1];
      SumConcat(a, b[..|b| - 1], f);
    }
  }

  lemma SumOne<T>(x: T, f: T -> real)
    ensures Sum([x], f) == f(x)
  {
    assert [x][..0] == [];
  }

  /** Taking one element out of a sequence takes its summand out of the sum, and one copy out of the bag. */
  lemma SumAround<T>(s: seq<T>, a: seq<T>, x: T, b: seq<T>, f: T -> real)
    requires s == a + [x] + b
    ensures Sum(s, f) == Sum(a + b, f) + f(x)
  {
    SumConcat(a + [x], b, f);
    SumConcat(a, [x], f);
    SumConcat(a, b, f);
    SumOne(x, f);
  }

  lemma BagAround<T>(s: seq<T>, a: seq<T>, x: T, b: seq<T>)
    requires s == a + [x] + b
    ensures multiset(a + b) == multiset(s) - multiset{x}
  {
    assert multiset(s) == multiset(a) + multiset{x} + multiset(b);
  }

  lemma SameBagSameSize<T>(a: seq<T>, b: seq<T>)
    requires multiset(a) == multiset(b)
    ensures |a| == |b|
  {
    assert |multiset(a)| == |a| && |multiset(b)| == |b|;
  }

  lemma Locate<T>(s: seq<T>, x: T) returns (before: seq<T>, after: seq<T>)
    requires x in multiset(s)
    ensures s == before + [x] + after
  {
    var k :| 0 <= k < |s| && s[k] == x;
    before, after := s[..k], s[k + 1..];
  }

  lemma TakeLast<T>(s: seq<T>, f: T -> real) returns (init: seq<T>, x: T)
    requires s != []
    ensures |init| == |s| - 1 && x in multiset(s)
    ensures multiset(init) == multiset(s) - multiset{x} && Sum(s, f) == Sum(init, f) + f(x)
  {
    init, x := s[..|s| - 1], s[|s| - 1];
    assert s == init + [x] + [] && init + [] == init;
    BagAround(s, init, x, []);
    assert x in s;
  }

  /** Sums do not depend on the order of the summands. */
  lemma {:induction false} SumPermutation<T>(a: seq<T>, b: seq<T>, f: T -> real)
    requires multiset(a) == multiset(b)
    ensures Sum(a, f) == Sum(b, f)
    decreases |a|
  {
    SameBagSameSize(a, b);
    if a != [] {
      var init, x := TakeLast(a, f);
      var before, after := Locate(b, x);
      SumAround(b, before, x, after, f);
      BagAround(b, before, x, after);
      SumPermutation(init, before + after, f);
    }
  }
}
