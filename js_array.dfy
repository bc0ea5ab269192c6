/** `Array.prototype.find` and `Array.prototype.filter`, which the services use on query results. */
module JsArray {
  import opened Wrappers

  /** Index of the first element satisfying `p`, scanning from `from`. */
  function FirstIndexFrom<T>(s: seq<T>, p: T -> bool, from: nat): (r: Option<nat>)
    requires from <= |s|
    ensures r.Some? ==> from <= r.value < |s| && p(s[r.value])
    ensures r.Some? ==> forall j | from <= j < r.value :: !p(s[j])
    ensures r.None? ==> forall j | from <= j < |s| :: !p(s[j])
    decreases |s| - from
  {
    if from == |s| then None
    else if p(s[from]) then Some(from)
    else FirstIndexFrom(s, p, from + 1)
  }

  /** `s.find(p)`: the first element satisfying `p`, or undefined. */
  function Find<T>(s: seq<T>, p: T -> bool): (r: Option<T>)
    ensures r.Some? ==> exists i | 0 <= i < |s| :: s[i] == r.value && p(s[i]) && forall j | 0 <= j < i :: !p(s[j])
    ensures r.None? <==> forall j | 0 <= j < |s| :: !p(s[j])
  {
    var i := FirstIndexFrom(s, p, 0);
    if i.Some? then Some(s[i.value]) else None
  }

  /** Two predicates that agree on every element of `s` pick the same first element. */
  lemma {:induction false} FirstIndexFromAgrees<T>(s: seq<T>, p: T -> bool, q: T -> bool, from: nat)
    requires from <= |s|
    requires forall x | x in s :: p(x) == q(x)
    ensures FirstIndexFrom(s, p, from) == FirstIndexFrom(s, q, from)
    decreases |s| - from
  {
    if from < |s| {
      assert s[from] in s;
      FirstIndexFromAgrees(s, p, q, from + 1);
    }
  }

  lemma FindAgrees<T>(s: seq<T>, p: T -> bool, q: T -> bool)
    requires forall x | x in s :: p(x) == q(x)
    ensures Find(s, p) == Find(s, q)
  {
    FirstIndexFromAgrees(s, p, q, 0);
  }

  /** `s.filter(p)`: the elements satisfying `p`, in their original order. */
  function Filter<T>(s: seq<T>, p: T -> bool): (r: seq<T>)
    ensures |r| <= |s|
    ensures forall x | x in r :: x in s && p(x)
    ensures forall x | x in s && p(x) :: x in r
  {
    if s == [] then []
    else Filter(s[..|s| - 1], p) + (if p(s[|s| - 1]) then [s[|s| - 1]] else [])
  }

  /** `Filter` keeps each element satisfying `p` as often as it occurs in `s`, and no other. */
  lemma {:induction false} FilterCounts<T>(s: seq<T>, p: T -> bool)
    ensures forall x | x in s :: multiset(Filter(s, p))[x] == if p(x) then multiset(s)[x] else 0
  {
    if s != [] {
      var init, last := s[..|s| - 1], s[|s| - 1];
      assert s == init + [last];
      FilterCounts(init, p);
      forall x | x in s
        ensures multiset(Filter(s, p))[x] == if p(x) then multiset(s)[x] else 0
      {
        if x !in init {
          assert multiset(init)[x] == 0;
          assert x !in Filter(init, p);
        }
      }
    }
  }

  /**
   * Filtering distributes over concatenation, so the kept elements of a
   * prefix come before the kept elements of what follows it.
   */
  lemma {:induction false} FilterAppend<T>(a: seq<T>, b: seq<T>, p: T -> bool)
    ensures Filter(a + b, p) == Filter(a, p) + Filter(b, p)
    decreases |b|
  {
    if b == [] {
      assert a + b == a;
    } else {
      var b', last := b[..|b| - 1], b[|b| - 1];
      assert b == b' + [last];
      assert a + b == (a + b') + [last];
      FilterAppend(a, b', p);
      FilterSnoc(a + b', last, p);
      FilterSnoc(b', last, p);
      AppendAssociative(Filter(a, p), Filter(b', p), if p(last) then [last] else []);
    }
  }

  lemma AppendAssociative<T>(x: seq<T>, y: seq<T>, z: seq<T>)
    ensures (x + y) + z == x + (y + z)
  {
  }

  /** Filtering `s + [x]` appends `x` to the filtered `s` when `x` is kept. */
  lemma FilterSnoc<T>(s: seq<T>, x: T, p: T -> bool)
    ensures Filter(s + [x], p) == Filter(s, p) + if p(x) then [x] else []
  {
    assert (s + [x])[..|s|] == s;
  }
}
