/** The `Array.prototype` operations the components apply with their own
    callbacks: `filter`, `some` and a summing `reduce`. */
module ArrayOps {

  /** `r` is `s` with some elements deleted and the rest kept in their order. */
  predicate IsSublist<T(==)>(r: seq<T>, s: seq<T>)
    decreases |s|
  {
    if r == [] then true
    else if s == [] then false
    else (r[0] == s[0] && IsSublist(r[1..], s[1..])) || IsSublist(r, s[1..])
  }

  /** `s.filter(keep)` */
  function Filter<T(==)>(s: seq<T>, keep: T -> bool): (r: seq<T>)
    ensures IsSublist(r, s)
    ensures forall i | 0 <= i < |r| :: r[i] in s && keep(r[i])
    ensures forall i | 0 <= i < |s| :: keep(s[i]) ==> s[i] in r
    ensures forall x | x in s :: multiset(r)[x] == if keep(x) then multiset(s)[x] else 0
  {
    if s == [] then []
    else
      var tail := Filter(s[1..], keep);
      assert s == [s[0]] + s[1..];
      if keep(s[0]) then
        assert ([s[0]] + tail)[1..] == tail;
        [s[0]] + tail
      else
        tail
  }

  /** Filtering with a test every element passes removes nothing. */
  lemma {:induction false} FilterKeepsAll<T>(s: seq<T>, keep: T -> bool)
    requires forall i | 0 <= i < |s| :: keep(s[i])
    ensures Filter(s, keep) == s
  {
    if s != [] {
      FilterKeepsAll(s[1..], keep);
      assert [s[0]] + s[1..] == s;
    }
  }

  /** Filtering a list with a known first element. */
  lemma FilterCons<T>(x: T, t: seq<T>, keep: T -> bool)
    ensures Filter([x] + t, keep) == if keep(x) then [x] + Filter(t, keep) else Filter(t, keep)
  {
  }

  /** Three tests of which every element passes exactly one split a list:
      the three filtered lists together hold each element as often as `s`. */
  lemma {:induction false} FilterPartition<T>(s: seq<T>, p: T -> bool, q: T -> bool, r: T -> bool)
    requires forall i | 0 <= i < |s| :: (p(s[i]) || q(s[i]) || r(s[i]))
                                        && !(p(s[i]) && q(s[i])) && !(p(s[i]) && r(s[i])) && !(q(s[i]) && r(s[i]))
    ensures multiset(Filter(s, p)) + multiset(Filter(s, q)) + multiset(Filter(s, r)) == multiset(s)
  {
    if s != [] {
      var x, t := s[0], s[1..];
      assert s == [x] + t;
      FilterPartition(t, p, q, r);
      FilterCons(x, t, p);
      FilterCons(x, t, q);
      FilterCons(x, t, r);
    }
  }

  /** `s.some(p)` */
  function Any<T>(s: seq<T>, p: T -> bool): (b: bool)
    ensures b <==> exists i | 0 <= i < |s| :: p(s[i])
  {
    if s == [] then false
    else if p(s[0]) then true
    else
      var b := Any(s[1..], p);
      assert forall i | 1 <= i < |s| :: s[i] == s[1..][i - 1];
      b
  }

  /** `s.reduce((sum, x) => sum + f(x), 0)` over exact integers. */
  function Sum<T>(s: seq<T>, f: T -> nat): nat {
    if s == [] then 0 else f(s[0]) + Sum(s[1..], f)
  }

  /** A sum of terms each at most `k` is at most `k` times the count. */
  lemma {:induction false} SumBound<T>(s: seq<T>, f: T -> nat, k: nat)
    requires forall i | 0 <= i < |s| :: f(s[i]) <= k
    ensures Sum(s, f) <= k * |s|
  {
    if s != [] {
      SumBound(s[1..], f, k);
      assert k * |s| == k + k * (|s| - 1);
    }
  }
}
