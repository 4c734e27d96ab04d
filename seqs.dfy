/** Linear searches over sequences, the shape of Python's `filter(...)[0]`
    and of a `for ... break` scan. */
module Seqs {

  /** The index of the first element satisfying `p`, or `|s|` when none does. */
  function FirstWhere<T>(s: seq<T>, p: T -> bool): (i: nat)
    ensures i <= |s|
    ensures i < |s| ==> p(s[i])
    ensures forall j :: 0 <= j < i ==> !p(s[j])
  {
    if s == [] then 0
    else if p(s[0]) then 0
    else 1 + FirstWhere(s[1..], p)
  }

  /** The first match lies at or before any element that satisfies `p`. */
  lemma FirstWhereAtMost<T>(s: seq<T>, p: T -> bool, k: nat)
    requires k < |s| && p(s[k])
    ensures FirstWhere(s, p) <= k
  {
  }

  /** The first match in `s + t` is the first in `s`, or else the first in `t`. */
  lemma {:induction false} FirstWhereConcat<T>(s: seq<T>, t: seq<T>, p: T -> bool)
    ensures FirstWhere(s + t, p) == if FirstWhere(s, p) < |s| then FirstWhere(s, p) else |s| + FirstWhere(t, p)
    decreases |s|
  {
    if s == [] {
      assert s + t == t;
    } else {
      assert (s + t)[1..] == s[1..] + t;
      FirstWhereConcat(s[1..], t, p);
    }
  }

  /** `map(f, s)`. */
  function Map<T, U>(s: seq<T>, f: T -> U): (r: seq<U>)
    ensures |r| == |s|
    ensures forall i :: 0 <= i < |s| ==> r[i] == f(s[i])
  {
    seq(|s|, i requires 0 <= i < |s| => f(s[i]))
  }

  lemma MapConcat<T, U>(a: seq<T>, b: seq<T>, f: T -> U)
    ensures Map(a + b, f) == Map(a, f) + Map(b, f)
  {
  }

  /** Removing the element at `k` removes one occurrence of it. */
  lemma RemoveAt<T>(s: seq<T>, k: nat)
    requires k < |s|
    ensures s == s[..k] + [s[k]] + s[k + 1..]
    ensures multiset(s[..k] + s[k + 1..]) == multiset(s) - multiset{s[k]}
  {
    assert s == s[..k] + [s[k]] + s[k + 1..];
  }

  lemma MapMiddle<T, U>(a: seq<T>, x: T, b: seq<T>, f: T -> U)
    ensures multiset(Map(a + [x] + b, f)) == multiset{f(x)} + multiset(Map(a + b, f))
  {
    MapConcat(a, [x], f);
    MapConcat(a + [x], b, f);
    MapConcat(a, b, f);
    assert Map([x], f) == [f(x)];
  }

  /** Mapping two permutations of each other gives two permutations of each other. */
  lemma {:induction false} MapPermutation<T, U>(s1: seq<T>, s2: seq<T>, f: T -> U)
    requires multiset(s1) == multiset(s2)
    ensures multiset(Map(s1, f)) == multiset(Map(s2, f))
    decreases |s1|
  {
    if s1 == [] {
      assert |s2| == |multiset(s2)| == 0;
    } else {
      var x := s1[0];
      assert x in multiset(s2);
      var k :| 0 <= k < |s2| && s2[k] == x;
      var a, b := s2[..k], s2[k + 1..];
      RemoveAt(s2, k);
      RemoveAt(s1, 0);
      assert s1[..0] + s1[1..] == s1[1..];
      MapPermutation(s1[1..], a + b, f);
      MapMiddle(s1[..0], x, s1[1..], f);
      MapMiddle(a, x, b, f);
    }
  }
}
