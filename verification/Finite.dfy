/** Facts about scans over sequences and about the size of finite sets and maps. */
module Finite {

  /** The index a C scanning loop stops at: the first element satisfying `p`, or -1. */
  function Least<T>(s: seq<T>, p: T -> bool): (r: int)
    ensures -1 <= r < |s|
    ensures r >= 0 ==> p(s[r]) && forall i | 0 <= i < r :: !p(s[i])
    ensures r == -1 ==> forall i | 0 <= i < |s| :: !p(s[i])
  {
    if s == [] then -1
    else
      var r := Least(s[..|s| - 1], p);
      if r >= 0 then r else if p(s[|s| - 1]) then |s| - 1 else -1
  }

  ghost function Range(n: nat): (r: set<int>)
    ensures forall i :: i in r <==> 0 <= i < n
  {
    if n == 0 then {} else Range(n - 1) + {n - 1}
  }

  lemma {:induction false} RangeSize(n: nat)
    ensures |Range(n)| == n
  {
    if n > 0 {
      RangeSize(n - 1);
    }
  }

  lemma {:induction false} SubsetSize<T>(a: set<T>, b: set<T>)
    requires a <= b
    ensures |a| <= |b|
    ensures |a| == |b| ==> a == b
  {
    if a != {} {
      var x :| x in a;
      SubsetSize(a - {x}, b - {x});
    }
  }

  ghost predicate Injective<A, B>(m: map<A, B>) {
    forall x, y | x in m && y in m && m[x] == m[y] :: x == y
  }

  lemma {:induction false} InjectiveSize<A, B>(m: map<A, B>)
    requires Injective(m)
    ensures |m.Values| == |m|
    decreases |m|
  {
    if m != map[] {
      var x :| x in m;
      var rest := m - {x};
      InjectiveSize(rest);
      assert forall k | k in rest :: k in m && rest[k] == m[k];
      assert forall k | k in m :: k == x || k in rest;
      assert m.Values == rest.Values + {m[x]} by {
        forall v | v in m.Values
          ensures v in rest.Values + {m[x]}
        {
          var k :| k in m && m[k] == v;
          assert k == x || v == rest[k];
        }
      }
    }
  }

  /** A bijection from `a` onto `b`. */
  lemma BijectionSize<A, B>(m: map<A, B>, a: set<A>, b: set<B>)
    requires m.Keys == a && Injective(m)
    requires forall x | x in a :: m[x] in b
    requires forall y | y in b :: exists x :: x in a && m[x] == y
    ensures |a| == |b|
  {
    InjectiveSize(m);
    forall y | y in b
      ensures y in m.Values
    {
      var x :| x in a && m[x] == y;
    }
    assert m.Values == b;
  }
}
