// Sums over finite sets, and the cardinality facts the counting proofs rest on.
module Sums {

  ghost function SumOver<K(!new)>(ks: set<K>, f: K -> nat): nat {
    if ks == {} then 0
    else
      var k :| k in ks;
      f(k) + SumOver(ks - {k}, f)
  }

  // The sum does not depend on the order in which the keys are picked.
  lemma {:induction false} SumRemove<K(!new)>(ks: set<K>, f: K -> nat, k: K)
    requires k in ks
    ensures SumOver(ks, f) == f(k) + SumOver(ks - {k}, f)
    decreases |ks|
  {
    var c :| c in ks && SumOver(ks, f) == f(c) + SumOver(ks - {c}, f);
    if c != k {
      SumRemove(ks - {c}, f, k);
      SumRemove(ks - {k}, f, c);
      assert ks - {c} - {k} == ks - {k} - {c};
    }
  }

  lemma {:induction false} SumMonotone<K(!new)>(ks: set<K>, f: K -> nat, g: K -> nat)
    requires forall k :: k in ks ==> f(k) <= g(k)
    ensures SumOver(ks, f) <= SumOver(ks, g)
    decreases |ks|
  {
    if ks != {} {
      var k :| k in ks;
      SumMonotone(ks - {k}, f, g);
      SumRemove(ks, f, k);
      SumRemove(ks, g, k);
    }
  }

  lemma SumSame<K(!new)>(ks: set<K>, f: K -> nat, g: K -> nat)
    requires forall k :: k in ks ==> f(k) == g(k)
    ensures SumOver(ks, f) == SumOver(ks, g)
  {
    SumMonotone(ks, f, g);
    SumMonotone(ks, g, f);
  }

  // Keys at which the smaller function is zero need not be there.
  lemma {:induction false} SumWider<K(!new)>(ks: set<K>, wider: set<K>, f: K -> nat, g: K -> nat)
    requires forall k :: k in ks ==> f(k) == 0 || (k in wider && f(k) <= g(k))
    ensures SumOver(ks, f) <= SumOver(wider, g)
    decreases |ks|
  {
    if ks != {} {
      var k :| k in ks;
      SumRemove(ks, f, k);
      if k in wider { SumRemove(wider, g, k); }
      SumWider(ks - {k}, wider - {k}, f, g);
      if k !in wider { assert wider - {k} == wider; }
    }
  }

  lemma {:induction false} SumAdd<K(!new)>(ks: set<K>, f: K -> nat, g: K -> nat, h: K -> nat)
    requires forall k :: k in ks ==> h(k) == f(k) + g(k)
    ensures SumOver(ks, h) == SumOver(ks, f) + SumOver(ks, g)
    decreases |ks|
  {
    if ks != {} {
      var k :| k in ks;
      SumAdd(ks - {k}, f, g, h);
      SumRemove(ks, f, k);
      SumRemove(ks, g, k);
      SumRemove(ks, h, k);
    }
  }

  lemma OneMore(n: nat, bound: nat)
    ensures (n + 1) * bound == n * bound + bound
  {
  }

  // A function that is at most `bound` on `some` and zero elsewhere.
  lemma {:induction false} SumBounded<K(!new)>(ks: set<K>, some: set<K>, f: K -> nat, bound: nat)
    requires some <= ks
    requires forall k :: k in some ==> f(k) <= bound
    requires forall k :: k in ks - some ==> f(k) == 0
    ensures SumOver(ks, f) <= |some| * bound
    decreases |ks|
  {
    if ks != {} {
      var k :| k in ks;
      var rest := some - {k};
      assert rest <= ks - {k};
      SumBounded(ks - {k}, rest, f, bound);
      SumRemove(ks, f, k);
      if k in some {
        assert |some| == |rest| + 1;
        OneMore(|rest|, bound);
      } else {
        assert rest == some;
      }
    }
  }

  lemma SubsetSize<T>(a: set<T>, b: set<T>)
    requires a <= b
    ensures |a| <= |b|
  {
    assert b == a + (b - a);
  }

  // Disjoint parts of u have sizes that add up to at most |u| ...
  lemma {:induction false} SumOfParts<K(!new), T>(ks: set<K>, part: map<K, set<T>>, size: K -> nat, u: set<T>)
    requires ks <= part.Keys
    requires forall k :: k in ks ==> part[k] <= u && size(k) == |part[k]|
    requires forall k, l :: k in ks && l in ks && k != l ==> part[k] !! part[l]
    ensures SumOver(ks, size) <= |u|
    decreases |ks|
  {
    if ks != {} {
      var k :| k in ks;
      SumOfParts(ks - {k}, part, size, u - part[k]);
      SumRemove(ks, size, k);
      assert u == part[k] + (u - part[k]);
    }
  }

  // ... and parts that cover u have sizes that add up to at least |u|.
  lemma {:induction false} SumOfCover<K(!new), T>(ks: set<K>, part: map<K, set<T>>, size: K -> nat, u: set<T>)
    requires ks <= part.Keys
    requires forall k :: k in ks ==> size(k) >= |part[k]|
    requires forall t :: t in u ==> exists k :: k in ks && t in part[k]
    ensures |u| <= SumOver(ks, size)
    decreases |ks|
  {
    if ks != {} {
      var k :| k in ks;
      SumOfCover(ks - {k}, part, size, u - part[k]);
      SumRemove(ks, size, k);
      SubsetSize(u, part[k] + (u - part[k]));
    } else {
      assert u == {};
    }
  }
}
