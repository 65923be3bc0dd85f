/** Majorities of finite sets. */
module Quorum {

  /** More than half of the members of a set. */
  ghost predicate Majority(q: set<nat>, s: set<nat>) {
    q <= s && 2 * |q| > |s|
  }

  lemma SubsetSize(a: set<nat>, b: set<nat>)
    requires a <= b
    ensures |a| <= |b|
  {
    assert b == a + (b - a);
    assert |b| == |a| + |b - a|;
  }

  lemma DisjointSizes(a: set<nat>, b: set<nat>, u: set<nat>)
    requires a <= u && b <= u && a !! b
    ensures |a| + |b| <= |u|
  {
    assert |a + b| == |a| + |b|;
    SubsetSize(a + b, u);
  }

  /** The two sets differ by at most one member. */
  ghost predicate OneApart(a: set<nat>, b: set<nat>) {
    a == b || (exists x :: b == a + {x}) || (exists x :: a == b + {x})
  }

  /** Any majority of one set meets any majority of a set that differs by one member. */
  lemma MajoritiesMeet(a: set<nat>, b: set<nat>, p: set<nat>, q: set<nat>)
    requires OneApart(a, b) && Majority(p, a) && Majority(q, b)
    ensures p * q != {}
  {
    UnionSize(a, b);
    if p * q == {} {
      assert forall x :: x in p && x in q ==> x in p * q;
      DisjointSizes(p, q, a + b);
      assert false;
    }
  }

  lemma UnionSize(a: set<nat>, b: set<nat>)
    requires OneApart(a, b)
    ensures 2 * |a + b| <= |a| + |b| + 1
  {
    if a == b {
      assert a + b == a;
    } else if x :| b == a + {x} {
      assert a + b == b && |b| <= |a| + 1;
    } else {
      var x :| a == b + {x};
      assert a + b == a && |a| <= |b| + 1;
    }
  }

  // Two changes.

  /** The members that are in one set only. */
  function Diff(a: set<nat>, b: set<nat>): set<nat> {
    (a - b) + (b - a)
  }

  ghost predicate Lone(s: set<nat>) {
    forall x, y :: x in s && y in s ==> x == y
  }

  lemma LoneDiff(a: set<nat>, b: set<nat>)
    ensures OneApart(a, b) <==> Lone(Diff(a, b))
  {
    var d := Diff(a, b);
    if Lone(d) && d != {} {
      var x :| x in d;
      assert forall z :: z in d ==> z == x;
      if x in b {
        assert b == a + {x};
      } else {
        assert a == b + {x};
      }
    } else if d == {} {
      assert a == b;
    }
  }

  /** Two sets that are each one apart from a third are one apart exactly when they differ
    * from it in the same member, or one of them not at all. */
  lemma ApartThrough(c: set<nat>, a: set<nat>, b: set<nat>)
    requires OneApart(c, a) && OneApart(c, b)
    ensures OneApart(a, b) <==> Lone(Diff(c, a) + Diff(c, b))
  {
    hide OneApart;
    LoneDiff(c, a);
    LoneDiff(c, b);
    LoneDiff(a, b);
    var x, y := Diff(c, a), Diff(c, b);
    assert Diff(a, b) == (x - y) + (y - x);
    hide Diff;
    LoneUnion(x, y);
  }

  lemma LoneUnion(x: set<nat>, y: set<nat>)
    requires Lone(x) && Lone(y)
    ensures Lone((x - y) + (y - x)) <==> Lone(x + y)
  {
    var w := (x - y) + (y - x);
    if Lone(w) {
      forall u, v | u in x + y && v in x + y ensures u == v {
        assert u in w || (u in x && u in y);
        assert v in w || (v in x && v in y);
      }
    }
  }
}
