/** Paths in a graph given by its successor lists. */
module Reachability {
  ghost predicate IsPath<T(!new)>(next: T -> seq<T>, p: seq<T>) {
    |p| > 0 && forall i :: 0 <= i < |p| - 1 ==> p[i + 1] in next(p[i])
  }

  // `b` follows from `a` in zero or more steps.
  ghost predicate Reaches<T(!new)>(next: T -> seq<T>, a: T, b: T) {
    exists p :: IsPath(next, p) && p[0] == a && p[|p| - 1] == b
  }

  // `b` follows from `a` in one or more steps.
  ghost predicate Descends<T(!new)>(next: T -> seq<T>, a: T, b: T) {
    exists c :: c in next(a) && Reaches(next, c, b)
  }

  ghost predicate Closed<T(!new)>(next: T -> seq<T>, s: set<T>) {
    forall x, y :: x in s && y in next(x) ==> y in s
  }

  lemma ReachesSelf<T(!new)>(next: T -> seq<T>, a: T)
    ensures Reaches(next, a, a)
  {
    assert IsPath(next, [a]);
  }

  lemma ReachesTransitive<T(!new)>(next: T -> seq<T>, a: T, b: T, c: T)
    requires Reaches(next, a, b) && Reaches(next, b, c)
    ensures Reaches(next, a, c)
  {
    var p :| IsPath(next, p) && p[0] == a && p[|p| - 1] == b;
    var q :| IsPath(next, q) && q[0] == b && q[|q| - 1] == c;
    var r := p + q[1..];
    assert forall i :: 0 <= i < |r| - 1 ==> r[i + 1] in next(r[i]) by {
      forall i | 0 <= i < |r| - 1 ensures r[i + 1] in next(r[i]) {
        if i >= |p| - 1 {
          assert r[i] == q[i - (|p| - 1)] && r[i + 1] == q[i - (|p| - 1) + 1];
        }
      }
    }
    assert IsPath(next, r);
  }

  lemma StepReaches<T(!new)>(next: T -> seq<T>, a: T, b: T)
    requires b in next(a)
    ensures Reaches(next, a, b) && Descends(next, a, b)
  {
    ReachesSelf(next, b);
    assert IsPath(next, [a, b]);
  }

  lemma ReachesCases<T(!new)>(next: T -> seq<T>, a: T, b: T)
    ensures Reaches(next, a, b) <==> a == b || Descends(next, a, b)
  {
    if Reaches(next, a, b) && a != b {
      var p :| IsPath(next, p) && p[0] == a && p[|p| - 1] == b;
      assert IsPath(next, p[1..]);
      assert p[1] in next(a) && Reaches(next, p[1], b);
    }
    if a == b {
      ReachesSelf(next, a);
    }
    if Descends(next, a, b) {
      var c :| c in next(a) && Reaches(next, c, b);
      StepReaches(next, a, c);
      ReachesTransitive(next, a, c, b);
    }
  }

  lemma DescendsThenReaches<T(!new)>(next: T -> seq<T>, a: T, b: T, c: T)
    requires Descends(next, a, b) && Reaches(next, b, c)
    ensures Descends(next, a, c)
  {
    var d :| d in next(a) && Reaches(next, d, b);
    ReachesTransitive(next, d, b, c);
  }

  lemma ReachesThenDescends<T(!new)>(next: T -> seq<T>, a: T, b: T, c: T)
    requires Reaches(next, a, b) && Descends(next, b, c)
    ensures Descends(next, a, c)
  {
    ReachesCases(next, a, b);
    if a != b {
      ReachesCases(next, b, c);
      DescendsThenReaches(next, a, b, c);
    }
  }

  lemma DescendsTransitive<T(!new)>(next: T -> seq<T>, a: T, b: T, c: T)
    requires Descends(next, a, b) && Descends(next, b, c)
    ensures Descends(next, a, c)
  {
    ReachesCases(next, b, c);
    DescendsThenReaches(next, a, b, c);
  }

  // A closed set keeps everything reachable from its members.
  lemma ClosedKeepsReachable<T(!new)>(next: T -> seq<T>, s: set<T>, a: T, b: T)
    requires Closed(next, s) && a in s && Reaches(next, a, b)
    ensures b in s
  {
    var p :| IsPath(next, p) && p[0] == a && p[|p| - 1] == b;
    var i := 0;
    while i < |p| - 1
      invariant 0 <= i < |p| && p[i] in s
    {
      assert p[i + 1] in next(p[i]);
      i := i + 1;
    }
  }
}
