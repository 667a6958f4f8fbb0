/** What every worklist closure keeps between two pops. */
module Worklists {
  import opened Basics
  import opened Reachability

  ghost predicate From<T(!new)>(next: T -> seq<T>, roots: seq<T>, x: T) {
    exists r :: r in roots && Reaches(next, r, x)
  }

  // `reach` is the set of everything reachable from the roots.
  ghost predicate IsReach<T(!new)>(next: T -> seq<T>, roots: seq<T>, reach: set<T>) {
    forall x :: x in reach <==> From(next, roots, x)
  }

  ghost predicate Saturated<T>(next: T -> seq<T>, s: set<T>, up: set<T>) {
    forall x :: x in s ==> Elements(next(x)) <= up
  }

  // A finite closed set around the roots holds the reachable set.
  lemma FindReach<T(!new)>(next: T -> seq<T>, roots: seq<T>, universe: set<T>) returns (reach: set<T>)
    requires Elements(roots) <= universe && Saturated(next, universe, universe)
    ensures IsReach(next, roots, reach) && Elements(roots) <= reach && Saturated(next, reach, reach)
  {
    reach := set x | x in universe && From(next, roots, x);
    forall x, y | x in universe && y in next(x) ensures y in universe {
      assert y in Elements(next(x));
    }
    forall x | From(next, roots, x) ensures x in universe {
      var r :| r in roots && Reaches(next, r, x);
      assert r in Elements(roots);
      ClosedKeepsReachable(next, universe, r, x);
    }
    forall r | r in roots ensures From(next, roots, r) {
      ReachesSelf(next, r);
    }
    forall x, y | x in reach && y in next(x) ensures y in reach {
      var r :| r in roots && Reaches(next, r, x);
      StepReaches(next, x, y);
      ReachesTransitive(next, r, x, y);
    }
  }

  // Pending and collected items are reachable, and whatever a collected item leads to
  // is collected or pending.
  ghost predicate Progress<T>(next: T -> seq<T>, reach: set<T>, roots: seq<T>, pending: seq<T>, done: set<T>) {
    && Saturated(next, reach, reach)
    && Elements(pending) <= reach && done <= reach
    && Saturated(next, done, done + Elements(pending))
    && Elements(roots) <= done + Elements(pending)
  }

  function Remove<T>(s: seq<T>, i: nat): seq<T>
    requires i < |s|
  {
    s[..i] + s[i + 1..]
  }

  lemma RemoveElements<T>(s: seq<T>, i: nat)
    requires i < |s|
    ensures Elements(s) == Elements(Remove(s, i)) + {s[i]}
    ensures i == |s| - 1 ==> Remove(s, i) == s[..|s| - 1]
  {
    assert s == s[..i] + [s[i]] + s[i + 1..];
  }

  lemma PopKnown<T>(next: T -> seq<T>, reach: set<T>, roots: seq<T>, pending: seq<T>, done: set<T>, i: nat)
    requires Progress(next, reach, roots, pending, done) && i < |pending| && pending[i] in done
    ensures Progress(next, reach, roots, Remove(pending, i), done)
  {
    RemoveElements(pending, i);
    assert done + Elements(Remove(pending, i)) == done + Elements(pending);
  }

  lemma PopNew<T>(next: T -> seq<T>, reach: set<T>, roots: seq<T>, pending: seq<T>, done: set<T>, i: nat)
    requires Progress(next, reach, roots, pending, done) && i < |pending| && pending[i] !in done
    ensures pending[i] in reach
    ensures Progress(next, reach, roots, Remove(pending, i) + next(pending[i]), done + {pending[i]})
  {
    RemoveElements(pending, i);
    var later := Remove(pending, i) + next(pending[i]);
    assert Elements(later) == Elements(Remove(pending, i)) + Elements(next(pending[i]));
    assert done + {pending[i]} + Elements(later) == done + Elements(pending) + Elements(next(pending[i]));
  }

  lemma Finished<T(!new)>(next: T -> seq<T>, reach: set<T>, roots: seq<T>, done: set<T>)
    requires IsReach(next, roots, reach) && Progress(next, reach, roots, [], done)
    ensures done == reach
  {
    forall x, y | x in done && y in next(x) ensures y in done {
      assert y in Elements(next(x));
    }
    forall x | x in reach ensures x in done {
      var r :| r in roots && Reaches(next, r, x);
      assert r in Elements(roots);
      ClosedKeepsReachable(next, done, r, x);
    }
  }
}
