/** Code-point order on strings, and sorting, as Python's `sorted` provides them. */
module Ordering {
  import opened Basics

  predicate StringLeq(a: string, b: string) {
    a == [] || (b != [] && (a[0] < b[0] || (a[0] == b[0] && StringLeq(a[1..], b[1..]))))
  }

  predicate StringLess(a: string, b: string) {
    a != b && StringLeq(a, b)
  }

  lemma {:induction false} StringLeqTotal(a: string, b: string)
    ensures StringLeq(a, b) || StringLeq(b, a)
  {
    if a != [] && b != [] && a[0] == b[0] {
      StringLeqTotal(a[1..], b[1..]);
    }
  }

  lemma {:induction false} StringLeqAntisymmetric(a: string, b: string)
    requires StringLeq(a, b) && StringLeq(b, a)
    ensures a == b
  {
    if a != [] {
      StringLeqAntisymmetric(a[1..], b[1..]);
      assert a == [a[0]] + a[1..] && b == [b[0]] + b[1..];
    }
  }

  lemma {:induction false} StringLeqTransitive(a: string, b: string, c: string)
    requires StringLeq(a, b) && StringLeq(b, c)
    ensures StringLeq(a, c)
  {
    if a != [] && a[0] == b[0] == c[0] {
      StringLeqTransitive(a[1..], b[1..], c[1..]);
    }
  }

  // The texts agree up to `i`, where `a` ends or has the smaller character.
  ghost predicate PrecedesAt(a: string, b: string, i: nat) {
    i <= |a| && i < |b| && a[..i] == b[..i] && (i == |a| || a[i] < b[i])
  }

  // Code-point order, read off the first difference.
  ghost predicate Precedes(a: string, b: string) {
    exists i: nat :: PrecedesAt(a, b, i)
  }

  lemma {:induction false} LessPrecedes(a: string, b: string)
    ensures StringLess(a, b) <==> Precedes(a, b)
  {
    if a != [] && b != [] && a[0] == b[0] {
      LessPrecedes(a[1..], b[1..]);
      assert a == [a[0]] + a[1..] && b == [b[0]] + b[1..];
      if i: nat :| PrecedesAt(a[1..], b[1..], i) {
        assert a[..i + 1] == [a[0]] + a[1..][..i] && b[..i + 1] == [b[0]] + b[1..][..i];
        assert PrecedesAt(a, b, i + 1);
      }
      if i: nat :| PrecedesAt(a, b, i) {
        assert i > 0 && a[1..][..i - 1] == a[..i][1..] && b[1..][..i - 1] == b[..i][1..];
        assert PrecedesAt(a[1..], b[1..], i - 1);
      }
    } else if b != [] && (a == [] || a[0] < b[0]) {
      assert PrecedesAt(a, b, 0);
    } else {
      forall i: nat ensures !PrecedesAt(a, b, i) {
        if 0 < i <= |a| && i < |b| {
          assert a[..i][0] == a[0] && b[..i][0] == b[0];
        }
      }
    }
  }

  lemma LettersInOrder()
    ensures Precedes("a", "b") && !Precedes("b", "a")
  {
    assert PrecedesAt("a", "b", 0);
    assert forall i: nat :: i > 0 ==> !PrecedesAt("b", "a", i);
  }

  // Sorted by code points.
  ghost predicate InTextOrder(s: seq<string>) {
    forall i, j :: 0 <= i < j < |s| ==> s[i] == s[j] || Precedes(s[i], s[j])
  }

  lemma SortedIsInTextOrder(s: seq<string>)
    ensures SortedBy(StringLeq, s) <==> InTextOrder(s)
  {
    forall i, j | 0 <= i < j < |s|
      ensures StringLeq(s[i], s[j]) <==> s[i] == s[j] || Precedes(s[i], s[j])
    {
      LessPrecedes(s[i], s[j]);
      StringLeqTotal(s[i], s[i]);
    }
  }

  ghost predicate TotalPreorder<T(!new)>(leq: (T, T) -> bool) {
    && (forall x, y :: leq(x, y) || leq(y, x))
    && (forall x, y, z :: leq(x, y) && leq(y, z) ==> leq(x, z))
  }

  lemma StringOrderIsTotal()
    ensures TotalPreorder(StringLeq)
  {
    forall x: string, y: string ensures StringLeq(x, y) || StringLeq(y, x) {
      StringLeqTotal(x, y);
    }
    forall x: string, y: string, z: string | StringLeq(x, y) && StringLeq(y, z)
      ensures StringLeq(x, z)
    {
      StringLeqTransitive(x, y, z);
    }
  }

  ghost predicate SortedBy<T>(leq: (T, T) -> bool, s: seq<T>) {
    forall i, j :: 0 <= i < j < |s| ==> leq(s[i], s[j])
  }

  function Insert<T>(leq: (T, T) -> bool, x: T, s: seq<T>): seq<T> {
    if s == [] then [x]
    else if leq(x, s[0]) then [x] + s
    else [s[0]] + Insert(leq, x, s[1..])
  }

  // A stable sort: among elements that compare equal the input order stays.
  function Sort<T>(leq: (T, T) -> bool, s: seq<T>): seq<T> {
    if s == [] then [] else Insert(leq, s[0], Sort(leq, s[1..]))
  }

  lemma {:induction false} InsertPermutes<T>(leq: (T, T) -> bool, x: T, s: seq<T>)
    ensures multiset(Insert(leq, x, s)) == multiset(s) + multiset{x}
    ensures |Insert(leq, x, s)| == |s| + 1
  {
    if s == [] {
    } else if leq(x, s[0]) {
    } else {
      InsertPermutes(leq, x, s[1..]);
      assert s == [s[0]] + s[1..];
    }
  }

  lemma {:induction false} SortPermutes<T>(leq: (T, T) -> bool, s: seq<T>)
    ensures multiset(Sort(leq, s)) == multiset(s)
    ensures |Sort(leq, s)| == |s|
  {
    if s != [] {
      SortPermutes(leq, s[1..]);
      InsertPermutes(leq, s[0], Sort(leq, s[1..]));
      assert s == [s[0]] + s[1..];
    }
  }

  lemma {:induction false} InsertKeepsSorted<T(!new)>(leq: (T, T) -> bool, x: T, s: seq<T>)
    requires TotalPreorder(leq) && SortedBy(leq, s)
    ensures SortedBy(leq, Insert(leq, x, s))
  {
    if s != [] && !leq(x, s[0]) {
      var rest := Insert(leq, x, s[1..]);
      InsertKeepsSorted(leq, x, s[1..]);
      InsertPermutes(leq, x, s[1..]);
      forall i | 0 <= i < |rest| ensures leq(s[0], rest[i]) {
        assert rest[i] in multiset(rest);
        assert rest[i] == x || rest[i] in s[1..];
      }
    }
  }

  lemma {:induction false} SortSorts<T(!new)>(leq: (T, T) -> bool, s: seq<T>)
    requires TotalPreorder(leq)
    ensures SortedBy(leq, Sort(leq, s))
  {
    if s != [] {
      SortSorts(leq, s[1..]);
      InsertKeepsSorted(leq, s[0], Sort(leq, s[1..]));
    }
  }

  lemma {:induction false} SortKeepsElements<T>(leq: (T, T) -> bool, s: seq<T>)
    ensures forall x :: x in Sort(leq, s) <==> x in s
    ensures NoDuplicates(s) ==> NoDuplicates(Sort(leq, s))
  {
    SortPermutes(leq, s);
    forall x ensures x in Sort(leq, s) <==> x in s {
      assert x in multiset(s) <==> x in s;
      assert x in multiset(Sort(leq, s)) <==> x in Sort(leq, s);
    }
    if NoDuplicates(s) {
      DistinctByMultiset(s);
      MultisetDistinct(Sort(leq, s));
    }
  }

  ghost function Filter<T>(keep: T -> bool, s: seq<T>): seq<T> {
    if s == [] then [] else (if keep(s[0]) then [s[0]] else []) + Filter(keep, s[1..])
  }

  lemma {:induction false} InsertIsStable<T>(leq: (T, T) -> bool, x: T, s: seq<T>, same: T -> bool)
    requires forall a, b :: same(a) && same(b) ==> leq(a, b)
    ensures Filter(same, Insert(leq, x, s)) == (if same(x) then [x] else []) + Filter(same, s)
  {
    if s == [] || leq(x, s[0]) {
      FilterFirst(same, x, s);
    } else {
      InsertIsStable(leq, x, s[1..], same);
      FilterFirst(same, s[0], Insert(leq, x, s[1..]));
    }
  }

  lemma {:induction false} FilterFirst<T>(keep: T -> bool, x: T, s: seq<T>)
    ensures Filter(keep, [x] + s) == (if keep(x) then [x] else []) + Filter(keep, s)
  {
    assert ([x] + s)[1..] == s;
  }

  // Elements that the order does not tell apart keep their order.
  lemma {:induction false} SortIsStable<T>(leq: (T, T) -> bool, s: seq<T>, same: T -> bool)
    requires forall a, b :: same(a) && same(b) ==> leq(a, b)
    ensures Filter(same, Sort(leq, s)) == Filter(same, s)
  {
    if s != [] {
      SortIsStable(leq, s[1..], same);
      InsertIsStable(leq, s[0], Sort(leq, s[1..]), same);
    }
  }

  lemma {:induction false} DistinctByMultiset<T>(s: seq<T>)
    requires NoDuplicates(s)
    ensures forall x :: x in s ==> multiset(s)[x] == 1
  {
    if s != [] {
      DistinctByMultiset(s[1..]);
      assert s == [s[0]] + s[1..];
      assert s[0] !in s[1..];
      assert multiset(s) == multiset{s[0]} + multiset(s[1..]);
      forall x | x in s ensures multiset(s)[x] == 1 {
        if x != s[0] {
          assert x in s[1..];
        } else {
          assert x !in multiset(s[1..]);
        }
      }
    }
  }

  lemma MultisetDistinct<T>(s: seq<T>)
    requires forall x :: x in multiset(s) ==> multiset(s)[x] == 1
    ensures NoDuplicates(s)
  {
    forall i, j | 0 <= i < j < |s| ensures s[i] != s[j] {
      assert s == s[..j] + s[j..];
      assert s[i] in multiset(s[..j]) && s[j] in multiset(s[j..]);
      assert multiset(s)[s[i]] == multiset(s[..j])[s[i]] + multiset(s[j..])[s[i]];
      assert multiset(s)[s[i]] == 1;
    }
  }

  // A strict order lists a set of elements in exactly one way.
  lemma {:induction false} StrictListingUnique<T(!new)>(less: (T, T) -> bool, s: seq<T>, t: seq<T>)
    requires forall x :: !less(x, x)
    requires forall x, y, z :: less(x, y) && less(y, z) ==> less(x, z)
    requires SortedBy(less, s) && SortedBy(less, t)
    requires forall x :: x in s <==> x in t
    ensures s == t
  {
    if t != [] {
      assert t[0] in s;
    }
    if s != [] {
      assert s[0] in t;
      assert s[0] == t[0];
      assert s == [s[0]] + s[1..] && t == [t[0]] + t[1..];
      forall x ensures x in s[1..] <==> x in t[1..] {
        if x in s[1..] {
          assert x in t && less(s[0], x);
        }
        if x in t[1..] {
          assert x in s && less(t[0], x);
        }
      }
      StrictListingUnique(less, s[1..], t[1..]);
    }
  }
}
