/** Values and small facts that every other module uses. */
module Basics {
  datatype Option<+T> = None | Some(value: T)

  // A call that returns a value or raises an error.
  datatype Result<+T, +E> = Ok(value: T) | Err(error: E)

  // Unicode white space.
  predicate IsSpace(c: char) {
    var n := c as int;
    9 <= n <= 13 || 0x2000 <= n <= 0x200A || n in {0x20, 0x85, 0xA0, 0x1680, 0x2028, 0x2029, 0x202F, 0x205F, 0x3000}
  }

  // A `NonEmptyStr` field refuses exactly the texts without a visible character.
  predicate Blank(text: string) {
    forall c :: c in text ==> IsSpace(c)
  }

  predicate NoneBlank(texts: seq<string>) {
    forall text :: text in texts ==> !Blank(text)
  }

  // `str.strip` also removes the four separator control characters.
  predicate StripsToNothing(text: string) {
    forall c :: c in text ==> IsSpace(c) || 0x1C <= c as int <= 0x1F
  }

  // A tab and a blank show nothing, one letter does; a separator is stripped but is no white space.
  lemma BlankExamples()
    ensures Blank("") && Blank(" \t") && StripsToNothing(" \t")
    ensures !Blank(" x ") && !StripsToNothing(" x ")
    ensures StripsToNothing("\U{1c}") && !Blank("\U{1c}")
  {
    assert 'x' in " x " && !IsSpace('x');
    assert '\U{1c}' in "\U{1c}" && !IsSpace('\U{1c}');
  }

  predicate NoDuplicates<T(==)>(s: seq<T>) {
    forall i, j :: 0 <= i < j < |s| ==> s[i] != s[j]
  }

  function Elements<T>(s: seq<T>): set<T> {
    set x | x in s
  }

  lemma AppendKeepsNoDuplicates<T>(s: seq<T>, x: T)
    requires NoDuplicates(s) && x !in s
    ensures NoDuplicates(s + [x])
    ensures Elements(s + [x]) == Elements(s) + {x}
  {
  }

  lemma NoDuplicatesStep<T>(s: seq<T>, i: nat)
    requires i < |s| && NoDuplicates(s[..i]) && s[i] !in s[..i]
    ensures NoDuplicates(s[..i + 1])
  {
    assert s[..i + 1] == s[..i] + [s[i]];
  }

  // What holds between two sequences position by position holds with one more pair.
  lemma PointwiseGrows<A, B>(xs: seq<A>, ys: seq<B>, y: B, p: (A, B) -> bool)
    requires |ys| < |xs| && p(xs[|ys|], y) && forall k :: 0 <= k < |ys| ==> p(xs[k], ys[k])
    ensures forall k :: 0 <= k < |ys + [y]| ==> p(xs[k], (ys + [y])[k])
  {
  }

  lemma ThreewiseGrows<A, B, C>(xs: seq<A>, ys: seq<B>, zs: seq<C>, x: A, y: B, z: C, p: (A, B, C) -> bool)
    requires |xs| == |ys| == |zs| && p(x, y, z) && forall k :: 0 <= k < |xs| ==> p(xs[k], ys[k], zs[k])
    ensures forall k :: 0 <= k < |xs + [x]| ==> p((xs + [x])[k], (ys + [y])[k], (zs + [z])[k])
  {
  }

  lemma ElementsStep<T>(s: seq<T>, i: nat)
    requires i < |s|
    ensures Elements(s[..i + 1]) == Elements(s[..i]) + {s[i]}
  {
    assert s[..i + 1] == s[..i] + [s[i]];
  }

  lemma {:induction false} ElementsCardinality<T>(s: seq<T>)
    requires NoDuplicates(s)
    ensures |Elements(s)| == |s|
  {
    if s == [] {
      assert Elements(s) == {};
    } else {
      var init, last := s[..|s| - 1], s[|s| - 1];
      assert s == init + [last];
      ElementsCardinality(init);
      AppendKeepsNoDuplicates(init, last);
      assert last !in Elements(init);
    }
  }

  lemma SubsetCardinality<T>(a: set<T>, b: set<T>)
    requires a <= b
    ensures |a| <= |b|
    ensures a != b ==> |a| < |b|
  {
    assert b == a + (b - a);
    assert |b| == |a| + |b - a|;
    if |b - a| == 0 {
      assert a == b;
    }
  }

  // As many different values as positions means no value twice.
  lemma {:induction false} DistinctByCount<T>(s: seq<T>)
    ensures |Elements(s)| <= |s|
    ensures |Elements(s)| == |s| <==> NoDuplicates(s)
  {
    if s == [] {
      assert Elements(s) == {};
    } else {
      var init, last := s[..|s| - 1], s[|s| - 1];
      assert s == init + [last];
      DistinctByCount(init);
      assert Elements(s) == Elements(init) + {last};
      if last in Elements(init) {
        assert Elements(s) == Elements(init);
      } else if NoDuplicates(init) {
        AppendKeepsNoDuplicates(init, last);
      }
    }
  }
}
