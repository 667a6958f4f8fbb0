/** The exclusions storage derives again from a submitted result, and when they agree with
    the exclusions the service recorded (storage/chaining_projection.py, contracts/chaining.py). */
module StoredExclusions {
  import opened Basics
  import opened Refs
  import opened Reachability
  import opened Lineage
  import opened Retention
  import opened Exclusions
  import opened StorageLineage

  datatype StoredError = ResolutionInvalid | ReusedAncestor | PortFailed(error: PortError)

  ghost predicate MatchAcceptable(store: Provenance, pinned: set<StoredDataRef>, trigger: StoredDataRef,
                                  used: set<StoredDataRef>, m: SuccessfulMatchPair) {
    && (m.upstream == trigger) != (m.downstream == trigger)
    && PortSucceeds(store, pinned, Candidate(m, trigger))
    && forall x :: x in used ==> !Descends(Sources(store), Candidate(m, trigger), x)
  }

  // What the checks of one match raise: its shape first, then the port, then the used references.
  ghost predicate MatchFault(store: Provenance, pinned: set<StoredDataRef>, trigger: StoredDataRef,
                             used: set<StoredDataRef>, m: SuccessfulMatchPair, error: StoredError) {
    if (m.upstream == trigger) == (m.downstream == trigger) then error == ResolutionInvalid
    else if !PortSucceeds(store, pinned, Candidate(m, trigger)) then
      error.PortFailed? && PortFault(store, pinned, Candidate(m, trigger), error.error)
    else error == ReusedAncestor && exists x :: x in used && Descends(Sources(store), Candidate(m, trigger), x)
  }

  // The first match that fails a check decides.
  ghost predicate FirstMatchFault(store: Provenance, pinned: set<StoredDataRef>, trigger: StoredDataRef,
                                  used: set<StoredDataRef>, matches: seq<SuccessfulMatchPair>, error: StoredError) {
    exists i :: 0 <= i < |matches| && MatchFault(store, pinned, trigger, used, matches[i], error)
                && forall k :: 0 <= k < i ==> MatchAcceptable(store, pinned, trigger, used, matches[k])
  }

  ghost predicate Blames(store: Provenance, trigger: StoredDataRef, matches: seq<SuccessfulMatchPair>,
                         e: LineageExclusion) {
    exists m :: m in matches && e.excludedBy == Candidate(m, trigger)
      && Descends(Sources(store), Candidate(m, trigger), e.excluded)
  }

  // One entry for every pair of a matched candidate and one of its ancestors.
  method StoredExpectedExclusions(matches: seq<SuccessfulMatchPair>, used: set<StoredDataRef>,
                                  considered: seq<StoredDataRef>, trigger: StoredDataRef, store: Provenance)
    returns (r: Result<seq<LineageExclusion>, StoredError>)
    ensures r.Ok? <==>
      forall m :: m in matches ==> MatchAcceptable(store, Elements(considered), trigger, used, m)
    ensures r.Err? ==> FirstMatchFault(store, Elements(considered), trigger, used, matches, r.error)
    ensures r.Ok? ==> NoDuplicates(r.value)
    ensures r.Ok? ==> forall e :: e in r.value <==> Blames(store, trigger, matches, e)
  {
    var expected: seq<LineageExclusion> := [];
    for i := 0 to |matches|
      invariant NoDuplicates(expected)
      invariant forall m :: m in matches[..i] ==> MatchAcceptable(store, Elements(considered), trigger, used, m)
      invariant forall e :: e in expected <==> Blames(store, trigger, matches[..i], e)
    {
      var m := matches[i];
      assert matches[..i + 1] == matches[..i] + [m];
      var found := MatchAncestors(m, used, considered, trigger, store);
      if found.Err? {
        assert forall k :: 0 <= k < i ==> matches[k] in matches[..i];
        return Err(found.error);
      }
      var more := AppendPairs(found.value, Candidate(m, trigger), expected);
      forall e ensures e in more <==> Blames(store, trigger, matches[..i + 1], e) {
        BlamesExtend(store, trigger, matches, i, e);
      }
      expected := more;
    }
    assert matches[..|matches|] == matches;
    return Ok(expected);
  }

  lemma BlamesExtend(store: Provenance, trigger: StoredDataRef, matches: seq<SuccessfulMatchPair>, i: nat,
                     e: LineageExclusion)
    requires i < |matches|
    ensures Blames(store, trigger, matches[..i + 1], e) <==>
      Blames(store, trigger, matches[..i], e)
      || (e.excludedBy == Candidate(matches[i], trigger)
          && Descends(Sources(store), Candidate(matches[i], trigger), e.excluded))
  {
    assert matches[..i + 1] == matches[..i] + [matches[i]];
  }

  // The checks of one match, with the ancestors of its candidate.
  method MatchAncestors(m: SuccessfulMatchPair, used: set<StoredDataRef>, considered: seq<StoredDataRef>,
                        trigger: StoredDataRef, store: Provenance)
    returns (r: Result<seq<StoredDataRef>, StoredError>)
    ensures r.Ok? <==> MatchAcceptable(store, Elements(considered), trigger, used, m)
    ensures r.Ok? ==> ListsAncestors(store, Candidate(m, trigger), r.value)
    ensures r.Err? ==> MatchFault(store, Elements(considered), trigger, used, m, r.error)
  {
    if (m.upstream == trigger) == (m.downstream == trigger) {
      return Err(ResolutionInvalid);
    }
    var candidate := Candidate(m, trigger);
    var found := PortAncestors(store, considered, candidate);
    if found.Err? {
      return Err(PortFailed(found.error));
    }
    var ancestors := found.value;
    forall x | x in ancestors ensures x != candidate && x in considered {
      ReachesCases(Sources(store), candidate, x);
      assert x in Elements(considered);
    }
    if !NoDuplicates(ancestors) || exists x :: x in ancestors && (x == candidate || x !in considered) {
      return Err(ResolutionInvalid);
    }
    if exists x :: x in ancestors && x in used {
      return Err(ReusedAncestor);
    }
    return Ok(ancestors);
  }

  method AppendPairs(ancestors: seq<StoredDataRef>, candidate: StoredDataRef, expected: seq<LineageExclusion>)
    returns (more: seq<LineageExclusion>)
    requires NoDuplicates(expected)
    ensures NoDuplicates(more)
    ensures forall e :: e in more <==> e in expected || (e.excludedBy == candidate && e.excluded in ancestors)
  {
    more := expected;
    for i := 0 to |ancestors|
      invariant NoDuplicates(more)
      invariant forall e :: e in more <==>
        e in expected || (e.excludedBy == candidate && e.excluded in ancestors[..i])
    {
      assert ancestors[..i + 1] == ancestors[..i] + [ancestors[i]];
      var pair := LineageExclusion(ancestors[i], candidate);
      if pair !in more {
        AppendKeepsNoDuplicates(more, pair);
        more := more + [pair];
      }
    }
    assert ancestors[..|ancestors|] == ancestors;
  }

  // `exact_set(actual, expected)` does not raise.
  ghost predicate ExactSet<T(!new)>(actual: seq<T>, expected: seq<T>) {
    NoDuplicates(actual) && forall x :: x in actual <==> x in expected
  }

  ghost predicate NoSharedAncestor(resolve: Resolver, trigger: StoredDataRef, retained: seq<SuccessfulMatchPair>) {
    forall p, q :: p in retained && q in retained && Candidate(p, trigger) != Candidate(q, trigger) ==>
      AncestorSet(resolve, Candidate(p, trigger)) !! AncestorSet(resolve, Candidate(q, trigger))
  }

  // The service records each excluded reference once, storage expects it once per matched
  // descendant: the two agree exactly when retained candidates share no ancestor.
  lemma RecordedMatchesStored(resolve: Resolver, store: Provenance, trigger: StoredDataRef,
                              retained: seq<SuccessfulMatchPair>, matches: seq<SuccessfulMatchPair>,
                              recorded: seq<LineageExclusion>, expected: seq<LineageExclusion>)
    requires forall p :: p in retained <==> p in matches
    requires forall p, y :: p in retained ==>
      (y in AncestorSet(resolve, Candidate(p, trigger)) <==> Descends(Sources(store), Candidate(p, trigger), y))
    requires AreExclusions(resolve, trigger, retained, recorded)
    requires forall e :: e in expected <==> Blames(store, trigger, matches, e)
    ensures ExactSet(recorded, expected) <==> NoSharedAncestor(resolve, trigger, retained)
  {
    forall i, j | 0 <= i < j < |recorded| ensures recorded[i] != recorded[j] {
      assert ExcludedRefs(recorded)[i] != ExcludedRefs(recorded)[j];
    }
    forall e | e in recorded ensures e in expected {
      assert BlamedOnFirst(resolve, trigger, retained, e);
      assert Blames(store, trigger, matches, e);
    }
    if NoSharedAncestor(resolve, trigger, retained) {
      forall e | e in expected ensures e in recorded {
        ExpectedIsRecorded(resolve, store, trigger, retained, matches, recorded, e);
      }
    }
    if ExactSet(recorded, expected) {
      forall p, q, x | p in retained && q in retained && x in AncestorSet(resolve, Candidate(p, trigger))
        && x in AncestorSet(resolve, Candidate(q, trigger))
        ensures Candidate(p, trigger) == Candidate(q, trigger)
      {
        var e, f := LineageExclusion(x, Candidate(p, trigger)), LineageExclusion(x, Candidate(q, trigger));
        assert Blames(store, trigger, matches, e) && Blames(store, trigger, matches, f);
        var i :| 0 <= i < |recorded| && recorded[i] == e;
        var j :| 0 <= j < |recorded| && recorded[j] == f;
        assert ExcludedRefs(recorded)[i] == ExcludedRefs(recorded)[j];
      }
    }
  }

  lemma ExpectedIsRecorded(resolve: Resolver, store: Provenance, trigger: StoredDataRef,
                           retained: seq<SuccessfulMatchPair>, matches: seq<SuccessfulMatchPair>,
                           recorded: seq<LineageExclusion>, e: LineageExclusion)
    requires forall p :: p in retained <==> p in matches
    requires forall p, y :: p in retained ==>
      (y in AncestorSet(resolve, Candidate(p, trigger)) <==> Descends(Sources(store), Candidate(p, trigger), y))
    requires AreExclusions(resolve, trigger, retained, recorded)
    requires NoSharedAncestor(resolve, trigger, retained) && Blames(store, trigger, matches, e)
    ensures e in recorded
  {
    var m :| m in matches && e.excludedBy == Candidate(m, trigger)
      && Descends(Sources(store), Candidate(m, trigger), e.excluded);
    assert InSomeLineage(resolve, trigger, retained, e.excluded);
    var i :| 0 <= i < |recorded| && ExcludedRefs(recorded)[i] == e.excluded;
    assert BlamedOnFirst(resolve, trigger, retained, recorded[i]);
    var k :| 0 <= k < |retained|
      && recorded[i].excludedBy == Candidate(retained[k], trigger)
      && recorded[i].excluded in AncestorSet(resolve, Candidate(retained[k], trigger));
    assert retained[k] in retained && m in retained;
    assert e.excluded in AncestorSet(resolve, Candidate(m, trigger));
  }
}
