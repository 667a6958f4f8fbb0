/** Exclusions derived from the retained matches, and why deriving them is stable (chaining/lineage.py). */
module Exclusions {
  import opened Basics
  import opened Refs
  import opened Ordering
  import opened Lineage
  import opened Retention

  // ------------------------------------------------- retention as a function

  // The successes alone fix the result: neither their order nor the run matters.
  lemma RetentionIsUnique(resolve: Resolver, trigger: StoredDataRef, pairs: seq<SuccessfulMatchPair>,
                          shuffled: seq<SuccessfulMatchPair>, a: seq<SuccessfulMatchPair>, b: seq<SuccessfulMatchPair>)
    requires forall p :: p in pairs <==> p in shuffled
    requires IsRetention(resolve, trigger, pairs, a) && IsRetention(resolve, trigger, shuffled, b)
    ensures a == b
  {
    var less := RanksBefore(resolve, trigger);
    forall x, y, z | less(x, y) && less(y, z) ensures less(x, z) {
      AheadIsStrict(RankOf(resolve, trigger, x), RankOf(resolve, trigger, y), RankOf(resolve, trigger, z));
    }
    forall x ensures !less(x, x) {
      AheadIsStrict(RankOf(resolve, trigger, x), RankOf(resolve, trigger, x), RankOf(resolve, trigger, x));
    }
    forall p ensures Maximal(resolve, trigger, pairs, p) <==> Maximal(resolve, trigger, shuffled, p) {
    }
    StrictListingUnique(less, a, b);
  }

  lemma RetentionIsIdempotent(considered: seq<StoredDataRef>, trigger: StoredDataRef, pairs: seq<SuccessfulMatchPair>,
                              retained: seq<SuccessfulMatchPair>, resolve: Resolver, analysisId: string)
    requires RetentionSucceeds(considered, trigger, pairs, resolve, analysisId)
    requires IsRetention(resolve, trigger, pairs, retained)
    ensures RetentionSucceeds(considered, trigger, retained, resolve, analysisId)
    ensures forall again :: IsRetention(resolve, trigger, retained, again) <==> again == retained
  {
    forall i, j | 0 <= i < j < |retained| ensures retained[i] != retained[j] {
      assert RanksBefore(resolve, trigger)(retained[i], retained[j]);
    }
    assert IsRetention(resolve, trigger, retained, retained);
    forall again | IsRetention(resolve, trigger, retained, again) ensures again == retained {
      RetentionIsUnique(resolve, trigger, retained, retained, again, retained);
    }
  }

  // Successful candidates that stay apart form an antichain: no retained reference,
  // and not the trigger, is an ancestor of a retained candidate.
  lemma RetainedRefsAreNoAncestors(considered: seq<StoredDataRef>, trigger: StoredDataRef,
                                   pairs: seq<SuccessfulMatchPair>, retained: seq<SuccessfulMatchPair>,
                                   resolve: Resolver, analysisId: string, p: SuccessfulMatchPair,
                                   q: SuccessfulMatchPair)
    requires RetentionSucceeds(considered, trigger, pairs, resolve, analysisId)
    requires IsRetention(resolve, trigger, pairs, retained)
    requires p in retained && q in retained
    ensures p.upstream !in AncestorSet(resolve, Candidate(q, trigger))
    ensures p.downstream !in AncestorSet(resolve, Candidate(q, trigger))
    ensures trigger !in AncestorSet(resolve, Candidate(q, trigger))
  {
    assert WellPinned(considered, trigger, resolve, q);
    assert Maximal(resolve, trigger, pairs, p);
    assert Eligible(considered, trigger, resolve, analysisId, p);
  }

  // A success is either retained or excluded by the ancestors of a retained one.
  lemma DroppedCandidateIsExcluded(considered: seq<StoredDataRef>, trigger: StoredDataRef,
                                   pairs: seq<SuccessfulMatchPair>, retained: seq<SuccessfulMatchPair>,
                                   resolve: Resolver, analysisId: string, p: SuccessfulMatchPair)
    requires RetentionSucceeds(considered, trigger, pairs, resolve, analysisId)
    requires IsRetention(resolve, trigger, pairs, retained)
    requires p in pairs
    ensures p !in retained <==> InSomeLineage(resolve, trigger, retained, Candidate(p, trigger))
  {
    if p !in retained {
      assert !Maximal(resolve, trigger, pairs, p);
      forall q | q in pairs ensures LineageDefined(resolve, analysisId, Candidate(q, trigger)) {
        assert Eligible(considered, trigger, resolve, analysisId, q);
      }
      var q := DeepestDescendant(resolve, analysisId, trigger, pairs, Candidate(p, trigger));
      assert q in retained;
    }
  }

  // ---------------------------------------------------------------- exclusions

  ghost predicate InSomeLineage(resolve: Resolver, trigger: StoredDataRef, retained: seq<SuccessfulMatchPair>,
                                x: StoredDataRef) {
    exists p :: p in retained && x in AncestorSet(resolve, Candidate(p, trigger))
  }

  // The exclusion is blamed on the first retained candidate that descends from it.
  ghost predicate BlamedOnFirst(resolve: Resolver, trigger: StoredDataRef, retained: seq<SuccessfulMatchPair>,
                                e: LineageExclusion) {
    exists k :: 0 <= k < |retained|
      && e.excludedBy == Candidate(retained[k], trigger)
      && e.excluded in AncestorSet(resolve, Candidate(retained[k], trigger))
      && forall m :: 0 <= m < k ==> e.excluded !in AncestorSet(resolve, Candidate(retained[m], trigger))
  }

  function ExcludedRefs(output: seq<LineageExclusion>): seq<StoredDataRef> {
    seq(|output|, k requires 0 <= k < |output| => output[k].excluded)
  }

  ghost predicate AreExclusions(resolve: Resolver, trigger: StoredDataRef, retained: seq<SuccessfulMatchPair>,
                                output: seq<LineageExclusion>) {
    && NoDuplicates(ExcludedRefs(output))
    && (forall x :: x in ExcludedRefs(output) <==> InSomeLineage(resolve, trigger, retained, x))
    && forall e :: e in output ==> BlamedOnFirst(resolve, trigger, retained, e)
  }

  // Of the retained candidates that descend from it, the deepest one with the smallest record id
  // is blamed for an exclusion.
  lemma BlamedOnDeepest(resolve: Resolver, trigger: StoredDataRef, pairs: seq<SuccessfulMatchPair>,
                        retained: seq<SuccessfulMatchPair>, output: seq<LineageExclusion>, e: LineageExclusion,
                        q: SuccessfulMatchPair)
    requires IsRetention(resolve, trigger, pairs, retained) && AreExclusions(resolve, trigger, retained, output)
    requires e in output && q in retained && e.excluded in AncestorSet(resolve, Candidate(q, trigger))
    requires IsPrimitiveRecord(e.excludedBy) && IsPrimitiveRecord(Candidate(q, trigger))
    ensures var x, y := e.excludedBy, Candidate(q, trigger);
      || Depth(resolve, x) > Depth(resolve, y)
      || (Depth(resolve, x) == Depth(resolve, y)
          && (x.recordId == y.recordId || Precedes(x.recordId.value, y.recordId.value)))
  {
    assert BlamedOnFirst(resolve, trigger, retained, e);
    var k :| 0 <= k < |retained|
      && e.excludedBy == Candidate(retained[k], trigger)
      && e.excluded in AncestorSet(resolve, Candidate(retained[k], trigger))
      && forall m :: 0 <= m < k ==> e.excluded !in AncestorSet(resolve, Candidate(retained[m], trigger));
    var m :| 0 <= m < |retained| && retained[m] == q;
    if k < m {
      assert RanksBefore(resolve, trigger)(retained[k], retained[m]);
    }
  }

  // Two equally deep retained candidates with the ids a and b share an ancestor: a is blamed for it.
  lemma SmallerIdIsBlamed(resolve: Resolver, trigger: StoredDataRef, pairs: seq<SuccessfulMatchPair>,
                          retained: seq<SuccessfulMatchPair>, output: seq<LineageExclusion>, e: LineageExclusion,
                          p: SuccessfulMatchPair, q: SuccessfulMatchPair)
    requires IsRetention(resolve, trigger, pairs, retained) && AreExclusions(resolve, trigger, retained, output)
    requires p in retained && forall m :: m in retained ==> m == p || m == q
    requires IsPrimitiveRecord(Candidate(p, trigger)) && Candidate(p, trigger).recordId == Some("a")
    requires IsPrimitiveRecord(Candidate(q, trigger)) && Candidate(q, trigger).recordId == Some("b")
    requires Depth(resolve, Candidate(p, trigger)) == Depth(resolve, Candidate(q, trigger))
    requires e in output && e.excluded in AncestorSet(resolve, Candidate(p, trigger))
    ensures e.excludedBy == Candidate(p, trigger)
  {
    var blamed := BlamedPair(resolve, trigger, retained, output, e);
    if blamed == q {
      BlamedOnDeepest(resolve, trigger, pairs, retained, output, e, p);
      LettersInOrder();
    }
  }

  lemma BlamedPair(resolve: Resolver, trigger: StoredDataRef, retained: seq<SuccessfulMatchPair>,
                   output: seq<LineageExclusion>, e: LineageExclusion)
    returns (blamed: SuccessfulMatchPair)
    requires AreExclusions(resolve, trigger, retained, output) && e in output
    ensures blamed in retained && e.excludedBy == Candidate(blamed, trigger)
  {
    assert BlamedOnFirst(resolve, trigger, retained, e);
    var k :| 0 <= k < |retained| && e.excludedBy == Candidate(retained[k], trigger);
    blamed := retained[k];
  }

  function PairRefs(pairs: seq<SuccessfulMatchPair>): set<StoredDataRef> {
    (set p | p in pairs :: p.upstream) + (set p | p in pairs :: p.downstream)
  }

  // Neither error of the inner loop can be reached for a retained candidate.
  lemma RetainedRefsAreClear(considered: seq<StoredDataRef>, trigger: StoredDataRef, pairs: seq<SuccessfulMatchPair>,
                             retained: seq<SuccessfulMatchPair>, resolve: Resolver, analysisId: string,
                             q: SuccessfulMatchPair)
    requires RetentionSucceeds(considered, trigger, pairs, resolve, analysisId)
    requires IsRetention(resolve, trigger, pairs, retained) && q in retained
    ensures LineageDefined(resolve, analysisId, Candidate(q, trigger))
    ensures AncestorSet(resolve, Candidate(q, trigger)) <= Elements(considered) - PairRefs(retained)
  {
    assert Eligible(considered, trigger, resolve, analysisId, q);
    assert WellPinned(considered, trigger, resolve, q);
    forall p | p in retained
      ensures {p.upstream, p.downstream} !! AncestorSet(resolve, Candidate(q, trigger))
    {
      RetainedRefsAreNoAncestors(considered, trigger, pairs, retained, resolve, analysisId, p, q);
    }
  }

  method ExpectedLineageExclusions(considered: seq<StoredDataRef>, trigger: StoredDataRef,
                                   pairs: seq<SuccessfulMatchPair>, resolve: Resolver, analysisId: string)
    returns (r: Result<seq<LineageExclusion>, ChainingError>, ghost retained: seq<SuccessfulMatchPair>)
    ensures r.Ok? <==> RetentionSucceeds(considered, trigger, pairs, resolve, analysisId)
    ensures r.Ok? ==> IsRetention(resolve, trigger, pairs, retained)
    ensures r.Ok? ==> AreExclusions(resolve, trigger, retained, r.value)
    ensures r.Err? ==> SelectionFault(considered, trigger, pairs, resolve, analysisId, r.error)
    ensures r != Err(SuccessfulCandidateExcluded)
  {
    retained := [];
    if !NoDuplicates(considered) || trigger !in considered {
      return Err(LineageInputMismatch), [];
    }
    var kept := RetainDeepestSuccessfulMatches(considered, trigger, pairs, resolve, analysisId);
    if kept.Err? {
      return Err(kept.error), [];
    }
    retained := kept.value;
    var retainedRefs := PairRefs(kept.value);
    var output: seq<LineageExclusion> := [];
    for i := 0 to |kept.value|
      invariant AreExclusions(resolve, trigger, retained[..i], output)
    {
      var candidate := Candidate(kept.value[i], trigger);
      RetainedRefsAreClear(considered, trigger, pairs, retained, resolve, analysisId, kept.value[i]);
      var more := AppendExclusions(considered, retainedRefs, candidate, output, resolve, analysisId);
      ExclusionsExtend(resolve, trigger, retained, i, output, more.value);
      output := more.value;
    }
    assert retained[..|retained|] == retained;
    return Ok(output), retained;
  }

  ghost predicate Appended(resolve: Resolver, candidate: StoredDataRef, before: seq<LineageExclusion>,
                           after: seq<LineageExclusion>) {
    && before <= after
    && NoDuplicates(ExcludedRefs(after))
    && (forall k :: |before| <= k < |after| ==>
      after[k].excludedBy == candidate && after[k].excluded in AncestorSet(resolve, candidate))
    && forall x :: x in AncestorSet(resolve, candidate) ==> x in ExcludedRefs(after)
  }

  // Why the ancestors of one retained candidate cannot be excluded.
  ghost predicate ExclusionFault(resolve: Resolver, analysisId: string, considered: seq<StoredDataRef>,
                                 retainedRefs: set<StoredDataRef>, candidate: StoredDataRef, error: ChainingError) {
    if !LineageDefined(resolve, analysisId, candidate) then
      error.LineageFault? && IsLineageFault(resolve, analysisId, candidate, error.fault)
    else exists y :: y in AncestorSet(resolve, candidate)
                     && AncestorFault(considered, retainedRefs, y) == Some(error)
  }

  ghost function AncestorFault(considered: seq<StoredDataRef>, retainedRefs: set<StoredDataRef>,
                               ancestor: StoredDataRef)
    : Option<ChainingError>
  {
    if ancestor !in considered then Some(LineageInputMismatch)
    else if ancestor in retainedRefs then Some(SuccessfulCandidateExcluded)
    else None
  }

  // The inner loop over the ancestors of one retained candidate. `excluded` is the
  // set of references already listed.
  method AppendExclusions(considered: seq<StoredDataRef>, retainedRefs: set<StoredDataRef>, candidate: StoredDataRef,
                          before: seq<LineageExclusion>, resolve: Resolver, analysisId: string)
    returns (r: Result<seq<LineageExclusion>, ChainingError>)
    requires NoDuplicates(ExcludedRefs(before))
    ensures r.Ok? <==>
      LineageDefined(resolve, analysisId, candidate)
      && AncestorSet(resolve, candidate) <= Elements(considered) - retainedRefs
    ensures r.Ok? ==> Appended(resolve, candidate, before, r.value)
    ensures r.Err? ==> ExclusionFault(resolve, analysisId, considered, retainedRefs, candidate, r.error)
  {
    var line := LineageOf(candidate, resolve, analysisId);
    if line.Err? {
      return Err(LineageFault(line.error));
    }
    var ancestors := line.value.ancestors;
    var output := before;
    for j := 0 to |ancestors|
      invariant before <= output && NoDuplicates(ExcludedRefs(output))
      invariant forall k :: |before| <= k < |output| ==>
        output[k].excludedBy == candidate && output[k].excluded in AncestorSet(resolve, candidate)
      invariant Elements(ancestors[..j]) <= Elements(ExcludedRefs(output))
      invariant Elements(ancestors[..j]) <= Elements(considered) - retainedRefs
    {
      var ancestor := ancestors[j];
      assert ancestor in Elements(ancestors);
      if ancestor !in considered {
        return Err(LineageInputMismatch);
      }
      if ancestor in retainedRefs {
        return Err(SuccessfulCandidateExcluded);
      }
      ElementsStep(ancestors, j);
      if ancestor == candidate || ancestor in ExcludedRefs(output) {
      } else {
        AppendKeepsNoDuplicates(ExcludedRefs(output), ancestor);
        assert ExcludedRefs(output + [LineageExclusion(ancestor, candidate)]) == ExcludedRefs(output) + [ancestor];
        output := output + [LineageExclusion(ancestor, candidate)];
      }
    }
    assert ancestors[..|ancestors|] == ancestors;
    forall x | x in AncestorSet(resolve, candidate) ensures x in ExcludedRefs(output) {
      assert x in Elements(ExcludedRefs(output));
    }
    return Ok(output);
  }

  lemma ExclusionsExtend(resolve: Resolver, trigger: StoredDataRef, retained: seq<SuccessfulMatchPair>, i: nat,
                         before: seq<LineageExclusion>, after: seq<LineageExclusion>)
    requires i < |retained| && AreExclusions(resolve, trigger, retained[..i], before)
    requires Appended(resolve, Candidate(retained[i], trigger), before, after)
    ensures AreExclusions(resolve, trigger, retained[..i + 1], after)
  {
    forall x ensures x in ExcludedRefs(after) <==> InSomeLineage(resolve, trigger, retained[..i + 1], x) {
      ExcludedRefsExtend(resolve, trigger, retained, i, before, after, x);
    }
    forall e | e in after ensures BlamedOnFirst(resolve, trigger, retained[..i + 1], e) {
      var k :| 0 <= k < |after| && after[k] == e;
      BlameExtends(resolve, trigger, retained, i, before, after, k);
    }
  }

  lemma ExcludedRefsExtend(resolve: Resolver, trigger: StoredDataRef, retained: seq<SuccessfulMatchPair>, i: nat,
                           before: seq<LineageExclusion>, after: seq<LineageExclusion>, x: StoredDataRef)
    requires i < |retained| && AreExclusions(resolve, trigger, retained[..i], before)
    requires Appended(resolve, Candidate(retained[i], trigger), before, after)
    ensures x in ExcludedRefs(after) <==> InSomeLineage(resolve, trigger, retained[..i + 1], x)
  {
    var done, more := retained[..i], retained[..i + 1];
    assert more == done + [retained[i]];
    if x in ExcludedRefs(after) {
      var k :| 0 <= k < |after| && after[k].excluded == x;
      if k < |before| {
        assert after[k] == before[k];
        assert ExcludedRefs(before)[k] == x;
        assert InSomeLineage(resolve, trigger, done, x);
        var p :| p in done && x in AncestorSet(resolve, Candidate(p, trigger));
        assert p in more;
      } else {
        assert retained[i] in more;
      }
    }
    if InSomeLineage(resolve, trigger, more, x) {
      var p :| p in more && x in AncestorSet(resolve, Candidate(p, trigger));
      if p in done {
        assert InSomeLineage(resolve, trigger, done, x);
        var k :| 0 <= k < |before| && ExcludedRefs(before)[k] == x;
        assert after[k] == before[k];
        assert ExcludedRefs(after)[k] == x;
      }
    }
  }

  lemma BlameExtends(resolve: Resolver, trigger: StoredDataRef, retained: seq<SuccessfulMatchPair>, i: nat,
                     before: seq<LineageExclusion>, after: seq<LineageExclusion>, k: nat)
    requires i < |retained| && k < |after| && AreExclusions(resolve, trigger, retained[..i], before)
    requires Appended(resolve, Candidate(retained[i], trigger), before, after)
    ensures BlamedOnFirst(resolve, trigger, retained[..i + 1], after[k])
  {
    var e := after[k];
    var done, more := retained[..i], retained[..i + 1];
    assert more == done + [retained[i]];
    if k < |before| {
      assert e == before[k];
      assert BlamedOnFirst(resolve, trigger, done, e);
      var b :| 0 <= b < |done|
        && e.excludedBy == Candidate(done[b], trigger)
        && e.excluded in AncestorSet(resolve, Candidate(done[b], trigger))
        && forall m :: 0 <= m < b ==> e.excluded !in AncestorSet(resolve, Candidate(done[m], trigger));
      assert more[b] == done[b];
    } else {
      forall b | 0 <= b < |before| ensures ExcludedRefs(before)[b] != e.excluded {
        assert ExcludedRefs(after)[b] == ExcludedRefs(before)[b];
        assert ExcludedRefs(after)[k] == e.excluded;
      }
      assert !InSomeLineage(resolve, trigger, done, e.excluded);
      forall m | 0 <= m < i ensures e.excluded !in AncestorSet(resolve, Candidate(more[m], trigger)) {
        assert more[m] in done;
      }
      assert more[i] == retained[i];
    }
  }

  // What `_finalize` relies on when it derives exclusions from an already retained list.
  lemma ExclusionsOfRetained(considered: seq<StoredDataRef>, trigger: StoredDataRef, pairs: seq<SuccessfulMatchPair>,
                             retained: seq<SuccessfulMatchPair>, again: seq<SuccessfulMatchPair>,
                             output: seq<LineageExclusion>, resolve: Resolver, analysisId: string)
    requires RetentionSucceeds(considered, trigger, pairs, resolve, analysisId)
    requires IsRetention(resolve, trigger, pairs, retained)
    requires IsRetention(resolve, trigger, retained, again)
    requires AreExclusions(resolve, trigger, again, output)
    ensures again == retained
    ensures Elements(ExcludedRefs(output)) !! PairRefs(retained) + {trigger}
    ensures Elements(ExcludedRefs(output)) <= Elements(considered)
  {
    RetentionIsIdempotent(considered, trigger, pairs, retained, resolve, analysisId);
    forall x | x in ExcludedRefs(output)
      ensures x !in PairRefs(retained) && x != trigger && x in considered
    {
      assert InSomeLineage(resolve, trigger, retained, x);
      var q :| q in retained && x in AncestorSet(resolve, Candidate(q, trigger));
      RetainedRefsAreClear(considered, trigger, pairs, retained, resolve, analysisId, q);
      RetainedRefsAreNoAncestors(considered, trigger, pairs, retained, resolve, analysisId, q, q);
    }
  }

  // Everything below a successful candidate, retained or not.
  ghost function Overtaken(resolve: Resolver, trigger: StoredDataRef, pairs: seq<SuccessfulMatchPair>)
    : set<StoredDataRef>
  {
    set p, x | p in pairs && x in AncestorSet(resolve, Candidate(p, trigger)) :: x
  }

  // The exclusions of the retained pairs already cover the ancestors of the dropped ones.
  lemma ExclusionsAreOvertaken(considered: seq<StoredDataRef>, trigger: StoredDataRef, pairs: seq<SuccessfulMatchPair>,
                               retained: seq<SuccessfulMatchPair>, exclusions: seq<LineageExclusion>, resolve: Resolver,
                               analysisId: string)
    requires RetentionSucceeds(considered, trigger, pairs, resolve, analysisId)
    requires IsRetention(resolve, trigger, pairs, retained) && AreExclusions(resolve, trigger, retained, exclusions)
    ensures Elements(ExcludedRefs(exclusions)) == Overtaken(resolve, trigger, pairs)
  {
    forall x | x in Overtaken(resolve, trigger, pairs) ensures InSomeLineage(resolve, trigger, retained, x) {
      var p :| p in pairs && x in AncestorSet(resolve, Candidate(p, trigger));
      DroppedCandidateIsExcluded(considered, trigger, pairs, retained, resolve, analysisId, p);
      if p !in retained {
        var q :| q in retained && Candidate(p, trigger) in AncestorSet(resolve, Candidate(q, trigger));
        assert Eligible(considered, trigger, resolve, analysisId, q);
        AncestorIsShallower(resolve, analysisId, Candidate(q, trigger), Candidate(p, trigger));
      }
    }
    forall x | x in ExcludedRefs(exclusions) ensures x in Overtaken(resolve, trigger, pairs) {
      assert InSomeLineage(resolve, trigger, retained, x);
    }
  }
}
