/** One consistent chaining result, and the record's own checks on it
    (chaining/service.py, contracts/chaining.py). */
module Finalize {
  import opened Basics
  import opened Refs
  import opened Primitives
  import opened Matching
  import opened Lineage
  import opened Retention
  import opened Exclusions
  import opened Prompt
  import opened Proposals
  import opened Decisions

  datatype ChainingResult = ChainingResult(
    scope: Scope,
    sourceResultRefs: seq<StoredDataRef>,
    considered: seq<StoredDataRef>,
    inputRefs: seq<StoredDataRef>,
    matches: seq<MatchCandidate>,
    proposals: seq<HypothesisProposal>,
    exclusions: seq<LineageExclusion>,
    noMatches: seq<NoMatchReason>)

  // -------------------------------------------------- the record's own checks

  function UsedRefs(matches: seq<MatchCandidate>): (r: seq<StoredDataRef>)
    ensures forall x :: x in r <==>
      exists k :: 0 <= k < |matches| && (x == matches[k].upstream || x == matches[k].downstream)
  {
    if matches == [] then []
    else
      var init, m := matches[..|matches| - 1], matches[|matches| - 1];
      assert matches == init + [m];
      UsedRefs(init) + [m.upstream, m.downstream]
  }

  function SourcesOfPrimitive(p: Primitive): seq<StoredDataRef> {
    [p.sourceVerificationRef] + (if p.technicalReviewRef.Some? then [p.technicalReviewRef.value] else [])
  }

  predicate AllListed(entries: seq<PrimitiveEntry>, matches: seq<MatchCandidate>) {
    forall m :: m in matches ==> Lists(entries, m.upstream) && Lists(entries, m.downstream)
  }

  function SourceRefs(entries: seq<PrimitiveEntry>, matches: seq<MatchCandidate>): seq<StoredDataRef>
    requires AllListed(entries, matches)
  {
    if matches == [] then []
    else
      assert matches[0] in matches;
      SourcesOfPrimitive(EntryFor(entries, matches[0].upstream).primitive)
      + SourcesOfPrimitive(EntryFor(entries, matches[0].downstream).primitive)
      + SourceRefs(entries, matches[1..])
  }

  function QuestionOfMatch(m: MatchCandidate): Question {
    Question(m.upstream, m.downstream, m.inputId)
  }

  function QuestionOfReason(n: NoMatchReason): Question {
    Question(n.upstream, n.downstream, n.inputId)
  }

  function Combinations(matches: seq<MatchCandidate>, noMatches: seq<NoMatchReason>): seq<Question> {
    seq(|matches|, k requires 0 <= k < |matches| => QuestionOfMatch(matches[k]))
    + seq(|noMatches|, k requires 0 <= k < |noMatches| => QuestionOfReason(noMatches[k]))
  }

  function MatchIds(matches: seq<MatchCandidate>): seq<nat> {
    seq(|matches|, k requires 0 <= k < |matches| => matches[k].matchId)
  }

  function ProposalSources(proposals: seq<HypothesisProposal>): seq<nat> {
    seq(|proposals|, k requires 0 <= k < |proposals| => proposals[k].sourceMatchId)
  }

  // `ChainingResult.input_sets` does not raise.
  predicate InputSetsHold(r: ChainingResult) {
    && NoDuplicates(r.sourceResultRefs) && NoDuplicates(r.considered) && NoDuplicates(r.inputRefs)
    && Elements(UsedRefs(r.matches)) == Elements(r.inputRefs)
    && (forall x :: x in r.inputRefs ==> x in r.considered)
    && NoDuplicates(MatchIds(r.matches))
    && NoDuplicates(Combinations(r.matches, r.noMatches))
    && (forall n :: n in r.noMatches ==> n.upstream in r.considered && n.downstream in r.considered)
    && (forall e :: e in r.exclusions ==>
          e.excluded in r.considered && e.excluded !in r.inputRefs && e.excludedBy in r.inputRefs)
    && multiset(ProposalSources(r.proposals)) == multiset(MatchIds(r.matches))
  }

  predicate AllInWorkspace(refs: seq<StoredDataRef>, scope: Scope) {
    forall ref :: ref in refs ==> InWorkspace(ref, scope)
  }

  predicate MatchInWorkspace(m: MatchCandidate, scope: Scope) {
    && InWorkspace(m.upstream, scope) && InWorkspace(m.downstream, scope)
    && AllInWorkspace(m.parentVerifications, scope) && AllInWorkspace(m.evidence, scope)
  }

  predicate ProposalInWorkspace(p: HypothesisProposal, scope: Scope) {
    forall r :: r in p.restrictions ==> RestrictionInWorkspace(r, scope)
  }

  // `DomainRecord.domain_scope` does not raise on the references of the record.
  predicate RecordInWorkspace(r: ChainingResult) {
    && AllInWorkspace(r.sourceResultRefs, r.scope) && AllInWorkspace(r.considered, r.scope)
    && AllInWorkspace(r.inputRefs, r.scope) && AllInWorkspace(ExcludedRefs(r.exclusions), r.scope)
    && (forall e :: e in r.exclusions ==> InWorkspace(e.excludedBy, r.scope))
    && (forall m :: m in r.matches ==> MatchInWorkspace(m, r.scope))
    && (forall p :: p in r.proposals ==> ProposalInWorkspace(p, r.scope))
    && (forall n :: n in r.noMatches ==> InWorkspace(n.upstream, r.scope) && InWorkspace(n.downstream, r.scope))
  }

  predicate ExactSetOf<T(==)>(actual: seq<T>, expected: seq<T>) {
    NoDuplicates(actual) && Elements(actual) == Elements(expected)
  }

  // `exact(ref, primitive, meta)` does not raise for a consumer in this analysis.
  predicate ExactEntry(e: PrimitiveEntry, analysisId: string) {
    && IsPrimitiveRecord(e.ref) && e.primitive.analysisId == analysisId
    && InWorkspace(e.ref, MetaScope(e.primitive)) && e.ref == e.primitive.selfRef
  }

  predicate MatchClosed(entries: seq<PrimitiveEntry>, m: MatchCandidate) {
    && Lists(entries, m.upstream) && Lists(entries, m.downstream)
    && var up, down := EntryFor(entries, m.upstream).primitive, EntryFor(entries, m.downstream).primitive;
    && up.result.Some? && AsksFor(down, m.inputId)
    && ExactSetOf(m.parentHypotheses, [up.sourceHypothesisId, down.sourceHypothesisId])
    && ExactSetOf(m.parentVerifications, [up.sourceVerificationRef, down.sourceVerificationRef])
  }

  // `validate_chained_derivation` does not raise.
  predicate Derived(up: Primitive, down: Primitive, inputId: string, p: HypothesisProposal) {
    var entities := EntitiesOf(PairDrafts(up, down));
    && entities != []
    && Elements(p.targetEntities) <= Elements(entities)
    && Elements(p.targetLocations) <= Elements(Locations(entities))
    && Elements(p.suspectedPath) <= Elements(Locations(entities))
    && multiset(p.assumptions) == multiset(RemainingAssumptions(up, down, inputId))
  }

  predicate ProposalClosed(entries: seq<PrimitiveEntry>, matches: seq<MatchCandidate>, p: HypothesisProposal) {
    exists m :: m in matches && m.matchId == p.sourceMatchId && ProposalFits(entries, m, p)
  }

  predicate ProposalFits(entries: seq<PrimitiveEntry>, m: MatchCandidate, p: HypothesisProposal) {
    && Lists(entries, m.upstream) && Lists(entries, m.downstream)
    && var up, down := EntryFor(entries, m.upstream).primitive, EntryFor(entries, m.downstream).primitive;
    && ExactSetOf(p.parentHypotheses, m.parentHypotheses)
    && Compatible(up.restrictions + down.restrictions)
    && ExactSetOf(p.restrictions, up.restrictions + down.restrictions)
    && Derived(up, down, m.inputId, p)
  }

  // `validate_chaining_closure` does not raise.
  predicate ClosureHolds(r: ChainingResult, entries: seq<PrimitiveEntry>, pinned: seq<StoredDataRef>,
                         expected: seq<LineageExclusion>) {
    RecordClosed(r, entries, pinned, expected) && forall p :: p in r.proposals ==> ProposalClosed(entries, r.matches, p)
  }

  predicate RecordClosed(r: ChainingResult, entries: seq<PrimitiveEntry>, pinned: seq<StoredDataRef>,
                         expected: seq<LineageExclusion>) {
    && ExactSetOf(r.considered, pinned) && ExactSetOf(r.exclusions, expected)
    && |entries| == |pinned| && (forall k :: 0 <= k < |entries| ==> entries[k].ref == pinned[k])
    && (forall e :: e in entries ==> ExactEntry(e, r.scope.analysisId))
    && (forall m :: m in r.matches ==> MatchClosed(entries, m))
    && AllListed(entries, r.matches)
    && ExactSetOf(r.sourceResultRefs, SourceRefs(entries, r.matches))
    && (forall n :: n in r.noMatches ==>
          Lists(entries, n.downstream) && AsksFor(EntryFor(entries, n.downstream).primitive, n.inputId))
  }

  // ------------------------------------------------------------------ context

  // What a work hands to `_finalize`: its pinned universe with one valid entry for every
  // pinned reference, and the comparisons it owns.
  ghost predicate WorkInputs(considered: seq<StoredDataRef>, trigger: StoredDataRef, entries: seq<PrimitiveEntry>,
                             comparisons: seq<DirectionalComparison>) {
    && Pinned(entries, trigger) && (forall e :: e in entries ==> WellFormed(e.primitive))
    && |entries| == |considered| && (forall k :: 0 <= k < |entries| ==> entries[k].ref == considered[k])
    && DistinctKeys(comparisons) && NoRepeatedQuestion(comparisons)
    && forall c :: c in comparisons ==> Answerable(entries, c) && (c.upstream == trigger || c.downstream == trigger)
  }

  ghost predicate Selected(considered: seq<StoredDataRef>, trigger: StoredDataRef, resolve: Resolver,
                           analysisId: string, decisions: seq<ChainingDecision>, byKey: ByKey,
                           pairs: seq<SuccessfulMatchPair>, retained: seq<SuccessfulMatchPair>,
                           exclusions: seq<LineageExclusion>) {
    && pairs == Successes(decisions, byKey)
    && RetentionSucceeds(considered, trigger, pairs, resolve, analysisId)
    && IsRetention(resolve, trigger, pairs, retained)
    && AreExclusions(resolve, trigger, retained, exclusions)
  }

  lemma ListedIsConsidered(considered: seq<StoredDataRef>, entries: seq<PrimitiveEntry>, ref: StoredDataRef)
    requires |entries| == |considered| && (forall k :: 0 <= k < |entries| ==> entries[k].ref == considered[k])
    ensures Lists(entries, ref) <==> ref in considered
  {
    if ref in considered {
      var k :| 0 <= k < |considered| && considered[k] == ref;
      assert entries[k].ref == ref;
    }
  }

  // No MATCH is lost at the second guard: a success outside the exclusions is retained.
  lemma UnexcludedSuccessIsRetained(considered: seq<StoredDataRef>, trigger: StoredDataRef, resolve: Resolver,
                                    analysisId: string, decisions: seq<ChainingDecision>, byKey: ByKey,
                                    pairs: seq<SuccessfulMatchPair>, retained: seq<SuccessfulMatchPair>,
                                    exclusions: seq<LineageExclusion>, p: SuccessfulMatchPair)
    requires Selected(considered, trigger, resolve, analysisId, decisions, byKey, pairs, retained, exclusions)
    requires Succeeded(decisions, byKey, p)
    ensures p in retained <==> Candidate(p, trigger) !in Elements(ExcludedRefs(exclusions))
  {
    DroppedCandidateIsExcluded(considered, trigger, pairs, retained, resolve, analysisId, p);
    var x := Candidate(p, trigger);
    assert x in Elements(ExcludedRefs(exclusions)) <==> x in ExcludedRefs(exclusions);
  }

  function PairOfMatch(m: MatchCandidate): SuccessfulMatchPair {
    SuccessfulMatchPair(m.upstream, m.downstream)
  }

  // The questions of matches and reasons are those of the kept decisions, in order.
  ghost predicate SameQuestions(byKey: ByKey, kept: seq<ChainingDecision>, dropped: seq<ChainingDecision>,
                                out: Collected) {
    && |out.matches| == |kept| && |out.noMatches| == |dropped|
    && (forall k :: 0 <= k < |kept| ==>
          kept[k].comparisonKey in byKey
          && QuestionOfMatch(out.matches[k]) == QuestionOf(byKey[kept[k].comparisonKey]))
    && (forall k :: 0 <= k < |dropped| ==>
          dropped[k].comparisonKey in byKey
          && QuestionOfReason(out.noMatches[k]) == QuestionOf(byKey[dropped[k].comparisonKey]))
  }

  lemma AnswersAskTheSame(entries: seq<PrimitiveEntry>, byKey: ByKey, prompt: TrustedPrompt,
                          kept: seq<ChainingDecision>, dropped: seq<ChainingDecision>, out: Collected)
    requires Answers(entries, byKey, prompt, kept, dropped, out)
    ensures SameQuestions(byKey, kept, dropped, out)
  {
    forall k | 0 <= k < |kept|
      ensures kept[k].comparisonKey in byKey
        && QuestionOfMatch(out.matches[k]) == QuestionOf(byKey[kept[k].comparisonKey])
    {
      assert AnswersMatch(entries, byKey, prompt, kept[k], out.matches[k], out.proposals[k]);
    }
    forall k | 0 <= k < |dropped|
      ensures dropped[k].comparisonKey in byKey
        && QuestionOfReason(out.noMatches[k]) == QuestionOf(byKey[dropped[k].comparisonKey])
    {
      assert AnswersNoMatch(byKey, dropped[k], out.noMatches[k]);
    }
  }

  function MatchedPairsOf(matches: seq<MatchCandidate>): seq<SuccessfulMatchPair> {
    seq(|matches|, k requires 0 <= k < |matches| => PairOfMatch(matches[k]))
  }

  predicate IsMatched(out: Collected, p: SuccessfulMatchPair) {
    p in MatchedPairsOf(out.matches)
  }

  // The matched pairs are exactly the successes outside the exclusions.
  lemma {:induction false} MatchedPairs(decisions: seq<ChainingDecision>, byKey: ByKey, trigger: StoredDataRef,
                                        ex: set<StoredDataRef>, out: Collected, p: SuccessfulMatchPair)
    requires SameQuestions(byKey, Kept(decisions, byKey, trigger, ex, Match),
                           Kept(decisions, byKey, trigger, ex, NoMatch), out)
    ensures IsMatched(out, p) <==> Succeeded(decisions, byKey, p) && Candidate(p, trigger) !in ex
  {
    var kept := Kept(decisions, byKey, trigger, ex, Match);
    KeptDecisions(decisions, byKey, trigger, ex, Match);
    if IsMatched(out, p) {
      var k :| 0 <= k < |out.matches| && PairOfMatch(out.matches[k]) == p;
      assert QuestionOfMatch(out.matches[k]) == QuestionOf(byKey[kept[k].comparisonKey]);
      assert kept[k] in decisions && !OnExcluded(kept[k], byKey, trigger, ex);
      var n :| 0 <= n < |decisions| && decisions[n] == kept[k];
      assert PairOf(byKey[decisions[n].comparisonKey]) == p;
    }
    if Succeeded(decisions, byKey, p) && Candidate(p, trigger) !in ex {
      var n :| 0 <= n < |decisions| && decisions[n].outcome == Match
        && decisions[n].comparisonKey in byKey && PairOf(byKey[decisions[n].comparisonKey]) == p;
      assert decisions[n] in kept;
      var k :| 0 <= k < |kept| && kept[k] == decisions[n];
      assert QuestionOfMatch(out.matches[k]) == QuestionOf(byKey[kept[k].comparisonKey]);
      assert MatchedPairsOf(out.matches)[k] == p;
    }
  }

  // The matched pairs are exactly the retained pairs.
  lemma {:induction false} MatchedPairsAreRetained(considered: seq<StoredDataRef>, trigger: StoredDataRef,
                                                   resolve: Resolver, analysisId: string,
                                                   decisions: seq<ChainingDecision>, byKey: ByKey,
                                                   pairs: seq<SuccessfulMatchPair>, retained: seq<SuccessfulMatchPair>,
                                                   exclusions: seq<LineageExclusion>, out: Collected,
                                                   p: SuccessfulMatchPair)
    requires Selected(considered, trigger, resolve, analysisId, decisions, byKey, pairs, retained, exclusions)
    requires var ex := Elements(ExcludedRefs(exclusions));
      SameQuestions(byKey, Kept(decisions, byKey, trigger, ex, Match),
                    Kept(decisions, byKey, trigger, ex, NoMatch), out)
    ensures p in retained <==> IsMatched(out, p)
  {
    MatchedPairs(decisions, byKey, trigger, Elements(ExcludedRefs(exclusions)), out, p);
    assert p in retained ==> p in pairs;
    if Succeeded(decisions, byKey, p) {
      UnexcludedSuccessIsRetained(considered, trigger, resolve, analysisId, decisions, byKey, pairs, retained,
                                  exclusions, p);
    }
  }

  // No two decisions lead to the same (upstream, downstream, input).
  lemma {:induction false} CombinationsDiffer(comparisons: seq<DirectionalComparison>, decisions: seq<ChainingDecision>,
                                              trigger: StoredDataRef, ex: set<StoredDataRef>, out: Collected)
    requires DistinctKeys(comparisons) && NoRepeatedQuestion(comparisons)
    requires Covers(decisions, IndexByKey(comparisons))
    requires SameQuestions(IndexByKey(comparisons), Kept(decisions, IndexByKey(comparisons), trigger, ex, Match),
                           Kept(decisions, IndexByKey(comparisons), trigger, ex, NoMatch), out)
    ensures NoDuplicates(Combinations(out.matches, out.noMatches))
  {
    var byKey := IndexByKey(comparisons);
    var kept, dropped := Kept(decisions, byKey, trigger, ex, Match), Kept(decisions, byKey, trigger, ex, NoMatch);
    KeptDecisions(decisions, byKey, trigger, ex, Match);
    KeptDecisions(decisions, byKey, trigger, ex, NoMatch);
    var all := kept + dropped;
    forall i, j | 0 <= i < j < |all|
      ensures Combinations(out.matches, out.noMatches)[i] != Combinations(out.matches, out.noMatches)[j]
    {
      CombinationAt(byKey, kept, dropped, out, i);
      CombinationAt(byKey, kept, dropped, out, j);
      KeptKeysDiffer(decisions, kept, dropped, i, j);
      QuestionsDiffer(comparisons, all[i].comparisonKey, all[j].comparisonKey);
    }
  }

  lemma CombinationAt(byKey: ByKey, kept: seq<ChainingDecision>, dropped: seq<ChainingDecision>, out: Collected, k: nat)
    requires SameQuestions(byKey, kept, dropped, out) && k < |kept + dropped|
    ensures (kept + dropped)[k].comparisonKey in byKey
    ensures |Combinations(out.matches, out.noMatches)| == |kept + dropped|
    ensures Combinations(out.matches, out.noMatches)[k] == QuestionOf(byKey[(kept + dropped)[k].comparisonKey])
  {
    if k < |kept| {
      assert (kept + dropped)[k] == kept[k];
    } else {
      assert (kept + dropped)[k] == dropped[k - |kept|];
    }
  }

  lemma KeptKeysDiffer(decisions: seq<ChainingDecision>, kept: seq<ChainingDecision>, dropped: seq<ChainingDecision>,
                       i: nat, j: nat)
    requires NoDuplicates(DecisionKeys(decisions))
    requires NoDuplicates(DecisionKeys(kept)) && NoDuplicates(DecisionKeys(dropped))
    requires forall d :: d in kept ==> d in decisions && d.outcome == Match
    requires forall d :: d in dropped ==> d in decisions && d.outcome == NoMatch
    requires i < j < |kept + dropped|
    ensures (kept + dropped)[i].comparisonKey != (kept + dropped)[j].comparisonKey
  {
    var all := kept + dropped;
    if j < |kept| {
      assert DecisionKeys(kept)[i] != DecisionKeys(kept)[j];
    } else if |kept| <= i {
      assert DecisionKeys(dropped)[i - |kept|] != DecisionKeys(dropped)[j - |kept|];
    } else {
      assert all[i] in kept && all[j] in dropped;
      var m :| 0 <= m < |decisions| && decisions[m] == all[i];
      var n :| 0 <= n < |decisions| && decisions[n] == all[j];
      assert m != n;
      assert DecisionKeys(decisions)[m] != DecisionKeys(decisions)[n];
    }
  }

  lemma {:induction false} QuestionsDiffer(comparisons: seq<DirectionalComparison>, a: string, b: string)
    requires DistinctKeys(comparisons) && NoRepeatedQuestion(comparisons)
    requires a in IndexByKey(comparisons) && b in IndexByKey(comparisons) && a != b
    ensures QuestionOf(IndexByKey(comparisons)[a]) != QuestionOf(IndexByKey(comparisons)[b])
  {
    var c, d := IndexByKey(comparisons)[a], IndexByKey(comparisons)[b];
    var i :| 0 <= i < |comparisons| && comparisons[i] == c;
    var j :| 0 <= j < |comparisons| && comparisons[j] == d;
    assert i != j;
  }

  // ---------------------------------------------- the record accepts the result

  function BuildRecord(scope: Scope, considered: seq<StoredDataRef>, entries: seq<PrimitiveEntry>, out: Collected,
                       exclusions: seq<LineageExclusion>): ChainingResult
    requires AllListed(entries, out.matches)
  {
    ChainingResult(scope, Unique(SourceRefs(entries, out.matches)), considered, Unique(UsedRefs(out.matches)),
                   out.matches, out.proposals, exclusions, out.noMatches)
  }

  lemma ComparedIsListed(considered: seq<StoredDataRef>, trigger: StoredDataRef, entries: seq<PrimitiveEntry>,
                         comparisons: seq<DirectionalComparison>, c: DirectionalComparison)
    requires WorkInputs(considered, trigger, entries, comparisons) && c in comparisons
    ensures Lists(entries, c.upstream) && Lists(entries, c.downstream)
    ensures c.upstream in considered && c.downstream in considered
  {
    assert Answerable(entries, c);
    ListedIsConsidered(considered, entries, c.upstream);
    ListedIsConsidered(considered, entries, c.downstream);
  }

  ghost predicate InUniverse(considered: seq<StoredDataRef>, entries: seq<PrimitiveEntry>, q: Question) {
    && Lists(entries, q.upstream) && Lists(entries, q.downstream)
    && q.upstream in considered && q.downstream in considered
  }

  lemma AnsweredAreListed(considered: seq<StoredDataRef>, entries: seq<PrimitiveEntry>, byKey: ByKey,
                          kept: seq<ChainingDecision>, dropped: seq<ChainingDecision>, out: Collected)
    requires forall key :: key in byKey ==> InUniverse(considered, entries, QuestionOf(byKey[key]))
    requires SameQuestions(byKey, kept, dropped, out)
    ensures forall m :: m in out.matches ==> InUniverse(considered, entries, QuestionOfMatch(m))
    ensures forall n :: n in out.noMatches ==> InUniverse(considered, entries, QuestionOfReason(n))
  {
    forall m | m in out.matches ensures InUniverse(considered, entries, QuestionOfMatch(m)) {
      var k :| 0 <= k < |out.matches| && out.matches[k] == m;
      assert QuestionOfMatch(m) == QuestionOf(byKey[kept[k].comparisonKey]);
    }
    forall n | n in out.noMatches ensures InUniverse(considered, entries, QuestionOfReason(n)) {
      var k :| 0 <= k < |out.noMatches| && out.noMatches[k] == n;
      assert QuestionOfReason(n) == QuestionOf(byKey[dropped[k].comparisonKey]);
    }
  }

  // The references of the matches are those of the retained pairs.
  lemma UsedRefsAreRetained(retained: seq<SuccessfulMatchPair>, out: Collected)
    requires forall p :: p in retained <==> IsMatched(out, p)
    ensures forall x :: x in UsedRefs(out.matches) <==> x in PairRefs(retained)
  {
    var matches := out.matches;
    forall k | 0 <= k < |matches| ensures PairOfMatch(matches[k]) in retained {
      assert MatchedPairsOf(matches)[k] == PairOfMatch(matches[k]);
      assert IsMatched(out, PairOfMatch(matches[k]));
    }
    forall p | p in retained ensures exists k :: 0 <= k < |matches| && PairOfMatch(matches[k]) == p {
      assert IsMatched(out, p);
      var k :| 0 <= k < |MatchedPairsOf(matches)| && MatchedPairsOf(matches)[k] == p;
    }
    forall x ensures x in UsedRefs(matches) <==> x in PairRefs(retained) {
      if x in PairRefs(retained) {
        var p :| p in retained && (x == p.upstream || x == p.downstream);
        var k :| 0 <= k < |matches| && PairOfMatch(matches[k]) == p;
      }
      if x in UsedRefs(matches) {
        var k :| 0 <= k < |matches| && (x == matches[k].upstream || x == matches[k].downstream);
        assert PairOfMatch(matches[k]) in retained;
      }
    }
  }

  // Every exclusion lies in the universe, outside the matches, and blames a matched candidate.
  lemma ExclusionFits(considered: seq<StoredDataRef>, trigger: StoredDataRef, resolve: Resolver, analysisId: string,
                      decisions: seq<ChainingDecision>, byKey: ByKey, pairs: seq<SuccessfulMatchPair>,
                      retained: seq<SuccessfulMatchPair>, exclusions: seq<LineageExclusion>, out: Collected,
                      e: LineageExclusion)
    requires Selected(considered, trigger, resolve, analysisId, decisions, byKey, pairs, retained, exclusions)
    requires forall x :: x in UsedRefs(out.matches) <==> x in PairRefs(retained)
    requires e in exclusions
    ensures e.excluded in considered && e.excluded !in UsedRefs(out.matches) && e.excludedBy in UsedRefs(out.matches)
  {
    assert BlamedOnFirst(resolve, trigger, retained, e);
    var k :| 0 <= k < |retained| && e.excludedBy == Candidate(retained[k], trigger)
      && e.excluded in AncestorSet(resolve, Candidate(retained[k], trigger));
    RetainedRefsAreClear(considered, trigger, pairs, retained, resolve, analysisId, retained[k]);
  }

  lemma {:induction false} InputSetsAlwaysHold(considered: seq<StoredDataRef>, trigger: StoredDataRef,
                                               resolve: Resolver, analysisId: string, entries: seq<PrimitiveEntry>,
                                               comparisons: seq<DirectionalComparison>,
                                               decisions: seq<ChainingDecision>, prompt: TrustedPrompt,
                                               pairs: seq<SuccessfulMatchPair>, retained: seq<SuccessfulMatchPair>,
                                               exclusions: seq<LineageExclusion>, out: Collected, scope: Scope)
    requires WorkInputs(considered, trigger, entries, comparisons)
    requires Covers(decisions, IndexByKey(comparisons))
    requires Selected(considered, trigger, resolve, analysisId, decisions, IndexByKey(comparisons), pairs, retained,
                      exclusions)
    requires Answered(entries, IndexByKey(comparisons), prompt, decisions, trigger,
                      Elements(ExcludedRefs(exclusions)), out)
    requires DistinctMatchIds(out.matches)
    ensures AllListed(entries, out.matches)
    ensures InputSetsHold(BuildRecord(scope, considered, entries, out, exclusions))
    ensures forall p :: p in retained <==> IsMatched(out, p)
  {
    var byKey, ex := IndexByKey(comparisons), Elements(ExcludedRefs(exclusions));
    var kept, dropped := Kept(decisions, byKey, trigger, ex, Match), Kept(decisions, byKey, trigger, ex, NoMatch);
    AnswersAskTheSame(entries, byKey, prompt, kept, dropped, out);
    SourcesMatchIds(entries, byKey, prompt, kept, dropped, out);
    forall p ensures p in retained <==> IsMatched(out, p) {
      MatchedPairsAreRetained(considered, trigger, resolve, analysisId, decisions, byKey, pairs, retained,
                              exclusions, out, p);
    }
    forall key | key in byKey ensures InUniverse(considered, entries, QuestionOf(byKey[key])) {
      ComparedIsListed(considered, trigger, entries, comparisons, byKey[key]);
    }
    AnsweredAreListed(considered, entries, byKey, kept, dropped, out);
    CombinationsDiffer(comparisons, decisions, trigger, ex, out);
    UsedRefsAreRetained(retained, out);
    forall e | e in exclusions
      ensures e.excluded in considered && e.excluded !in UsedRefs(out.matches)
        && e.excludedBy in UsedRefs(out.matches)
    {
      ExclusionFits(considered, trigger, resolve, analysisId, decisions, byKey, pairs, retained, exclusions, out, e);
    }
    RecordFits(scope, considered, entries, out, exclusions);
  }

  lemma SourcesMatchIds(entries: seq<PrimitiveEntry>, byKey: ByKey, prompt: TrustedPrompt, kept: seq<ChainingDecision>,
                        dropped: seq<ChainingDecision>, out: Collected)
    requires Answers(entries, byKey, prompt, kept, dropped, out)
    ensures ProposalSources(out.proposals) == MatchIds(out.matches)
  {
    forall k | 0 <= k < |kept| ensures out.proposals[k].sourceMatchId == out.matches[k].matchId {
      assert AnswersMatch(entries, byKey, prompt, kept[k], out.matches[k], out.proposals[k]);
    }
  }

  lemma RecordFits(scope: Scope, considered: seq<StoredDataRef>, entries: seq<PrimitiveEntry>, out: Collected,
                   exclusions: seq<LineageExclusion>)
    requires NoDuplicates(considered)
    requires forall m :: m in out.matches ==> InUniverse(considered, entries, QuestionOfMatch(m))
    requires forall n :: n in out.noMatches ==> InUniverse(considered, entries, QuestionOfReason(n))
    requires DistinctMatchIds(out.matches) && ProposalSources(out.proposals) == MatchIds(out.matches)
    requires NoDuplicates(Combinations(out.matches, out.noMatches))
    requires forall e :: e in exclusions ==>
      e.excluded in considered && e.excluded !in UsedRefs(out.matches) && e.excludedBy in UsedRefs(out.matches)
    ensures AllListed(entries, out.matches)
    ensures InputSetsHold(BuildRecord(scope, considered, entries, out, exclusions))
  {
    var used := UsedRefs(out.matches);
    forall m | m in out.matches ensures Lists(entries, m.upstream) && Lists(entries, m.downstream) {
      assert InUniverse(considered, entries, QuestionOfMatch(m));
    }
    forall x | x in used ensures x in considered {
      var k :| 0 <= k < |out.matches| && (x == out.matches[k].upstream || x == out.matches[k].downstream);
      assert InUniverse(considered, entries, QuestionOfMatch(out.matches[k]));
    }
    forall n | n in out.noMatches ensures n.upstream in considered && n.downstream in considered {
      assert InUniverse(considered, entries, QuestionOfReason(n));
    }
    forall x ensures x in Unique(used) <==> x in used {
      assert x in Elements(Unique(used)) <==> x in Elements(used);
    }
  }
}
