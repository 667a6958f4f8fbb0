/** `_finalize` as a whole: when it succeeds, what it returns and what it raises otherwise
    (chaining/service.py). */
module Finalization {
  import opened Basics
  import opened Refs
  import opened Primitives
  import opened Matching
  import opened Lineage
  import opened Retention
  import opened Exclusions
  import opened Prompt
  import opened Proposals
  import opened Decisions
  import opened Finalize
  import opened Closure

  // ----------------------------------------------------------- specification

  ghost predicate Finalized(considered: seq<StoredDataRef>, trigger: StoredDataRef, entries: seq<PrimitiveEntry>,
                            byKey: ByKey, prompt: TrustedPrompt, decisions: seq<ChainingDecision>, resolve: Resolver,
                            scope: Scope, r: ChainingResult, pairs: seq<SuccessfulMatchPair>,
                            retained: seq<SuccessfulMatchPair>) {
    var ex := Elements(ExcludedRefs(r.exclusions));
    && r.considered == considered && r.scope == scope
    && Selected(considered, trigger, resolve, scope.analysisId, decisions, byKey, pairs, retained, r.exclusions)
    && (forall p :: p in retained <==> p in MatchedPairsOf(r.matches))
    && Answered(entries, byKey, prompt, decisions, trigger, ex, Collected(r.matches, r.proposals, r.noMatches))
    && |decisions| == |r.matches| + |r.noMatches| + CountExcluded(decisions, byKey, trigger, ex)
    && InputSetsHold(r) && RecordInWorkspace(r) && ClosureHolds(r, entries, considered, r.exclusions)
  }

  // Every pair that stays names an entity.
  ghost predicate RetainedNameEntities(entries: seq<PrimitiveEntry>, trigger: StoredDataRef, resolve: Resolver,
                                       pairs: seq<SuccessfulMatchPair>) {
    forall p :: p in pairs && Maximal(resolve, trigger, pairs, p) ==> PairNamesEntity(entries, p)
  }

  // The fault of the second loop, read off the decisions alone.
  ghost function LoopFault(trigger: StoredDataRef, entries: seq<PrimitiveEntry>, byKey: ByKey, prompt: TrustedPrompt,
                           decisions: seq<ChainingDecision>, resolve: Resolver)
    : Option<FinalizeError>
    requires AllCompared(entries, byKey)
  {
    FirstFault(decisions, byKey, trigger, Overtaken(resolve, trigger, Successes(decisions, byKey)), entries, prompt)
  }

  ghost predicate FinalizeSucceeds(considered: seq<StoredDataRef>, trigger: StoredDataRef, entries: seq<PrimitiveEntry>,
                                   byKey: ByKey, prompt: TrustedPrompt, decisions: seq<ChainingDecision>,
                                   resolve: Resolver, scope: Scope)
    requires AllCompared(entries, byKey)
  {
    && Covers(decisions, byKey)
    && RetentionSucceeds(considered, trigger, Successes(decisions, byKey), resolve, scope.analysisId)
    && LoopFault(trigger, entries, byKey, prompt, decisions, resolve).None?
    && trigger.workspaceId == scope.workspaceId && trigger.commitId == scope.commitId
    && OwnAnalysis(entries, scope.analysisId)
    && RetainedNameEntities(entries, trigger, resolve, Successes(decisions, byKey))
  }

  // What is raised: the checks in the order of the code, each with the error it owns.
  ghost predicate FinalizeFault(considered: seq<StoredDataRef>, trigger: StoredDataRef, entries: seq<PrimitiveEntry>,
                                byKey: ByKey, prompt: TrustedPrompt, decisions: seq<ChainingDecision>,
                                resolve: Resolver, scope: Scope, error: FinalizeError)
    requires AllCompared(entries, byKey)
  {
    var pairs := Successes(decisions, byKey);
    if !Covers(decisions, byKey) then error == DecisionCoverageMismatch
    else if !RetentionSucceeds(considered, trigger, pairs, resolve, scope.analysisId) then
      error.SelectionFailed? && SelectionFault(considered, trigger, pairs, resolve, scope.analysisId, error.error)
    else if LoopFault(trigger, entries, byKey, prompt, decisions, resolve).Some? then
      LoopFault(trigger, entries, byKey, prompt, decisions, resolve) == Some(error)
    else if trigger.workspaceId != scope.workspaceId || trigger.commitId != scope.commitId then
      error == ResultRecordInvalid
    else error == ClosureInvalid
         && !(OwnAnalysis(entries, scope.analysisId) && RetainedNameEntities(entries, trigger, resolve, pairs))
  }

  lemma {:induction false} WorkIsCompared(considered: seq<StoredDataRef>, trigger: StoredDataRef,
                                          entries: seq<PrimitiveEntry>, comparisons: seq<DirectionalComparison>)
    requires WorkInputs(considered, trigger, entries, comparisons)
    ensures AllCompared(entries, IndexByKey(comparisons)) && AllAnswerable(entries, IndexByKey(comparisons))
  {
  }

  // --------------------------------------------------------------- first part

  method SelectMatches(considered: seq<StoredDataRef>, trigger: StoredDataRef, byKey: ByKey,
                       decisions: seq<ChainingDecision>, resolve: Resolver, analysisId: string)
    returns (r: Result<seq<LineageExclusion>, ChainingError>, retained: seq<SuccessfulMatchPair>)
    requires Covers(decisions, byKey)
    ensures r.Ok? <==>
      RetentionSucceeds(considered, trigger, Successes(decisions, byKey), resolve, analysisId)
    ensures r.Err? ==>
      SelectionFault(considered, trigger, Successes(decisions, byKey), resolve, analysisId, r.error)
    ensures r.Ok? ==> Selected(considered, trigger, resolve, analysisId, decisions, byKey,
                               Successes(decisions, byKey), retained, r.value)
  {
    var successful := SuccessfulPairs(decisions, byKey);
    retained := [];
    var kept := RetainDeepestSuccessfulMatches(considered, trigger, successful, resolve, analysisId);
    if kept.Err? {
      r := Err(kept.error);
      return;
    }
    retained := kept.value;
    RetentionIsIdempotent(considered, trigger, successful, retained, resolve, analysisId);
    ghost var again;
    r, again := ExpectedLineageExclusions(considered, trigger, retained, resolve, analysisId);
  }

  // --------------------------------------------------------------- second part

  // The second loop.
  method CollectRetained(considered: seq<StoredDataRef>, trigger: StoredDataRef, entries: seq<PrimitiveEntry>,
                         byKey: ByKey, prompt: TrustedPrompt, decisions: seq<ChainingDecision>, ghost resolve: Resolver,
                         ghost analysisId: string, retained: seq<SuccessfulMatchPair>,
                         exclusions: seq<LineageExclusion>, ghost pairs: seq<SuccessfulMatchPair>)
    returns (r: Result<Collected, FinalizeError>)
    requires Covers(decisions, byKey) && AllCompared(entries, byKey)
    requires Selected(considered, trigger, resolve, analysisId, decisions, byKey, pairs, retained, exclusions)
    ensures r.Ok? <==> LoopFault(trigger, entries, byKey, prompt, decisions, resolve).None?
    ensures r.Err? ==> LoopFault(trigger, entries, byKey, prompt, decisions, resolve) == Some(r.error)
    ensures r.Ok? ==>
      Answered(entries, byKey, prompt, decisions, trigger, Elements(ExcludedRefs(exclusions)), r.value)
    ensures r.Ok? ==> DistinctMatchIds(r.value.matches)
  {
    var excluded := Elements(ExcludedRefs(exclusions));
    ExclusionsAreOvertaken(considered, trigger, pairs, retained, exclusions, resolve, analysisId);
    forall p | Succeeded(decisions, byKey, p) && Candidate(p, trigger) !in excluded ensures p in retained {
      UnexcludedSuccessIsRetained(considered, trigger, resolve, analysisId, decisions, byKey, pairs, retained,
                                  exclusions, p);
    }
    r := Collect(decisions, byKey, trigger, excluded, Elements(retained), entries, prompt);
  }

  // The record and its checks.
  method RecordCollected(considered: seq<StoredDataRef>, trigger: StoredDataRef, entries: seq<PrimitiveEntry>,
                         ghost comparisons: seq<DirectionalComparison>, ghost byKey: ByKey, ghost prompt: TrustedPrompt,
                         ghost decisions: seq<ChainingDecision>, ghost resolve: Resolver, scope: Scope,
                         ghost retained: seq<SuccessfulMatchPair>, exclusions: seq<LineageExclusion>,
                         ghost pairs: seq<SuccessfulMatchPair>, out: Collected)
    returns (r: Result<ChainingResult, FinalizeError>)
    requires WorkInputs(considered, trigger, entries, comparisons) && PromptSound(entries, comparisons, prompt)
    requires Covers(decisions, byKey) && byKey == IndexByKey(comparisons)
    requires Selected(considered, trigger, resolve, scope.analysisId, decisions, byKey, pairs, retained, exclusions)
    requires Answered(entries, byKey, prompt, decisions, trigger, Elements(ExcludedRefs(exclusions)), out)
    requires DistinctMatchIds(out.matches)
    ensures r.Ok? <==> InWorkspace(trigger, scope) && OwnAnalysis(entries, scope.analysisId)
                       && RetainedNameEntities(entries, trigger, resolve, pairs)
    ensures r.Err? ==> r.error == if InWorkspace(trigger, scope) then ClosureInvalid else ResultRecordInvalid
    ensures r.Ok? ==> Finalized(considered, trigger, entries, byKey, prompt, decisions, resolve, scope, r.value,
                                pairs, retained)
  {
    ghost var ex := Elements(ExcludedRefs(exclusions));
    RecordChecks(considered, trigger, entries, comparisons, byKey, prompt, decisions, resolve, scope, retained,
                 exclusions, pairs, out);
    var result := BuildRecord(scope, considered, entries, out, exclusions);
    if !RecordInWorkspace(result) || !InputSetsHold(result) {
      return Err(ResultRecordInvalid);
    }
    if !ClosureHolds(result, entries, considered, exclusions) {
      return Err(ClosureInvalid);
    }
    DecisionsAreConserved(decisions, byKey, trigger, ex);
    return Ok(result);
  }

  // What each check of the finished record comes down to.
  lemma {:induction false} RecordChecks(considered: seq<StoredDataRef>, trigger: StoredDataRef,
                                        entries: seq<PrimitiveEntry>, comparisons: seq<DirectionalComparison>,
                                        byKey: ByKey, prompt: TrustedPrompt, decisions: seq<ChainingDecision>,
                                        resolve: Resolver, scope: Scope, retained: seq<SuccessfulMatchPair>,
                                        exclusions: seq<LineageExclusion>, pairs: seq<SuccessfulMatchPair>,
                                        out: Collected)
    requires WorkInputs(considered, trigger, entries, comparisons) && PromptSound(entries, comparisons, prompt)
    requires Covers(decisions, byKey) && byKey == IndexByKey(comparisons)
    requires Selected(considered, trigger, resolve, scope.analysisId, decisions, byKey, pairs, retained, exclusions)
    requires Answered(entries, byKey, prompt, decisions, trigger, Elements(ExcludedRefs(exclusions)), out)
    requires DistinctMatchIds(out.matches)
    ensures AllListed(entries, out.matches) && forall p :: p in retained <==> IsMatched(out, p)
    ensures var r := BuildRecord(scope, considered, entries, out, exclusions);
      && InputSetsHold(r) && (RecordInWorkspace(r) <==> InWorkspace(trigger, scope))
      && (ClosureHolds(r, entries, considered, exclusions) <==>
            OwnAnalysis(entries, scope.analysisId) && RetainedNameEntities(entries, trigger, resolve, pairs))
  {
    var ex := Elements(ExcludedRefs(exclusions));
    var kept, dropped := Kept(decisions, byKey, trigger, ex, Match), Kept(decisions, byKey, trigger, ex, NoMatch);
    InputSetsAlwaysHold(considered, trigger, resolve, scope.analysisId, entries, comparisons, decisions, prompt, pairs,
                        retained, exclusions, out, scope);
    RecordInWorkspaceIff(scope, considered, trigger, entries, comparisons, byKey, prompt, kept, dropped, out,
                         exclusions);
    ExclusionsAreDistinct(resolve, trigger, retained, exclusions);
    WorkIsCompared(considered, trigger, entries, comparisons);
    ClosureHoldsIff(scope, considered, entries, byKey, prompt, kept, dropped, out, exclusions);
    MatchedNameEntities(entries, out, trigger, resolve, pairs, retained);
  }

  lemma MatchedNameEntities(entries: seq<PrimitiveEntry>, out: Collected, trigger: StoredDataRef, resolve: Resolver,
                            pairs: seq<SuccessfulMatchPair>, retained: seq<SuccessfulMatchPair>)
    requires IsRetention(resolve, trigger, pairs, retained) && forall p :: p in retained <==> IsMatched(out, p)
    ensures (forall m :: m in out.matches ==> NamesEntity(entries, m)) <==>
      RetainedNameEntities(entries, trigger, resolve, pairs)
  {
    forall m | m in out.matches ensures PairOfMatch(m) in retained {
      var k :| 0 <= k < |out.matches| && out.matches[k] == m;
      assert MatchedPairsOf(out.matches)[k] == PairOfMatch(m);
      assert IsMatched(out, PairOfMatch(m));
    }
    forall p | p in retained ensures exists m :: m in out.matches && PairOfMatch(m) == p {
      assert IsMatched(out, p);
      var k :| 0 <= k < |out.matches| && MatchedPairsOf(out.matches)[k] == p;
      assert out.matches[k] in out.matches;
    }
  }

  lemma ExclusionsAreDistinct(resolve: Resolver, trigger: StoredDataRef, retained: seq<SuccessfulMatchPair>,
                              exclusions: seq<LineageExclusion>)
    requires AreExclusions(resolve, trigger, retained, exclusions)
    ensures NoDuplicates(exclusions)
  {
    forall i, j | 0 <= i < j < |exclusions| ensures exclusions[i] != exclusions[j] {
      assert ExcludedRefs(exclusions)[i] != ExcludedRefs(exclusions)[j];
    }
  }

  // Everything after the selection.
  method RecordSelected(considered: seq<StoredDataRef>, trigger: StoredDataRef, entries: seq<PrimitiveEntry>,
                        ghost comparisons: seq<DirectionalComparison>, byKey: ByKey, prompt: TrustedPrompt,
                        decisions: seq<ChainingDecision>, ghost resolve: Resolver, scope: Scope,
                        retained: seq<SuccessfulMatchPair>, exclusions: seq<LineageExclusion>,
                        ghost pairs: seq<SuccessfulMatchPair>)
    returns (r: Result<ChainingResult, FinalizeError>)
    requires WorkInputs(considered, trigger, entries, comparisons) && PromptSound(entries, comparisons, prompt)
    requires Covers(decisions, byKey) && byKey == IndexByKey(comparisons) && AllCompared(entries, byKey)
    requires Selected(considered, trigger, resolve, scope.analysisId, decisions, byKey, pairs, retained, exclusions)
    ensures r.Ok? <==> FinalizeSucceeds(considered, trigger, entries, byKey, prompt, decisions, resolve, scope)
    ensures r.Err? ==> FinalizeFault(considered, trigger, entries, byKey, prompt, decisions, resolve, scope, r.error)
    ensures r.Ok? ==> Finalized(considered, trigger, entries, byKey, prompt, decisions, resolve, scope, r.value,
                                pairs, retained)
  {
    var collected := CollectRetained(considered, trigger, entries, byKey, prompt, decisions, resolve,
                                     scope.analysisId, retained, exclusions, pairs);
    if collected.Err? {
      return Err(collected.error);
    }
    r := RecordCollected(considered, trigger, entries, comparisons, byKey, prompt, decisions, resolve, scope, retained,
                         exclusions, pairs, collected.value);
  }

  // ------------------------------------------------------------- the whole step

  // `_finalize` up to the selection: what can be refused before any match is built.
  method SelectDecided(considered: seq<StoredDataRef>, trigger: StoredDataRef, entries: seq<PrimitiveEntry>,
                       byKey: ByKey, ghost prompt: TrustedPrompt, decisions: seq<ChainingDecision>, resolve: Resolver,
                       scope: Scope)
    returns (r: Result<seq<LineageExclusion>, FinalizeError>, retained: seq<SuccessfulMatchPair>)
    requires AllCompared(entries, byKey)
    ensures r.Ok? ==> Covers(decisions, byKey)
    ensures r.Ok? ==> Selected(considered, trigger, resolve, scope.analysisId, decisions, byKey,
                               Successes(decisions, byKey), retained, r.value)
    ensures r.Err? ==>
      && !FinalizeSucceeds(considered, trigger, entries, byKey, prompt, decisions, resolve, scope)
      && FinalizeFault(considered, trigger, entries, byKey, prompt, decisions, resolve, scope, r.error)
  {
    var covered := CheckCoverage(decisions, byKey);
    if !covered {
      return Err(DecisionCoverageMismatch), [];
    }
    var exclusions;
    exclusions, retained := SelectMatches(considered, trigger, byKey, decisions, resolve, scope.analysisId);
    if exclusions.Err? {
      r := Err(SelectionFailed(exclusions.error));
    } else {
      r := Ok(exclusions.value);
    }
  }

  // `_finalize` with its comparisons indexed by key.
  // Succeeds exactly under `FinalizeSucceeds`, and fails with the error the first failed check owns.
  ghost predicate FinalizeOutcome(considered: seq<StoredDataRef>, trigger: StoredDataRef, entries: seq<PrimitiveEntry>,
                                  byKey: ByKey, prompt: TrustedPrompt, decisions: seq<ChainingDecision>,
                                  resolve: Resolver, scope: Scope, r: Result<ChainingResult, FinalizeError>)
    requires AllCompared(entries, byKey)
  {
    && (r.Ok? <==> FinalizeSucceeds(considered, trigger, entries, byKey, prompt, decisions, resolve, scope))
    && (r.Err? ==> FinalizeFault(considered, trigger, entries, byKey, prompt, decisions, resolve, scope, r.error))
  }

  method FinalizeIndexed(considered: seq<StoredDataRef>, trigger: StoredDataRef, entries: seq<PrimitiveEntry>,
                         ghost comparisons: seq<DirectionalComparison>, byKey: ByKey, prompt: TrustedPrompt,
                         decisions: seq<ChainingDecision>, resolve: Resolver, scope: Scope)
    returns (r: Result<ChainingResult, FinalizeError>, retained: seq<SuccessfulMatchPair>)
    requires WorkInputs(considered, trigger, entries, comparisons) && PromptSound(entries, comparisons, prompt)
    requires byKey == IndexByKey(comparisons) && AllCompared(entries, byKey)
    ensures FinalizeOutcome(considered, trigger, entries, byKey, prompt, decisions, resolve, scope, r)
    ensures r.Ok? ==> Finalized(considered, trigger, entries, byKey, prompt, decisions, resolve, scope, r.value,
                                Successes(decisions, byKey), retained)
  {
    var exclusions;
    exclusions, retained := SelectDecided(considered, trigger, entries, byKey, prompt, decisions, resolve, scope);
    if exclusions.Err? {
      r := Err(exclusions.error);
    } else {
      r := RecordSelected(considered, trigger, entries, comparisons, byKey, prompt, decisions, resolve, scope, retained,
                          exclusions.value, Successes(decisions, byKey));
    }
  }

  method FinalizeResult(considered: seq<StoredDataRef>, trigger: StoredDataRef, entries: seq<PrimitiveEntry>,
                        comparisons: seq<DirectionalComparison>, prompt: TrustedPrompt,
                        decisions: seq<ChainingDecision>, resolve: Resolver, scope: Scope)
    returns (r: Result<ChainingResult, FinalizeError>, ghost retained: seq<SuccessfulMatchPair>)
    requires WorkInputs(considered, trigger, entries, comparisons) && PromptSound(entries, comparisons, prompt)
    requires AllCompared(entries, IndexByKey(comparisons))
    ensures FinalizeOutcome(considered, trigger, entries, IndexByKey(comparisons), prompt, decisions, resolve, scope,
                            r)
    ensures r.Ok? ==> Finalized(considered, trigger, entries, IndexByKey(comparisons), prompt, decisions, resolve,
                                scope, r.value, Successes(decisions, IndexByKey(comparisons)), retained)
  {
    var byKey := IndexByKey(comparisons);
    r, retained :=
      FinalizeIndexed(considered, trigger, entries, comparisons, byKey, prompt, decisions, resolve, scope);
  }

  // ------------------------------------------------------ what a finished result says

  // Some kept decision chose this match, and every reference its keys stand for is on the match.
  ghost predicate CarriesDecision(byKey: ByKey, prompt: TrustedPrompt, decisions: seq<ChainingDecision>,
                                  m: MatchCandidate) {
    exists d :: d in decisions && d.outcome == Match && d.comparisonKey in byKey
                && QuestionOfMatch(m) == QuestionOf(byKey[d.comparisonKey])
                && forall ref :: ref in m.evidence <==> CitedBy(prompt, d.evidenceKeys, ref)
  }

  lemma MatchCarriesItsEvidence(considered: seq<StoredDataRef>, trigger: StoredDataRef, entries: seq<PrimitiveEntry>,
                                byKey: ByKey, prompt: TrustedPrompt, decisions: seq<ChainingDecision>,
                                resolve: Resolver, scope: Scope, r: ChainingResult, pairs: seq<SuccessfulMatchPair>,
                                retained: seq<SuccessfulMatchPair>, m: MatchCandidate)
    requires Finalized(considered, trigger, entries, byKey, prompt, decisions, resolve, scope, r, pairs, retained)
    requires m in r.matches
    ensures CarriesDecision(byKey, prompt, decisions, m)
  {
    AnsweredCarries(entries, byKey, prompt, decisions, trigger, Elements(ExcludedRefs(r.exclusions)),
                    Collected(r.matches, r.proposals, r.noMatches), m);
  }

  lemma AnsweredCarries(entries: seq<PrimitiveEntry>, byKey: ByKey, prompt: TrustedPrompt,
                        decisions: seq<ChainingDecision>, trigger: StoredDataRef, excluded: set<StoredDataRef>,
                        out: Collected, m: MatchCandidate)
    requires Answered(entries, byKey, prompt, decisions, trigger, excluded, out) && m in out.matches
    ensures CarriesDecision(byKey, prompt, decisions, m)
  {
    var kept := Kept(decisions, byKey, trigger, excluded, Match);
    var k :| 0 <= k < |out.matches| && out.matches[k] == m;
    assert AnswersMatch(entries, byKey, prompt, kept[k], m, out.proposals[k]);
    KeptDecisions(decisions, byKey, trigger, excluded, Match);
    assert kept[k] in kept;
    MatchOfDecision(entries, byKey, prompt, kept[k], m, out.proposals[k]);
  }

  lemma MatchOfDecision(entries: seq<PrimitiveEntry>, byKey: ByKey, prompt: TrustedPrompt, d: ChainingDecision,
                        m: MatchCandidate, p: HypothesisProposal)
    requires AnswersMatch(entries, byKey, prompt, d, m, p)
    ensures d.comparisonKey in byKey && QuestionOfMatch(m) == QuestionOf(byKey[d.comparisonKey])
    ensures forall ref :: ref in m.evidence <==> CitedBy(prompt, d.evidenceKeys, ref)
  {
  }

  // The reference is one of the records a matched Primitive was admitted with.
  ghost predicate AdmittedWith(entries: seq<PrimitiveEntry>, m: MatchCandidate, x: StoredDataRef) {
    exists e :: e in entries && (e.ref == m.upstream || e.ref == m.downstream)
                && (x == e.primitive.sourceVerificationRef || e.primitive.technicalReviewRef == Some(x))
  }

  lemma {:induction false} SourceHasMatch(entries: seq<PrimitiveEntry>, matches: seq<MatchCandidate>, x: StoredDataRef)
    requires AllListed(entries, matches) && DistinctRefs(entries)
    ensures x in SourceRefs(entries, matches) <==> exists m :: m in matches && AdmittedWith(entries, m, x)
  {
    if matches != [] {
      var m := matches[0];
      assert m in matches && forall n :: n in matches <==> n == m || n in matches[1..];
      SourceHasMatch(entries, matches[1..], x);
      AdmittedByPair(entries, m, x);
    }
  }

  lemma {:induction false} AdmittedByPair(entries: seq<PrimitiveEntry>, m: MatchCandidate, x: StoredDataRef)
    requires Lists(entries, m.upstream) && Lists(entries, m.downstream) && DistinctRefs(entries)
    ensures AdmittedWith(entries, m, x) <==>
      x in SourcesOfPrimitive(EntryFor(entries, m.upstream).primitive)
      || x in SourcesOfPrimitive(EntryFor(entries, m.downstream).primitive)
  {
    var up, down := EntryFor(entries, m.upstream), EntryFor(entries, m.downstream);
    forall e | e in entries && (e.ref == m.upstream || e.ref == m.downstream) ensures e == up || e == down {
      SameEntry(entries, e, if e.ref == m.upstream then up else down);
    }
  }

  // The sources of a result are the verifications and technical reviews of its matched Primitives,
  // and its inputs are those Primitives.
  lemma ResultNamesItsSources(considered: seq<StoredDataRef>, trigger: StoredDataRef, entries: seq<PrimitiveEntry>,
                              byKey: ByKey, prompt: TrustedPrompt, decisions: seq<ChainingDecision>, resolve: Resolver,
                              scope: Scope, r: ChainingResult, pairs: seq<SuccessfulMatchPair>,
                              retained: seq<SuccessfulMatchPair>)
    requires Finalized(considered, trigger, entries, byKey, prompt, decisions, resolve, scope, r, pairs, retained)
    requires DistinctRefs(entries)
    ensures NoDuplicates(r.sourceResultRefs) && NoDuplicates(r.inputRefs)
    ensures forall x :: x in r.sourceResultRefs <==> exists m :: m in r.matches && AdmittedWith(entries, m, x)
    ensures forall x :: x in r.inputRefs <==> exists m :: m in r.matches && (x == m.upstream || x == m.downstream)
  {
    SourcesOfMatches(entries, r.matches, r.sourceResultRefs);
    InputsOfMatches(r.matches, r.inputRefs);
  }

  lemma {:induction false} SourcesOfMatches(entries: seq<PrimitiveEntry>, matches: seq<MatchCandidate>,
                                            sources: seq<StoredDataRef>)
    requires AllListed(entries, matches) && DistinctRefs(entries)
    requires ExactSetOf(sources, SourceRefs(entries, matches))
    ensures forall x :: x in sources <==> exists m :: m in matches && AdmittedWith(entries, m, x)
  {
    forall x ensures x in sources <==> exists m :: m in matches && AdmittedWith(entries, m, x) {
      SourceHasMatch(entries, matches, x);
      assert x in sources <==> x in Elements(sources);
      assert x in SourceRefs(entries, matches) <==> x in Elements(SourceRefs(entries, matches));
    }
  }

  lemma {:induction false} InputsOfMatches(matches: seq<MatchCandidate>, inputs: seq<StoredDataRef>)
    requires Elements(UsedRefs(matches)) == Elements(inputs)
    ensures forall x :: x in inputs <==> exists m :: m in matches && (x == m.upstream || x == m.downstream)
  {
    forall x ensures x in inputs <==> exists m :: m in matches && (x == m.upstream || x == m.downstream) {
      assert x in inputs <==> x in Elements(inputs);
      assert x in UsedRefs(matches) <==> x in Elements(UsedRefs(matches));
      if m :| m in matches && (x == m.upstream || x == m.downstream) {
        var k :| 0 <= k < |matches| && matches[k] == m;
      }
    }
  }
}
