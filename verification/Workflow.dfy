/** One chaining work from its frozen pool to a published result (chaining/service.py,
    storage/chaining_projection.py). */
module Workflow {
  import opened Basics
  import opened Refs
  import opened Reachability
  import opened Primitives
  import opened Matching
  import opened Ownership
  import opened Lineage
  import opened Retention
  import opened Exclusions
  import opened StorageLineage
  import opened StoredExclusions
  import opened Prompt
  import opened Proposals
  import opened Decisions
  import opened DecisionParsing
  import opened Finalize
  import opened Closure
  import opened Finalization

  // The comparisons a work owns fit the prompt builder and `_finalize`.
  lemma {:induction false} OwnedFitTheWork(considered: seq<StoredDataRef>, trigger: StoredDataRef,
                                           entries: seq<PrimitiveEntry>, comparisons: seq<DirectionalComparison>)
    requires Pinned(entries, trigger)
    requires |entries| == |considered| && forall k :: 0 <= k < |entries| ==> entries[k].ref == considered[k]
    requires forall q :: Contains(comparisons, q) ==> AskedInUniverse(EntryFor(entries, trigger), entries, q)
    requires NoRepeatedQuestion(comparisons) && DistinctKeys(comparisons)
    requires forall e :: e in entries ==> WellFormed(e.primitive)
    ensures WorkInputs(considered, trigger, entries, comparisons)
  {
    forall c | c in comparisons
      ensures Answerable(entries, c) && (c.upstream == trigger || c.downstream == trigger)
    {
      var k :| 0 <= k < |comparisons| && comparisons[k] == c;
      assert Contains(comparisons, QuestionOf(c));
      AskedIsAnswerable(trigger, entries, c);
    }
  }

  lemma {:induction false} AskedIsAnswerable(trigger: StoredDataRef, entries: seq<PrimitiveEntry>,
                                             c: DirectionalComparison)
    requires Pinned(entries, trigger)
    requires AskedInUniverse(EntryFor(entries, trigger), entries, QuestionOf(c))
    ensures Answerable(entries, c) && (c.upstream == trigger || c.downstream == trigger)
  {
    var own := EntryFor(entries, trigger);
    var e :| e in entries && e.ref != own.ref && AskedBetween(own, e, QuestionOf(c));
    MemberIsListed(entries, e);
    MemberIsListed(entries, own);
  }

  lemma {:induction false} MemberIsListed(entries: seq<PrimitiveEntry>, e: PrimitiveEntry)
    requires DistinctRefs(entries) && e in entries
    ensures Lists(entries, e.ref) && EntryFor(entries, e.ref) == e
  {
    var k :| 0 <= k < |entries| && entries[k] == e;
    assert entries[k].ref == e.ref;
    SameEntry(entries, EntryFor(entries, e.ref), e);
  }

  datatype WorkError =
    | Ownership(fault: MatchingError)
    | AgentOutput(rejection: ParseError)
    | Finalizing(error: FinalizeError)

  // The selection of a work fails for the lineage of a success, for two successes that tie, or for
  // an ancestor that is the trigger or lies outside the pool. Misplaced pairs never occur.
  ghost predicate WorkSelectionFault(considered: seq<StoredDataRef>, trigger: StoredDataRef,
                                     pairs: seq<SuccessfulMatchPair>, resolve: Resolver, analysisId: string,
                                     error: ChainingError) {
    match error
    case LineageFault(fault) =>
      exists p :: p in pairs && !LineageDefined(resolve, analysisId, Candidate(p, trigger))
        && IsLineageFault(resolve, analysisId, Candidate(p, trigger), fault)
    case PairsNotOrderable => !Orderable(trigger, resolve, pairs)
    case LineageInputMismatch => exists p :: p in pairs && !WellPinned(considered, trigger, resolve, p)
    case _ => false
  }

  // A pair of the pool that holds the trigger once.
  ghost predicate Placed(considered: seq<StoredDataRef>, trigger: StoredDataRef, p: SuccessfulMatchPair) {
    && p.upstream != p.downstream && (p.upstream == trigger || p.downstream == trigger)
    && p.upstream in considered && p.downstream in considered
    && IsPrimitiveRecord(p.upstream) && IsPrimitiveRecord(p.downstream)
  }

  lemma {:induction false} SuccessIsPlaced(considered: seq<StoredDataRef>, trigger: StoredDataRef,
                                           entries: seq<PrimitiveEntry>, comparisons: seq<DirectionalComparison>,
                                           decisions: seq<ChainingDecision>, p: SuccessfulMatchPair)
    requires WorkInputs(considered, trigger, entries, comparisons)
    requires Succeeded(decisions, IndexByKey(comparisons), p)
    ensures Placed(considered, trigger, p)
  {
    var byKey := IndexByKey(comparisons);
    var k :| 0 <= k < |decisions| && decisions[k].outcome == Match
      && decisions[k].comparisonKey in byKey && PairOf(byKey[decisions[k].comparisonKey]) == p;
    var c := byKey[decisions[k].comparisonKey];
    ComparedIsListed(considered, trigger, entries, comparisons, c);
    var up, down := EntryFor(entries, c.upstream), EntryFor(entries, c.downstream);
    assert WellFormed(up.primitive) && WellFormed(down.primitive);
  }

  lemma PlacedPairFault(considered: seq<StoredDataRef>, trigger: StoredDataRef, pairs: seq<SuccessfulMatchPair>,
                        resolve: Resolver, analysisId: string, error: ChainingError, i: nat)
    requires NoDuplicates(pairs) && i < |pairs| && Placed(considered, trigger, pairs[i])
    requires PairFaultAt(considered, trigger, pairs, resolve, analysisId, error, i)
    ensures error.LineageFault? && WorkSelectionFault(considered, trigger, pairs, resolve, analysisId, error)
  {
    assert !Misplaced(considered, trigger, pairs[..i], pairs[i]);
    assert pairs[i] in pairs;
  }

  lemma SelectionFaultOfWork(considered: seq<StoredDataRef>, trigger: StoredDataRef, pairs: seq<SuccessfulMatchPair>,
                             resolve: Resolver, analysisId: string, error: ChainingError)
    requires NoDuplicates(considered) && trigger in considered && NoDuplicates(pairs)
    requires forall p :: p in pairs ==> Placed(considered, trigger, p)
    requires SelectionFault(considered, trigger, pairs, resolve, analysisId, error)
    ensures WorkSelectionFault(considered, trigger, pairs, resolve, analysisId, error)
  {
    if !AllEligible(considered, trigger, pairs, resolve, analysisId) {
      var i: nat :| PairFaultAt(considered, trigger, pairs, resolve, analysisId, error, i);
      assert pairs[i] in pairs;
      PlacedPairFault(considered, trigger, pairs, resolve, analysisId, error, i);
    }
  }

  lemma ConsideredIsDistinct(considered: seq<StoredDataRef>, trigger: StoredDataRef, entries: seq<PrimitiveEntry>,
                             comparisons: seq<DirectionalComparison>)
    requires WorkInputs(considered, trigger, entries, comparisons)
    ensures NoDuplicates(considered) && trigger in considered
  {
    ListedIsConsidered(considered, entries, trigger);
  }

  // What finalization can still refuse once the agent's answer has been parsed.
  ghost predicate Residual(considered: seq<StoredDataRef>, trigger: StoredDataRef, byKey: ByKey,
                           decisions: seq<ChainingDecision>, resolve: Resolver, analysisId: string,
                           error: FinalizeError) {
    match error
    case SelectionFailed(fault) =>
      WorkSelectionFault(considered, trigger, Successes(decisions, byKey), resolve, analysisId, fault)
    case ProposalFailed(_) => LeftAfterParsing(error)
    case ResultRecordInvalid => true
    case ClosureInvalid => true
    case _ => false
  }

  lemma {:induction false} OtherFaultsAreExcluded(considered: seq<StoredDataRef>, trigger: StoredDataRef,
                                                  entries: seq<PrimitiveEntry>, comparisons: seq<DirectionalComparison>,
                                                  prompt: TrustedPrompt, decisions: seq<ChainingDecision>,
                                                  resolve: Resolver, scope: Scope, error: FinalizeError)
    requires WorkInputs(considered, trigger, entries, comparisons) && PromptSound(entries, comparisons, prompt)
    requires Parsable(prompt, decisions) && AllCompared(entries, IndexByKey(comparisons))
    requires FinalizeFault(considered, trigger, entries, IndexByKey(comparisons), prompt, decisions, resolve, scope,
                           error)
    ensures Residual(considered, trigger, IndexByKey(comparisons), decisions, resolve, scope.analysisId, error)
  {
    var byKey := IndexByKey(comparisons);
    var pairs := Successes(decisions, byKey);
    ParsedDecisionsCover(entries, comparisons, prompt, decisions);
    ParsedFaults(entries, comparisons, prompt, byKey, trigger, Overtaken(resolve, trigger, pairs), decisions);
    if !RetentionSucceeds(considered, trigger, pairs, resolve, scope.analysisId) {
      ConsideredIsDistinct(considered, trigger, entries, comparisons);
      forall p | p in pairs ensures Placed(considered, trigger, p) {
        SuccessIsPlaced(considered, trigger, entries, comparisons, decisions, p);
      }
      SelectionFaultOfWork(considered, trigger, pairs, resolve, scope.analysisId, error.error);
    }
  }

  // `parse_chaining_output` on the agent's unchecked answer.
  method ParseAnswer(prompt: TrustedPrompt, content: seq<ChainingDecision>)
    returns (r: Result<seq<ChainingDecision>, WorkError>)
    ensures r.Ok? <==> Parsable(prompt, content)
    ensures r.Ok? ==> r.value == content
    ensures r.Err? ==> r.error.AgentOutput? && ParseFault(prompt, content, r.error.rejection)
  {
    var parsed := ParseDecisions(prompt, content);
    if parsed.Err? {
      return Err(AgentOutput(parsed.error));
    }
    return Ok(parsed.value);
  }

  // The comparisons are exactly the questions of the pool that the work owns.
  ghost predicate ListsOwned(considered: seq<StoredDataRef>, trigger: StoredDataRef, entries: seq<PrimitiveEntry>,
                             port: HistoryPort, comparisons: seq<DirectionalComparison>)
    requires Lists(entries, trigger)
  {
    forall q :: Contains(comparisons, q) <==>
      AskedInUniverse(EntryFor(entries, trigger), entries, q)
      && OwnsEntry(port, trigger, considered, Other(trigger, q))
  }

  // What `execute` hands on once the work knows which comparisons it owns.
  ghost predicate Prepared(considered: seq<StoredDataRef>, trigger: StoredDataRef, entries: seq<PrimitiveEntry>,
                           port: HistoryPort, comparisons: seq<DirectionalComparison>, prompt: TrustedPrompt) {
    && Pinned(entries, trigger)
    && ListsOwned(considered, trigger, entries, port, comparisons)
    && WorkInputs(considered, trigger, entries, comparisons) && AllCompared(entries, IndexByKey(comparisons))
    && (forall c :: c in comparisons ==> IsComparisonKey(c.comparisonKey))
    && PromptSound(entries, comparisons, prompt) && AgentInputValid(prompt)
  }

  // The owned comparisons and the prompt about them.
  method PrepareWork(considered: seq<StoredDataRef>, trigger: StoredDataRef, entries: seq<PrimitiveEntry>,
                     port: HistoryPort)
    returns (r: Result<(seq<DirectionalComparison>, TrustedPrompt), MatchingError>)
    requires |entries| == |considered| && forall k :: 0 <= k < |entries| ==> entries[k].ref == considered[k]
    requires forall e :: e in entries ==> WellFormed(e.primitive)
    ensures r.Ok? <==> Ownable(port, trigger, considered, entries)
    ensures r.Err? ==> OwnershipFault(port, trigger, considered, entries, r.error)
    ensures r.Ok? ==> Prepared(considered, trigger, entries, port, r.value.0, r.value.1)
  {
    var owned := OwnedComparisons(trigger, considered, entries, port);
    if owned.Err? {
      return Err(owned.error);
    }
    OwnedFitTheWork(considered, trigger, entries, owned.value);
    WorkIsCompared(considered, trigger, entries, owned.value);
    var prompt, naming := BuildPrompt(entries, owned.value);
    PromptIsAccepted(entries, owned.value, prompt);
    return Ok((owned.value, prompt));
  }

  // What a prepared work raises for this answer of the agent.
  ghost predicate AnswerFault(considered: seq<StoredDataRef>, trigger: StoredDataRef, entries: seq<PrimitiveEntry>,
                              comparisons: seq<DirectionalComparison>, prompt: TrustedPrompt,
                              content: seq<ChainingDecision>, resolve: Resolver, scope: Scope, error: WorkError)
    requires AllCompared(entries, IndexByKey(comparisons))
  {
    var byKey := IndexByKey(comparisons);
    match error
    case Ownership(_) => false
    case AgentOutput(rejection) => !Parsable(prompt, content) && ParseFault(prompt, content, rejection)
    case Finalizing(fault) =>
      && Parsable(prompt, content)
      && FinalizeFault(considered, trigger, entries, byKey, prompt, content, resolve, scope, fault)
      && Residual(considered, trigger, byKey, content, resolve, scope.analysisId, fault)
  }

  // Parsing and `_finalize` on a prepared work.
  method AnswerWork(considered: seq<StoredDataRef>, trigger: StoredDataRef, entries: seq<PrimitiveEntry>,
                    ghost port: HistoryPort, comparisons: seq<DirectionalComparison>, prompt: TrustedPrompt,
                    content: seq<ChainingDecision>, resolve: Resolver, scope: Scope)
    returns (r: Result<ChainingResult, WorkError>, ghost retained: seq<SuccessfulMatchPair>)
    requires Prepared(considered, trigger, entries, port, comparisons, prompt)
    ensures r.Ok? <==>
      Parsable(prompt, content)
      && FinalizeSucceeds(considered, trigger, entries, IndexByKey(comparisons), prompt, content, resolve, scope)
    ensures r.Ok? ==> Finalized(considered, trigger, entries, IndexByKey(comparisons), prompt, content, resolve,
                                scope, r.value, Successes(content, IndexByKey(comparisons)), retained)
    ensures r.Err? ==> AnswerFault(considered, trigger, entries, comparisons, prompt, content, resolve, scope, r.error)
  {
    retained := [];
    var parsed := ParseAnswer(prompt, content);
    if parsed.Err? {
      r := Err(parsed.error);
      return;
    }
    var result;
    result, retained :=
      FinalizeResult(considered, trigger, entries, comparisons, prompt, parsed.value, resolve, scope);
    if result.Err? {
      OtherFaultsAreExcluded(considered, trigger, entries, comparisons, prompt, content, resolve, scope, result.error);
      r := Err(Finalizing(result.error));
    } else {
      r := Ok(result.value);
    }
  }

  // `execute` with the agent call as a value: `content` is what the agent answers.
  method ExecuteWork(considered: seq<StoredDataRef>, trigger: StoredDataRef, entries: seq<PrimitiveEntry>,
                     port: HistoryPort, content: seq<ChainingDecision>, resolve: Resolver, scope: Scope)
    returns (r: Result<ChainingResult, WorkError>, ghost comparisons: seq<DirectionalComparison>,
             ghost prompt: TrustedPrompt, ghost retained: seq<SuccessfulMatchPair>)
    requires |entries| == |considered| && forall k :: 0 <= k < |entries| ==> entries[k].ref == considered[k]
    requires forall e :: e in entries ==> WellFormed(e.primitive)
    ensures Ownable(port, trigger, considered, entries) ==>
      Prepared(considered, trigger, entries, port, comparisons, prompt)
    ensures r.Ok? <==>
      Ownable(port, trigger, considered, entries) && Parsable(prompt, content)
      && FinalizeSucceeds(considered, trigger, entries, IndexByKey(comparisons), prompt, content, resolve, scope)
    ensures r.Ok? ==> Finalized(considered, trigger, entries, IndexByKey(comparisons), prompt, content, resolve,
                                scope, r.value, Successes(content, IndexByKey(comparisons)), retained)
    ensures r.Err? && !Ownable(port, trigger, considered, entries) ==>
      r.error.Ownership? && OwnershipFault(port, trigger, considered, entries, r.error.fault)
    ensures r.Err? && Ownable(port, trigger, considered, entries) ==>
      AnswerFault(considered, trigger, entries, comparisons, prompt, content, resolve, scope, r.error)
  {
    comparisons, retained, prompt := [], [], TrustedPrompt([], [], [], map[], map[]);
    var prepared := PrepareWork(considered, trigger, entries, port);
    if prepared.Err? {
      r := Err(Ownership(prepared.error));
      return;
    }
    comparisons, prompt := prepared.value.0, prepared.value.1;
    r, retained := AnswerWork(considered, trigger, entries, port, prepared.value.0, prepared.value.1, content, resolve,
                              scope);
  }

  // A completed work fails when one of its matches names a vulnerability type twice. The parser
  // lets the answer through; the proposal record refuses it.
  lemma RepeatedTypeFailsTheWork(considered: seq<StoredDataRef>, trigger: StoredDataRef, entries: seq<PrimitiveEntry>,
                                 comparisons: seq<DirectionalComparison>, prompt: TrustedPrompt,
                                 content: seq<ChainingDecision>, resolve: Resolver, scope: Scope, k: nat)
    requires AllCompared(entries, IndexByKey(comparisons)) && Parsable(prompt, content)
    requires FinalizeSucceeds(considered, trigger, entries, IndexByKey(comparisons), prompt, content, resolve, scope)
    requires k < |content| && content[k].outcome == Match && content[k].child.Some?
    requires !OnExcluded(content[k], IndexByKey(comparisons), trigger,
                         Overtaken(resolve, trigger, Successes(content, IndexByKey(comparisons))))
    ensures var twice := content[k := WithTypes(content[k], ["XSS", "XSS"])];
      && Parsable(prompt, twice)
      && forall error ::
        FinalizeFault(considered, trigger, entries, IndexByKey(comparisons), prompt, twice, resolve, scope, error)
        <==> error == ProposalFailed(RepeatedType)
  {
    var byKey, d := IndexByKey(comparisons), content[k];
    var twice := content[k := WithTypes(d, ["XSS", "XSS"])];
    assert d in content;
    CoveredKey(content, byKey, k);
    assert DecisionKeys(twice) == DecisionKeys(content);
    SameSuccesses(content, twice, byKey);
    RepeatedTypeFails(content, k, byKey, trigger, Overtaken(resolve, trigger, Successes(content, byKey)), entries,
                      prompt);
    forall e | e in twice ensures Decodable(e) && SelectsEvidence(prompt, e) && WellShaped(e) {
      RepeatedTypeParses(prompt, d);
      assert e in content || e == WithTypes(d, ["XSS", "XSS"]);
    }
  }

  // ------------------------------------------------- evidence stays in the pair

  lemma {:induction false} MatchesCiteTheirPair(considered: seq<StoredDataRef>, trigger: StoredDataRef,
                                                entries: seq<PrimitiveEntry>, comparisons: seq<DirectionalComparison>,
                                                prompt: TrustedPrompt, decisions: seq<ChainingDecision>,
                                                resolve: Resolver, scope: Scope, r: ChainingResult,
                                                pairs: seq<SuccessfulMatchPair>, retained: seq<SuccessfulMatchPair>,
                                                m: MatchCandidate, ref: StoredDataRef)
    requires WorkInputs(considered, trigger, entries, comparisons) && PromptSound(entries, comparisons, prompt)
    requires Finalized(considered, trigger, entries, IndexByKey(comparisons), prompt, decisions, resolve,
                       scope, r, pairs, retained)
    requires m in r.matches && ref in m.evidence
    ensures Lists(entries, m.upstream) && Lists(entries, m.downstream)
    ensures ref in Cited(EntryFor(entries, m.upstream).primitive)
         || ref in Cited(EntryFor(entries, m.downstream).primitive)
  {
    var byKey, ex := IndexByKey(comparisons), Elements(ExcludedRefs(r.exclusions));
    var kept := Kept(decisions, byKey, trigger, ex, Match);
    var k :| 0 <= k < |r.matches| && r.matches[k] == m;
    assert AnswersMatch(entries, byKey, prompt, kept[k], m, r.proposals[k]);
    var c := byKey[kept[k].comparisonKey];
    MatchEvidenceIsCited(entries, comparisons, prompt, c, kept[k], EntryFor(entries, c.upstream).primitive,
                         EntryFor(entries, c.downstream).primitive, m, ref);
  }

  // --------------------------------------------------------- storage's opinion

  // Storage can always derive its own exclusions from a finalized result.
  lemma StorageDerives(store: Provenance, considered: seq<StoredDataRef>, trigger: StoredDataRef, resolve: Resolver,
                       scope: Scope, pairs: seq<SuccessfulMatchPair>, retained: seq<SuccessfulMatchPair>,
                       m: SuccessfulMatchPair)
    requires IsPortResolver(resolve, store, Elements(considered), scope)
    requires RetentionSucceeds(considered, trigger, pairs, resolve, scope.analysisId)
    requires IsRetention(resolve, trigger, pairs, retained) && m in retained
    ensures MatchAcceptable(store, Elements(considered), trigger, PairRefs(retained), m)
    ensures forall y :: y in AncestorSet(resolve, Candidate(m, trigger)) <==>
      Descends(Sources(store), Candidate(m, trigger), y)
  {
    var c := Candidate(m, trigger);
    assert Eligible(considered, trigger, resolve, scope.analysisId, m);
    TraversalOverPort(resolve, store, Elements(considered), scope, c);
    ReachesSelf(Sources(store), c);
    RetainedRefsAreClear(considered, trigger, pairs, retained, resolve, scope.analysisId, m);
  }

  // Storage accepts the recorded exclusions exactly when no two different matched
  // candidates share an ancestor.
  lemma StorageAcceptsIff(store: Provenance, considered: seq<StoredDataRef>, trigger: StoredDataRef, resolve: Resolver,
                          scope: Scope, pairs: seq<SuccessfulMatchPair>, retained: seq<SuccessfulMatchPair>,
                          matched: seq<SuccessfulMatchPair>, recorded: seq<LineageExclusion>,
                          expected: seq<LineageExclusion>)
    requires IsPortResolver(resolve, store, Elements(considered), scope)
    requires RetentionSucceeds(considered, trigger, pairs, resolve, scope.analysisId)
    requires IsRetention(resolve, trigger, pairs, retained) && AreExclusions(resolve, trigger, retained, recorded)
    requires forall p :: p in retained <==> p in matched
    requires forall e :: e in expected <==> Blames(store, trigger, matched, e)
    ensures forall p :: p in matched ==>
      MatchAcceptable(store, Elements(considered), trigger, PairRefs(retained), p)
    ensures ExactSet(recorded, expected) <==> NoSharedAncestor(resolve, trigger, retained)
  {
    forall p | p in retained
      ensures MatchAcceptable(store, Elements(considered), trigger, PairRefs(retained), p)
      ensures forall y :: y in AncestorSet(resolve, Candidate(p, trigger)) <==>
        Descends(Sources(store), Candidate(p, trigger), y)
    {
      StorageDerives(store, considered, trigger, resolve, scope, pairs, retained, p);
    }
    RecordedMatchesStored(resolve, store, trigger, retained, matched, recorded, expected);
  }

  lemma {:induction false} UsedRefsArePairRefs(matches: seq<MatchCandidate>, retained: seq<SuccessfulMatchPair>)
    requires forall p :: p in retained <==> p in MatchedPairsOf(matches)
    ensures Elements(UsedRefs(matches)) == PairRefs(retained)
  {
    forall x | x in UsedRefs(matches) ensures x in PairRefs(retained) {
      var k :| 0 <= k < |matches| && (x == matches[k].upstream || x == matches[k].downstream);
      assert MatchedPairsOf(matches)[k] in retained;
    }
    forall p | p in retained ensures p.upstream in UsedRefs(matches) && p.downstream in UsedRefs(matches) {
      var k :| 0 <= k < |matches| && MatchedPairsOf(matches)[k] == p;
    }
  }

  // The exclusion part of storage's check of a submitted result.
  method StorageChecksExclusions(considered: seq<StoredDataRef>, trigger: StoredDataRef, r: ChainingResult,
                                 store: Provenance, ghost entries: seq<PrimitiveEntry>, ghost byKey: ByKey,
                                 ghost prompt: TrustedPrompt, ghost decisions: seq<ChainingDecision>,
                                 ghost resolve: Resolver, ghost scope: Scope, ghost pairs: seq<SuccessfulMatchPair>,
                                 ghost retained: seq<SuccessfulMatchPair>)
    returns (accepted: bool)
    requires IsPortResolver(resolve, store, Elements(considered), scope)
    requires Finalized(considered, trigger, entries, byKey, prompt, decisions, resolve, scope, r, pairs,
                       retained)
    ensures accepted <==> NoSharedAncestor(resolve, trigger, retained)
  {
    var matched := MatchedPairsOf(r.matches);
    UsedRefsArePairRefs(r.matches, retained);
    forall p | p in matched ensures MatchAcceptable(store, Elements(considered), trigger, Elements(r.inputRefs), p) {
      StorageDerives(store, considered, trigger, resolve, scope, pairs, retained, p);
    }
    var expected := StoredExpectedExclusions(matched, Elements(r.inputRefs), r.considered, trigger, store);
    if expected.Err? {
      assert false;
    }
    StorageAcceptsIff(store, considered, trigger, resolve, scope, pairs, retained, matched, r.exclusions,
                      expected.value);
    SameElements(r.exclusions, expected.value);
    return ExactSetOf(r.exclusions, expected.value);
  }

  lemma SameElements(a: seq<LineageExclusion>, b: seq<LineageExclusion>)
    ensures ExactSetOf(a, b) <==> ExactSet(a, b)
  {
    if ExactSetOf(a, b) {
      forall x ensures x in a <==> x in b {
        assert x in Elements(a) <==> x in Elements(b);
      }
    }
  }
}
