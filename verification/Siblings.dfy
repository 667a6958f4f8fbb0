/** Runs that `_finalize` completes, and when storage refuses them: one trigger matches two Primitives
    with a common ancestor (chaining/service.py, storage/chaining_projection.py). */
module Siblings {
  import opened Basics
  import opened Refs
  import opened Reachability
  import opened Primitives
  import opened Matching
  import opened Ownership
  import opened Lineage
  import opened Retention
  import opened Exclusions
  import opened StorageLineage
  import opened StoredExclusions
  import opened Prompt
  import opened Proposals
  import opened Decisions
  import opened DecisionParsing
  import opened Finalize
  import opened Closure
  import opened Finalization
  import opened Workflow
  import opened Answers

  // Two candidates of a pool that share an ancestor, none of them above the other or above `t`.
  ghost predicate Kin(resolve: Resolver, considered: seq<StoredDataRef>, analysisId: string, t: StoredDataRef,
                      x: StoredDataRef, y: StoredDataRef) {
    && x in considered && y in considered && x.recordId != y.recordId && t != x && t != y
    && LineageDefined(resolve, analysisId, x) && LineageDefined(resolve, analysisId, y)
    && AncestorSet(resolve, x) + AncestorSet(resolve, y) <= Elements(considered) - {t, x, y}
    && AncestorSet(resolve, x) * AncestorSet(resolve, y) != {}
  }

  // When the trigger matches two kin, retention keeps both, and they share an ancestor.
  lemma KinStayApart(considered: seq<StoredDataRef>, t: StoredDataRef, x: StoredDataRef, y: StoredDataRef,
                     resolve: Resolver, analysisId: string)
    requires NoDuplicates(considered) && t in considered
    requires forall ref :: ref in considered ==> IsPrimitiveRecord(ref)
    requires Kin(resolve, considered, analysisId, t, x, y)
    ensures RetentionSucceeds(considered, t, [SuccessfulMatchPair(t, x), SuccessfulMatchPair(t, y)], resolve,
                              analysisId)
    ensures forall retained ::
      IsRetention(resolve, t, [SuccessfulMatchPair(t, x), SuccessfulMatchPair(t, y)], retained) ==>
      !NoSharedAncestor(resolve, t, retained)
  {
    var p, q := SuccessfulMatchPair(t, x), SuccessfulMatchPair(t, y);
    TwoApart(considered, t, p, q, resolve, analysisId);
    var a :| a in AncestorSet(resolve, x) * AncestorSet(resolve, y);
    forall retained | IsRetention(resolve, t, [p, q], retained) ensures !NoSharedAncestor(resolve, t, retained) {
      TwoKept(t, p, q, resolve, retained, a);
    }
  }

  // Two eligible successes with different candidates pass every check of the selection.
  lemma TwoApart(considered: seq<StoredDataRef>, t: StoredDataRef, p: SuccessfulMatchPair, q: SuccessfulMatchPair,
                 resolve: Resolver, analysisId: string)
    requires NoDuplicates(considered) && t in considered
    requires Eligible(considered, t, resolve, analysisId, p) && WellPinned(considered, t, resolve, p)
    requires Eligible(considered, t, resolve, analysisId, q) && WellPinned(considered, t, resolve, q)
    requires Candidate(p, t).recordId != Candidate(q, t).recordId
    ensures RetentionSucceeds(considered, t, [p, q], resolve, analysisId)
  {
    assert RankOf(resolve, t, p).candidateId != RankOf(resolve, t, q).candidateId;
    assert p != q;
    assert NoDuplicates([p, q]);
    assert forall m :: m in [p, q] <==> m == p || m == q;
  }

  // If neither candidate is an ancestor of the other, both successes stay.
  lemma TwoKept(t: StoredDataRef, p: SuccessfulMatchPair, q: SuccessfulMatchPair, resolve: Resolver,
                retained: seq<SuccessfulMatchPair>, a: StoredDataRef)
    requires Candidate(p, t) != Candidate(q, t)
    requires Candidate(p, t) !in AncestorSet(resolve, Candidate(p, t)) + AncestorSet(resolve, Candidate(q, t))
    requires Candidate(q, t) !in AncestorSet(resolve, Candidate(p, t)) + AncestorSet(resolve, Candidate(q, t))
    requires a in AncestorSet(resolve, Candidate(p, t)) && a in AncestorSet(resolve, Candidate(q, t))
    requires IsRetention(resolve, t, [p, q], retained)
    ensures !NoSharedAncestor(resolve, t, retained)
  {
    assert forall m :: m in [p, q] <==> m == p || m == q;
    assert Maximal(resolve, t, [p, q], p) && Maximal(resolve, t, [p, q], q);
    assert p in retained && q in retained;
  }

  // ------------------------------------------------------------- runs of a chosen answer

  // Only the set of successes matters to the selection.
  lemma SamePairsSucceed(considered: seq<StoredDataRef>, trigger: StoredDataRef, pairs: seq<SuccessfulMatchPair>,
                         others: seq<SuccessfulMatchPair>, resolve: Resolver, analysisId: string)
    requires NoDuplicates(others) && forall p :: p in pairs <==> p in others
    requires RetentionSucceeds(considered, trigger, pairs, resolve, analysisId)
    ensures RetentionSucceeds(considered, trigger, others, resolve, analysisId)
    ensures forall retained ::
      IsRetention(resolve, trigger, others, retained) ==> IsRetention(resolve, trigger, pairs, retained)
  {
    forall p ensures Maximal(resolve, trigger, others, p) <==> Maximal(resolve, trigger, pairs, p) {
    }
  }

  lemma ConsideredAreRecords(considered: seq<StoredDataRef>, trigger: StoredDataRef, entries: seq<PrimitiveEntry>,
                             comparisons: seq<DirectionalComparison>)
    requires WorkInputs(considered, trigger, entries, comparisons)
    ensures forall ref :: ref in considered ==> IsPrimitiveRecord(ref)
  {
    forall ref | ref in considered ensures IsPrimitiveRecord(ref) {
      var k :| 0 <= k < |considered| && considered[k] == ref;
      assert entries[k] in entries && WellFormed(entries[k].primitive);
    }
  }

  // The work with the answer that matches the chosen pairs, and storage's opinion of its result.
  method RunChoice(considered: seq<StoredDataRef>, t: StoredDataRef, entries: seq<PrimitiveEntry>,
                   ghost port: HistoryPort, comparisons: seq<DirectionalComparison>, prompt: TrustedPrompt,
                   store: Provenance, resolve: Resolver, scope: Scope, chosen: set<SuccessfulMatchPair>)
    returns (r: Result<ChainingResult, WorkError>, accepted: bool, ghost retained: seq<SuccessfulMatchPair>)
    requires Prepared(considered, t, entries, port, comparisons, prompt)
    requires forall c :: c in comparisons ==> Lists(entries, c.upstream)
    requires forall p :: p in chosen ==> CompatiblePair(entries, p) && PairNamesEntity(entries, p)
    requires RetentionSucceeds(considered, t,
                               Successes(AnswersTo(entries, comparisons, chosen), IndexByKey(comparisons)), resolve,
                               scope.analysisId)
    requires IsPortResolver(resolve, store, Elements(considered), scope)
    requires OwnAnalysis(entries, scope.analysisId) && InWorkspace(t, scope)
    ensures r.Ok?
    ensures forall p :: p in retained <==> p in MatchedPairsOf(r.value.matches)
    ensures IsRetention(resolve, t, Successes(AnswersTo(entries, comparisons, chosen), IndexByKey(comparisons)),
                        retained)
    ensures accepted <==> NoSharedAncestor(resolve, t, retained)
  {
    AnswersSucceed(considered, t, entries, port, comparisons, prompt, resolve, scope, chosen);
    var content := AnswersTo(entries, comparisons, chosen);
    r, retained := AnswerWork(considered, t, entries, port, comparisons, prompt, content, resolve, scope);
    accepted := StorageChecksExclusions(considered, t, r.value, store, entries, IndexByKey(comparisons), prompt,
                                        content, resolve, scope, Successes(content, IndexByKey(comparisons)), retained);
  }

  ghost predicate PairFits(entries: seq<PrimitiveEntry>, t: StoredDataRef, x: StoredDataRef) {
    CompatiblePair(entries, SuccessfulMatchPair(t, x)) && PairNamesEntity(entries, SuccessfulMatchPair(t, x))
  }

  lemma BothFit(entries: seq<PrimitiveEntry>, t: StoredDataRef, x: StoredDataRef, y: StoredDataRef)
    requires PairFits(entries, t, x) && PairFits(entries, t, y)
    ensures forall p :: p in BothPairs(t, x, y) ==> CompatiblePair(entries, p) && PairNamesEntity(entries, p)
  {
  }

  // The work of `t` owns a comparison of its result with an input of `x`.
  ghost predicate MayChain(considered: seq<StoredDataRef>, t: StoredDataRef, entries: seq<PrimitiveEntry>,
                           port: HistoryPort, x: StoredDataRef)
    requires Lists(entries, t)
  {
    OwnsEntry(port, t, considered, x)
    && exists input :: AskedInUniverse(EntryFor(entries, t), entries, Question(t, x, input))
  }

  lemma ChainedIsCompared(considered: seq<StoredDataRef>, t: StoredDataRef, entries: seq<PrimitiveEntry>,
                          port: HistoryPort, comparisons: seq<DirectionalComparison>, x: StoredDataRef)
    requires Lists(entries, t) && ListsOwned(considered, t, entries, port, comparisons)
    requires MayChain(considered, t, entries, port, x)
    ensures exists c :: c in comparisons && PairOf(c) == SuccessfulMatchPair(t, x)
  {
    var input :| AskedInUniverse(EntryFor(entries, t), entries, Question(t, x, input));
    assert Other(t, Question(t, x, input)) == x;
    assert Contains(comparisons, Question(t, x, input));
    var k :| 0 <= k < |comparisons| && QuestionOf(comparisons[k]) == Question(t, x, input);
    assert comparisons[k] in comparisons && PairOf(comparisons[k]) == SuccessfulMatchPair(t, x);
  }

  lemma ComparedUpstream(considered: seq<StoredDataRef>, t: StoredDataRef, entries: seq<PrimitiveEntry>,
                         comparisons: seq<DirectionalComparison>)
    requires WorkInputs(considered, t, entries, comparisons)
    ensures forall c :: c in comparisons ==> Lists(entries, c.upstream)
  {
    forall c | c in comparisons ensures Lists(entries, c.upstream) {
      assert Answerable(entries, c);
    }
  }

  function BothPairs(t: StoredDataRef, x: StoredDataRef, y: StoredDataRef): (pairs: set<SuccessfulMatchPair>)
    ensures forall p :: p in pairs <==> p == SuccessfulMatchPair(t, x) || p == SuccessfulMatchPair(t, y)
  {
    {SuccessfulMatchPair(t, x), SuccessfulMatchPair(t, y)}
  }

  lemma KinPairs(considered: seq<StoredDataRef>, t: StoredDataRef, x: StoredDataRef, y: StoredDataRef,
                 pairs: seq<SuccessfulMatchPair>, resolve: Resolver, analysisId: string)
    requires NoDuplicates(considered) && t in considered && NoDuplicates(pairs)
    requires forall ref :: ref in considered ==> IsPrimitiveRecord(ref)
    requires Kin(resolve, considered, analysisId, t, x, y)
    requires forall m :: m in pairs <==> m == SuccessfulMatchPair(t, x) || m == SuccessfulMatchPair(t, y)
    ensures RetentionSucceeds(considered, t, pairs, resolve, analysisId)
    ensures forall retained :: IsRetention(resolve, t, pairs, retained) ==> !NoSharedAncestor(resolve, t, retained)
  {
    var p, q := SuccessfulMatchPair(t, x), SuccessfulMatchPair(t, y);
    KinStayApart(considered, t, x, y, resolve, analysisId);
    assert forall m :: m in [p, q] <==> m == p || m == q;
    SamePairsSucceed(considered, t, [p, q], pairs, resolve, analysisId);
  }

  // The answer's successes are the two pairs, so the selection keeps both.
  lemma {:induction false} KinSelected(considered: seq<StoredDataRef>, t: StoredDataRef, entries: seq<PrimitiveEntry>,
                                       comparisons: seq<DirectionalComparison>, resolve: Resolver, analysisId: string,
                                       x: StoredDataRef, y: StoredDataRef)
    requires WorkInputs(considered, t, entries, comparisons) && Kin(resolve, considered, analysisId, t, x, y)
    requires forall c :: c in comparisons ==> Lists(entries, c.upstream)
    requires exists c :: c in comparisons && PairOf(c) == SuccessfulMatchPair(t, x)
    requires exists c :: c in comparisons && PairOf(c) == SuccessfulMatchPair(t, y)
    ensures var pairs := Successes(AnswersTo(entries, comparisons, BothPairs(t, x, y)), IndexByKey(comparisons));
      && RetentionSucceeds(considered, t, pairs, resolve, analysisId)
      && forall retained :: IsRetention(resolve, t, pairs, retained) ==> !NoSharedAncestor(resolve, t, retained)
  {
    var pairs := Successes(AnswersTo(entries, comparisons, BothPairs(t, x, y)), IndexByKey(comparisons));
    ConsideredIsDistinct(considered, t, entries, comparisons);
    ConsideredAreRecords(considered, t, entries, comparisons);
    forall m ensures m in pairs <==> m == SuccessfulMatchPair(t, x) || m == SuccessfulMatchPair(t, y) {
      AnswersChoose(entries, comparisons, BothPairs(t, x, y), m);
    }
    KinPairs(considered, t, x, y, pairs, resolve, analysisId);
  }

  // The pool is well pinned, its records are valid, and the work can compare `t` with `x`.
  ghost predicate Workable(considered: seq<StoredDataRef>, t: StoredDataRef, entries: seq<PrimitiveEntry>,
                           port: HistoryPort, scope: Scope, x: StoredDataRef) {
    && RefsMatch(considered, entries) && (forall e :: e in entries ==> WellFormed(e.primitive))
    && Ownable(port, t, considered, entries) && MayChain(considered, t, entries, port, x) && PairFits(entries, t, x)
    && OwnAnalysis(entries, scope.analysisId) && InWorkspace(t, scope)
  }

  ghost predicate RefsMatch(considered: seq<StoredDataRef>, entries: seq<PrimitiveEntry>) {
    |entries| == |considered| && forall k :: 0 <= k < |entries| ==> entries[k].ref == considered[k]
  }

  // Whenever the work of a trigger owns comparisons with two kin, an agent can answer so that the
  // work completes with a result that storage refuses.
  method RefusedRun(considered: seq<StoredDataRef>, t: StoredDataRef, entries: seq<PrimitiveEntry>, port: HistoryPort,
                    store: Provenance, resolve: Resolver, scope: Scope, x: StoredDataRef, y: StoredDataRef)
    returns (r: Result<ChainingResult, WorkError>, accepted: bool)
    requires Workable(considered, t, entries, port, scope, x) && Workable(considered, t, entries, port, scope, y)
    requires IsPortResolver(resolve, store, Elements(considered), scope)
    requires Kin(resolve, considered, scope.analysisId, t, x, y)
    ensures r.Ok? && !accepted
  {
    var prepared := PrepareWork(considered, t, entries, port);
    ChainedIsCompared(considered, t, entries, port, prepared.value.0, x);
    ChainedIsCompared(considered, t, entries, port, prepared.value.0, y);
    ComparedUpstream(considered, t, entries, prepared.value.0);
    KinSelected(considered, t, entries, prepared.value.0, resolve, scope.analysisId, x, y);
    BothFit(entries, t, x, y);
    ghost var retained;
    r, accepted, retained := RunChoice(considered, t, entries, port, prepared.value.0, prepared.value.1, store, resolve,
                                       scope, BothPairs(t, x, y));
  }

  // ------------------------------------------------------------------- one single match

  lemma {:induction false} OneSelected(considered: seq<StoredDataRef>, t: StoredDataRef, entries: seq<PrimitiveEntry>,
                                       comparisons: seq<DirectionalComparison>, resolve: Resolver, analysisId: string,
                                       x: StoredDataRef)
    requires WorkInputs(considered, t, entries, comparisons)
    requires x in considered && x != t && LineageDefined(resolve, analysisId, x)
    requires AncestorSet(resolve, x) <= Elements(considered) - {t, x}
    requires forall c :: c in comparisons ==> Lists(entries, c.upstream)
    requires exists c :: c in comparisons && PairOf(c) == SuccessfulMatchPair(t, x)
    ensures var pairs := Successes(AnswersTo(entries, comparisons, BothPairs(t, x, x)), IndexByKey(comparisons));
      && RetentionSucceeds(considered, t, pairs, resolve, analysisId)
      && forall retained :: IsRetention(resolve, t, pairs, retained) ==>
        NoSharedAncestor(resolve, t, retained) && forall p :: p in retained <==> p == SuccessfulMatchPair(t, x)
  {
    var pairs := Successes(AnswersTo(entries, comparisons, BothPairs(t, x, x)), IndexByKey(comparisons));
    ConsideredIsDistinct(considered, t, entries, comparisons);
    ConsideredAreRecords(considered, t, entries, comparisons);
    forall m ensures m in pairs <==> m == SuccessfulMatchPair(t, x) {
      AnswersChoose(entries, comparisons, BothPairs(t, x, x), m);
    }
    OneStays(considered, t, x, pairs, resolve, analysisId);
  }

  lemma OneStays(considered: seq<StoredDataRef>, t: StoredDataRef, x: StoredDataRef, pairs: seq<SuccessfulMatchPair>,
                 resolve: Resolver, analysisId: string)
    requires NoDuplicates(considered) && t in considered && x in considered && x != t && NoDuplicates(pairs)
    requires IsPrimitiveRecord(t) && IsPrimitiveRecord(x) && LineageDefined(resolve, analysisId, x)
    requires AncestorSet(resolve, x) <= Elements(considered) - {t, x}
    requires forall m :: m in pairs <==> m == SuccessfulMatchPair(t, x)
    ensures RetentionSucceeds(considered, t, pairs, resolve, analysisId)
    ensures forall retained :: IsRetention(resolve, t, pairs, retained) ==>
      NoSharedAncestor(resolve, t, retained) && forall p :: p in retained <==> p == SuccessfulMatchPair(t, x)
  {
    assert Maximal(resolve, t, pairs, SuccessfulMatchPair(t, x));
  }

  // A work can complete with one pair as its only match, and storage accepts that result.
  method SingleRun(considered: seq<StoredDataRef>, t: StoredDataRef, entries: seq<PrimitiveEntry>, port: HistoryPort,
                   store: Provenance, resolve: Resolver, scope: Scope, x: StoredDataRef)
    returns (r: Result<ChainingResult, WorkError>, accepted: bool)
    requires Workable(considered, t, entries, port, scope, x)
    requires IsPortResolver(resolve, store, Elements(considered), scope)
    requires x in considered && x != t && LineageDefined(resolve, scope.analysisId, x)
    requires AncestorSet(resolve, x) <= Elements(considered) - {t, x}
    ensures r.Ok? && accepted
    ensures forall p :: p in MatchedPairsOf(r.value.matches) <==> p == SuccessfulMatchPair(t, x)
  {
    var prepared := PrepareWork(considered, t, entries, port);
    ChainedIsCompared(considered, t, entries, port, prepared.value.0, x);
    ComparedUpstream(considered, t, entries, prepared.value.0);
    OneSelected(considered, t, entries, prepared.value.0, resolve, scope.analysisId, x);
    BothFit(entries, t, x, x);
    ghost var retained;
    r, accepted, retained := RunChoice(considered, t, entries, port, prepared.value.0, prepared.value.1, store, resolve,
                                       scope, BothPairs(t, x, x));
  }
}
