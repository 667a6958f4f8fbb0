/** Exactly when the checks of a finished result refuse it (chaining/service.py, contracts/chaining.py,
    contracts/_domain.py). */
module Closure {
  import opened Basics
  import opened Refs
  import Reachability
  import opened Primitives
  import opened Matching
  import opened Lineage
  import opened Retention
  import opened Exclusions
  import opened Prompt
  import opened Proposals
  import opened Decisions
  import opened Finalize

  // The pair names at least one entity.
  ghost predicate PairNamesEntity(entries: seq<PrimitiveEntry>, p: SuccessfulMatchPair) {
    && Lists(entries, p.upstream) && Lists(entries, p.downstream)
    && EntitiesOf(PairDrafts(EntryFor(entries, p.upstream).primitive,
                             EntryFor(entries, p.downstream).primitive)) != []
  }

  ghost predicate NamesEntity(entries: seq<PrimitiveEntry>, m: MatchCandidate) {
    PairNamesEntity(entries, PairOfMatch(m))
  }

  lemma Pointwise<A, B>(xs: seq<A>, ys: seq<B>, p: A -> bool, q: B -> bool)
    requires |xs| == |ys| && forall k :: 0 <= k < |xs| ==> p(xs[k]) == q(ys[k])
    ensures (forall x :: x in xs ==> p(x)) <==> (forall y :: y in ys ==> q(y))
  {
    forall y | y in ys && forall x :: x in xs ==> p(x) ensures q(y) {
      var k :| 0 <= k < |ys| && ys[k] == y;
      assert p(xs[k]);
    }
    forall x | x in xs && forall y :: y in ys ==> q(y) ensures p(x) {
      var k :| 0 <= k < |xs| && xs[k] == x;
      assert q(ys[k]);
    }
  }

  lemma LocationsShrink(some: seq<CodeSymbol>, all: seq<CodeSymbol>)
    requires Elements(some) <= Elements(all)
    ensures Elements(Locations(some)) <= Elements(Locations(all))
  {
    forall x | x in Locations(some) ensures x in Locations(all) {
      var k :| 0 <= k < |some| && some[k].location == x;
      assert some[k] in Elements(some);
      var n :| 0 <= n < |all| && all[n] == some[k];
      assert Locations(all)[n] == x;
    }
  }

  lemma {:induction false} ProposalOfMatchFits(entries: seq<PrimitiveEntry>, d: ChainingDecision, m: MatchCandidate,
                                               p: HypothesisProposal, up: Primitive, down: Primitive)
    requires Lists(entries, m.upstream) && Lists(entries, m.downstream)
    requires up == EntryFor(entries, m.upstream).primitive && down == EntryFor(entries, m.downstream).primitive
    requires IsProposalOf(d, m, up, down, p)
    requires m.parentHypotheses == Unique([up.sourceHypothesisId, down.sourceHypothesisId])
    ensures ProposalFits(entries, m, p) <==> NamesEntity(entries, m)
  {
    var entities := EntitiesOf(PairDrafts(up, down));
    assert Elements(p.targetEntities) == Elements(entities);
    LocationsShrink(p.targetEntities, entities);
    assert Elements(p.targetLocations) == Elements(Locations(p.targetEntities));
  }

  lemma {:induction false} MatchIsClosed(entries: seq<PrimitiveEntry>, c: DirectionalComparison, prompt: TrustedPrompt,
                                         d: ChainingDecision, m: MatchCandidate)
    requires Answerable(entries, c)
    requires IsMatchOf(c, prompt, d, EntryFor(entries, c.upstream).primitive,
                       EntryFor(entries, c.downstream).primitive, m)
    ensures MatchClosed(entries, m)
  {
  }

  ghost predicate AllAnswerable(entries: seq<PrimitiveEntry>, byKey: ByKey) {
    forall key :: key in byKey ==> Answerable(entries, byKey[key])
  }

  lemma AnsweredMatch(entries: seq<PrimitiveEntry>, byKey: ByKey, prompt: TrustedPrompt, kept: seq<ChainingDecision>,
                      dropped: seq<ChainingDecision>, out: Collected, k: nat)
    requires AllAnswerable(entries, byKey) && Answers(entries, byKey, prompt, kept, dropped, out) && k < |kept|
    ensures MatchClosed(entries, out.matches[k])
    ensures ProposalFits(entries, out.matches[k], out.proposals[k]) <==> NamesEntity(entries, out.matches[k])
    ensures out.proposals[k].sourceMatchId == out.matches[k].matchId
  {
    assert AnswersMatch(entries, byKey, prompt, kept[k], out.matches[k], out.proposals[k]);
    var c := byKey[kept[k].comparisonKey];
    MatchIsClosed(entries, c, prompt, kept[k], out.matches[k]);
    ProposalOfMatchFits(entries, kept[k], out.matches[k], out.proposals[k],
                        EntryFor(entries, c.upstream).primitive, EntryFor(entries, c.downstream).primitive);
  }

  // Match ids are distinct, so a proposal can only fit the match it was made for.
  lemma ClosedByOwnMatch(entries: seq<PrimitiveEntry>, out: Collected, k: nat)
    requires DistinctMatchIds(out.matches) && k < |out.matches| && k < |out.proposals|
    requires out.proposals[k].sourceMatchId == out.matches[k].matchId
    ensures ProposalClosed(entries, out.matches, out.proposals[k]) <==>
      ProposalFits(entries, out.matches[k], out.proposals[k])
  {
    if ProposalClosed(entries, out.matches, out.proposals[k]) {
      var other :| other in out.matches && other.matchId == out.proposals[k].sourceMatchId
        && ProposalFits(entries, other, out.proposals[k]);
      var n :| 0 <= n < |out.matches| && out.matches[n] == other;
      assert n == k;
    }
    if ProposalFits(entries, out.matches[k], out.proposals[k]) {
      assert out.matches[k] in out.matches;
    }
  }

  lemma ProposalsAreClosed(entries: seq<PrimitiveEntry>, out: Collected)
    requires |out.matches| == |out.proposals|
    requires forall k :: 0 <= k < |out.matches| ==>
      (ProposalClosed(entries, out.matches, out.proposals[k]) <==> NamesEntity(entries, out.matches[k]))
    ensures (forall p :: p in out.proposals ==> ProposalClosed(entries, out.matches, p))
      <==> forall m :: m in out.matches ==> NamesEntity(entries, m)
  {
    Pointwise(out.proposals, out.matches, (p: HypothesisProposal) => ProposalClosed(entries, out.matches, p),
              (m: MatchCandidate) => NamesEntity(entries, m));
  }

  lemma {:induction false} ReasonsAreClosed(entries: seq<PrimitiveEntry>, byKey: ByKey, kept: seq<ChainingDecision>,
                                            dropped: seq<ChainingDecision>, out: Collected)
    requires AllAnswerable(entries, byKey) && SameQuestions(byKey, kept, dropped, out)
    ensures forall n :: n in out.noMatches ==>
      Lists(entries, n.downstream) && AsksFor(EntryFor(entries, n.downstream).primitive, n.inputId)
  {
    forall n | n in out.noMatches
      ensures Lists(entries, n.downstream) && AsksFor(EntryFor(entries, n.downstream).primitive, n.inputId)
    {
      var k :| 0 <= k < |out.noMatches| && out.noMatches[k] == n;
      assert QuestionOfReason(n) == QuestionOf(byKey[dropped[k].comparisonKey]);
    }
  }

  // Every entry belongs to the analysis the result is made for.
  ghost predicate OwnAnalysis(entries: seq<PrimitiveEntry>, analysisId: string) {
    forall e :: e in entries ==> e.primitive.analysisId == analysisId
  }

  // The closure check refuses a result of `_finalize` exactly when some matched pair
  // names no entity at all or an entry belongs to another analysis.
  lemma ClosureHoldsIff(scope: Scope, considered: seq<StoredDataRef>, entries: seq<PrimitiveEntry>, byKey: ByKey,
                        prompt: TrustedPrompt, kept: seq<ChainingDecision>, dropped: seq<ChainingDecision>,
                        out: Collected, exclusions: seq<LineageExclusion>)
    requires AllAnswerable(entries, byKey) && Answers(entries, byKey, prompt, kept, dropped, out)
    requires DistinctMatchIds(out.matches) && AllListed(entries, out.matches)
    requires NoDuplicates(considered) && NoDuplicates(exclusions)
    requires |entries| == |considered| && forall k :: 0 <= k < |entries| ==> entries[k].ref == considered[k]
    requires forall e :: e in entries ==> WellFormed(e.primitive) && e.primitive.selfRef == e.ref
    ensures ClosureHolds(BuildRecord(scope, considered, entries, out, exclusions), entries, considered, exclusions)
      <==> (forall m :: m in out.matches ==> NamesEntity(entries, m)) && OwnAnalysis(entries, scope.analysisId)
  {
    AnswersAskTheSame(entries, byKey, prompt, kept, dropped, out);
    MatchesAreClosed(entries, byKey, prompt, kept, dropped, out);
    ReasonsAreClosed(entries, byKey, kept, dropped, out);
    ProposalsAreClosed(entries, out);
    RecordIsClosed(scope, considered, entries, out, exclusions);
  }

  lemma {:induction false} RecordIsClosed(scope: Scope, considered: seq<StoredDataRef>, entries: seq<PrimitiveEntry>,
                                          out: Collected, exclusions: seq<LineageExclusion>)
    requires AllListed(entries, out.matches) && forall m :: m in out.matches ==> MatchClosed(entries, m)
    requires forall n :: n in out.noMatches ==>
      Lists(entries, n.downstream) && AsksFor(EntryFor(entries, n.downstream).primitive, n.inputId)
    requires NoDuplicates(considered) && NoDuplicates(exclusions)
    requires |entries| == |considered| && forall k :: 0 <= k < |entries| ==> entries[k].ref == considered[k]
    requires forall e :: e in entries ==> WellFormed(e.primitive) && e.primitive.selfRef == e.ref
    ensures RecordClosed(BuildRecord(scope, considered, entries, out, exclusions), entries, considered, exclusions)
      <==> OwnAnalysis(entries, scope.analysisId)
  {
    var r := BuildRecord(scope, considered, entries, out, exclusions);
    assert ExactSetOf(r.considered, considered) && ExactSetOf(r.exclusions, exclusions);
    assert ExactSetOf(r.sourceResultRefs, SourceRefs(entries, r.matches));
    assert forall e :: e in entries ==>
      (ExactEntry(e, scope.analysisId) <==> e.primitive.analysisId == scope.analysisId);
  }

  lemma MatchesAreClosed(entries: seq<PrimitiveEntry>, byKey: ByKey, prompt: TrustedPrompt, kept: seq<ChainingDecision>,
                         dropped: seq<ChainingDecision>, out: Collected)
    requires AllAnswerable(entries, byKey) && Answers(entries, byKey, prompt, kept, dropped, out)
    requires DistinctMatchIds(out.matches) && AllListed(entries, out.matches)
    ensures forall m :: m in out.matches ==> MatchClosed(entries, m)
    ensures forall k :: 0 <= k < |out.matches| ==>
      (ProposalClosed(entries, out.matches, out.proposals[k]) <==> NamesEntity(entries, out.matches[k]))
  {
    forall k | 0 <= k < |kept|
      ensures MatchClosed(entries, out.matches[k])
      ensures ProposalClosed(entries, out.matches, out.proposals[k]) <==> NamesEntity(entries, out.matches[k])
    {
      AnsweredMatch(entries, byKey, prompt, kept, dropped, out, k);
      ClosedByOwnMatch(entries, out, k);
    }
  }

  // --------------------------------------------------------- the record's workspace

  // A pinned universe lies in one workspace, with everything its Primitives cite.
  lemma UniverseInWorkspace(entries: seq<PrimitiveEntry>, trigger: StoredDataRef, scope: Scope, e: PrimitiveEntry)
    requires Pinned(entries, trigger) && (forall e :: e in entries ==> WellFormed(e.primitive)) && e in entries
    ensures InWorkspace(e.ref, scope) <==> InWorkspace(trigger, scope)
    ensures InWorkspace(trigger, scope) ==> forall ref :: ref in Cited(e.primitive) ==> InWorkspace(ref, scope)
    ensures InWorkspace(trigger, scope) ==>
      forall r :: r in e.primitive.restrictions ==> RestrictionInWorkspace(r, scope)
  {
    var own := EntryFor(entries, trigger);
    assert WellFormed(own.primitive) && WellFormed(e.primitive);
  }

  lemma ConsideredInWorkspace(considered: seq<StoredDataRef>, trigger: StoredDataRef, entries: seq<PrimitiveEntry>,
                              comparisons: seq<DirectionalComparison>, scope: Scope)
    requires WorkInputs(considered, trigger, entries, comparisons)
    ensures AllInWorkspace(considered, scope) <==> InWorkspace(trigger, scope)
  {
    forall ref | ref in considered ensures InWorkspace(ref, scope) <==> InWorkspace(trigger, scope) {
      var k :| 0 <= k < |considered| && considered[k] == ref;
      UniverseInWorkspace(entries, trigger, scope, entries[k]);
    }
    ListedIsConsidered(considered, entries, trigger);
  }

  lemma AnsweredInWorkspace(trigger: StoredDataRef, entries: seq<PrimitiveEntry>,
                            comparisons: seq<DirectionalComparison>, byKey: ByKey, prompt: TrustedPrompt, scope: Scope,
                            d: ChainingDecision, m: MatchCandidate, p: HypothesisProposal)
    requires Pinned(entries, trigger) && forall e :: e in entries ==> WellFormed(e.primitive)
    requires PromptSound(entries, comparisons, prompt) && AnswersMatch(entries, byKey, prompt, d, m, p)
    requires InWorkspace(trigger, scope)
    ensures MatchInWorkspace(m, scope) && ProposalInWorkspace(p, scope)
  {
    var c := byKey[d.comparisonKey];
    var up, down := EntryFor(entries, c.upstream), EntryFor(entries, c.downstream);
    UniverseInWorkspace(entries, trigger, scope, up);
    UniverseInWorkspace(entries, trigger, scope, down);
    forall ref | ref in m.evidence ensures InWorkspace(ref, scope) {
      MatchEvidenceIsCited(entries, comparisons, prompt, c, d, up.primitive, down.primitive, m, ref);
    }
    forall ref | ref in m.parentVerifications ensures InWorkspace(ref, scope) {
      assert ref in Elements(m.parentVerifications);
      assert ref in [up.primitive.sourceVerificationRef, down.primitive.sourceVerificationRef];
    }
    forall r | r in p.restrictions ensures RestrictionInWorkspace(r, scope) {
      assert r in Elements(p.restrictions);
      assert r in up.primitive.restrictions + down.primitive.restrictions;
    }
  }

  lemma {:induction false} SourcesInWorkspace(trigger: StoredDataRef, entries: seq<PrimitiveEntry>,
                                              matches: seq<MatchCandidate>, scope: Scope)
    requires Pinned(entries, trigger) && forall e :: e in entries ==> WellFormed(e.primitive)
    requires AllListed(entries, matches) && InWorkspace(trigger, scope)
    ensures AllInWorkspace(SourceRefs(entries, matches), scope)
  {
    if matches != [] {
      assert matches[0] in matches;
      UniverseInWorkspace(entries, trigger, scope, EntryFor(entries, matches[0].upstream));
      UniverseInWorkspace(entries, trigger, scope, EntryFor(entries, matches[0].downstream));
      SourcesInWorkspace(trigger, entries, matches[1..], scope);
    }
  }

  lemma MatchesInWorkspace(trigger: StoredDataRef, entries: seq<PrimitiveEntry>,
                           comparisons: seq<DirectionalComparison>, byKey: ByKey, prompt: TrustedPrompt, scope: Scope,
                           kept: seq<ChainingDecision>, dropped: seq<ChainingDecision>, out: Collected)
    requires Pinned(entries, trigger) && forall e :: e in entries ==> WellFormed(e.primitive)
    requires PromptSound(entries, comparisons, prompt) && Answers(entries, byKey, prompt, kept, dropped, out)
    requires InWorkspace(trigger, scope)
    ensures forall m :: m in out.matches ==> MatchInWorkspace(m, scope)
    ensures forall p :: p in out.proposals ==> ProposalInWorkspace(p, scope)
  {
    forall k | 0 <= k < |kept|
      ensures MatchInWorkspace(out.matches[k], scope) && ProposalInWorkspace(out.proposals[k], scope)
    {
      AnsweredInWorkspace(trigger, entries, comparisons, byKey, prompt, scope, kept[k], out.matches[k],
                          out.proposals[k]);
    }
  }

  // The other references of a record that passes `input_sets` are considered ones.
  lemma RestInWorkspace(r: ChainingResult)
    requires InputSetsHold(r) && AllInWorkspace(r.considered, r.scope)
    ensures AllInWorkspace(r.inputRefs, r.scope) && AllInWorkspace(ExcludedRefs(r.exclusions), r.scope)
    ensures forall e :: e in r.exclusions ==> InWorkspace(e.excludedBy, r.scope)
    ensures forall n :: n in r.noMatches ==> InWorkspace(n.upstream, r.scope) && InWorkspace(n.downstream, r.scope)
  {
    forall ref | ref in ExcludedRefs(r.exclusions) ensures InWorkspace(ref, r.scope) {
      var k :| 0 <= k < |r.exclusions| && r.exclusions[k].excluded == ref;
      assert r.exclusions[k] in r.exclusions;
    }
  }

  lemma {:induction false} UniqueInWorkspace(refs: seq<StoredDataRef>, scope: Scope)
    requires AllInWorkspace(refs, scope)
    ensures AllInWorkspace(Unique(refs), scope)
  {
    forall ref | ref in Unique(refs) ensures InWorkspace(ref, scope) {
      assert ref in Elements(Unique(refs));
      assert ref in refs;
    }
  }

  // The record's own scope check refuses a result of `_finalize` exactly when the universe
  // lies in another workspace or commit.
  lemma RecordInWorkspaceIff(scope: Scope, considered: seq<StoredDataRef>, trigger: StoredDataRef,
                             entries: seq<PrimitiveEntry>, comparisons: seq<DirectionalComparison>, byKey: ByKey,
                             prompt: TrustedPrompt, kept: seq<ChainingDecision>, dropped: seq<ChainingDecision>,
                             out: Collected, exclusions: seq<LineageExclusion>)
    requires WorkInputs(considered, trigger, entries, comparisons) && PromptSound(entries, comparisons, prompt)
    requires Answers(entries, byKey, prompt, kept, dropped, out) && AllListed(entries, out.matches)
    requires InputSetsHold(BuildRecord(scope, considered, entries, out, exclusions))
    ensures RecordInWorkspace(BuildRecord(scope, considered, entries, out, exclusions)) <==> InWorkspace(trigger, scope)
  {
    var r := BuildRecord(scope, considered, entries, out, exclusions);
    ConsideredInWorkspace(considered, trigger, entries, comparisons, scope);
    if InWorkspace(trigger, scope) {
      RestInWorkspace(r);
      MatchesInWorkspace(trigger, entries, comparisons, byKey, prompt, scope, kept, dropped, out);
      SourcesInWorkspace(trigger, entries, out.matches, scope);
      UniqueInWorkspace(SourceRefs(entries, out.matches), scope);
    }
  }

  lemma DefinedLiesInWorkspace(resolve: Resolver, scope: Scope, x: StoredDataRef)
    requires LineageDefined(resolve, scope.analysisId, x)
    requires resolve[x].value.workspaceId == scope.workspaceId && resolve[x].value.commitId == scope.commitId
    ensures InWorkspace(x, scope)
  {
    Reachability.ReachesSelf(ParentsOf(resolve), x);
    assert Sound(resolve, resolve[x].value, scope.analysisId, x);
  }

  // A retained match puts the whole universe into the workspace of the resolver's nodes, so a
  // universe from elsewhere can only be refused when nothing was matched.
  lemma MatchedLiesInWorkspace(considered: seq<StoredDataRef>, trigger: StoredDataRef, entries: seq<PrimitiveEntry>,
                               comparisons: seq<DirectionalComparison>, pairs: seq<SuccessfulMatchPair>,
                               resolve: Resolver, scope: Scope, p: SuccessfulMatchPair)
    requires WorkInputs(considered, trigger, entries, comparisons)
    requires RetentionSucceeds(considered, trigger, pairs, resolve, scope.analysisId) && p in pairs
    requires forall ref :: ref in resolve && resolve[ref].Ok? ==>
      resolve[ref].value.workspaceId == scope.workspaceId && resolve[ref].value.commitId == scope.commitId
    ensures AllInWorkspace(considered, scope)
  {
    var x := Candidate(p, trigger);
    assert Eligible(considered, trigger, resolve, scope.analysisId, p);
    DefinedLiesInWorkspace(resolve, scope, x);
    ListedIsConsidered(considered, entries, x);
    UniverseInWorkspace(entries, trigger, scope, EntryFor(entries, x));
    ConsideredInWorkspace(considered, trigger, entries, comparisons, scope);
  }
}
