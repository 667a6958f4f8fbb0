/** An answer for every choice of pairs: whatever pairs an agent decides to match, some answer says
    so and passes every check on its form (agents/chaining.py, chaining/service.py). */
module Answers {
  import opened Basics
  import opened Refs
  import opened Keys
  import opened Primitives
  import opened Matching
  import opened Ownership
  import opened Lineage
  import opened Retention
  import opened Exclusions
  import opened Prompt
  import opened Proposals
  import opened Decisions
  import opened DecisionParsing
  import opened Finalize
  import opened Closure
  import opened Finalization
  import opened Workflow

  function PositionOf(entries: seq<PrimitiveEntry>, ref: StoredDataRef): (k: nat)
    requires Lists(entries, ref)
    ensures k < |entries| && entries[k].ref == ref
  {
    if entries[0].ref == ref then 0
    else
      assert Lists(entries[1..], ref) by {
        var k :| 0 <= k < |entries| && entries[k].ref == ref;
        assert entries[1..][k - 1].ref == ref;
      }
      1 + PositionOf(entries[1..], ref)
  }

  // The first evidence key of the upstream Primitive.
  function CitedKey(entries: seq<PrimitiveEntry>, c: DirectionalComparison): string
    requires Lists(entries, c.upstream)
  {
    Key2("evidence", PositionOf(entries, c.upstream) + 1, 1)
  }

  function AnswerTo(entries: seq<PrimitiveEntry>, c: DirectionalComparison, chosen: set<SuccessfulMatchPair>)
    : ChainingDecision
    requires Lists(entries, c.upstream)
  {
    if PairOf(c) in chosen then
      ChainingDecision(c.comparisonKey, Match, None, "chains", [CitedKey(entries, c)],
                       Some(ChildContent("chains", ["xss"], ["question"], ["check"])))
    else ChainingDecision(c.comparisonKey, NoMatch, Some("NO_CODE_EVIDENCE"), "unrelated", [], None)
  }

  // MATCH for every comparison of a chosen pair, NO_MATCH for the others.
  function AnswersTo(entries: seq<PrimitiveEntry>, comparisons: seq<DirectionalComparison>,
                     chosen: set<SuccessfulMatchPair>): seq<ChainingDecision>
    requires forall c :: c in comparisons ==> Lists(entries, c.upstream)
  {
    seq(|comparisons|, k requires 0 <= k < |comparisons| =>
      assert comparisons[k] in comparisons; AnswerTo(entries, comparisons[k], chosen))
  }

  ghost predicate FirstCitable(entries: seq<PrimitiveEntry>, prompt: TrustedPrompt, k: nat)
    requires k < |entries|
  {
    var key := Key2("evidence", k + 1, 1);
    && key in prompt.evidence && key in prompt.evidenceOwners && prompt.evidenceOwners[key] == {entries[k].ref}
    && key in prompt.evidenceRefs && prompt.evidenceRefs[key] != []
  }

  // The first evidence key of an entry with a result stands for its source verification.
  lemma FirstEvidence(entries: seq<PrimitiveEntry>, comparisons: seq<DirectionalComparison>, prompt: TrustedPrompt,
                      k: nat)
    requires PromptSound(entries, comparisons, prompt) && k < |entries| && entries[k].primitive.result.Some?
    ensures FirstCitable(entries, prompt, k)
  {
    assert Describes(prompt.evidenceRefs, prompt.evidenceOwners, entries[k], k, prompt.primitives[k]);
    var keys := prompt.primitives[k].result.value.evidenceKeys;
    assert StandsForAll(prompt.evidenceRefs, prompt.evidenceOwners, entries[k], k + 1, keys);
    assert |SemanticEvidence(entries[k].primitive)| > 0 && keys[0] == Key2("evidence", k + 1, 1);
    assert keys[0] in Elements(prompt.evidence);
  }

  // The cited key is evidence of the upstream Primitive.
  ghost predicate Citable(entries: seq<PrimitiveEntry>, prompt: TrustedPrompt, c: DirectionalComparison) {
    && Lists(entries, c.upstream)
    && var key := CitedKey(entries, c);
    && key in prompt.evidence && key in prompt.evidenceOwners && prompt.evidenceOwners[key] == {c.upstream}
    && key in prompt.evidenceRefs && prompt.evidenceRefs[key] != []
  }

  lemma CitedKeyServes(entries: seq<PrimitiveEntry>, prompt: TrustedPrompt, c: DirectionalComparison)
    requires DistinctRefs(entries) && Answerable(entries, c)
    requires forall k :: 0 <= k < |entries| && entries[k].primitive.result.Some? ==> FirstCitable(entries, prompt, k)
    ensures Citable(entries, prompt, c)
  {
    var k := PositionOf(entries, c.upstream);
    UpstreamHasResult(entries, c, k);
    assert FirstCitable(entries, prompt, k);
  }

  lemma VisibleText(text: string)
    requires text != [] && 'a' <= text[0] <= 'z'
    ensures !Blank(text) && !StripsToNothing(text)
  {
    assert text[0] in text && !IsSpace(text[0]);
  }

  // The texts of an answer pass every rule on texts.
  lemma AnswerIsWellFormed(entries: seq<PrimitiveEntry>, c: DirectionalComparison, chosen: set<SuccessfulMatchPair>)
    requires Lists(entries, c.upstream) && IsComparisonKey(c.comparisonKey)
    ensures var d := AnswerTo(entries, c, chosen);
      Decodable(d) && WellShaped(d)
      && (d.child.Some? ==> TextAccepted(d.child.value) && NoDuplicates(d.child.value.vulnerabilityTypes))
  {
    assert c.comparisonKey[0] == 'c' && CitedKey(entries, c)[0] == 'e';
    VisibleText(c.comparisonKey);
    VisibleText(CitedKey(entries, c));
    VisibleText("chains");
    VisibleText("unrelated");
    VisibleText("xss");
    VisibleText("question");
    VisibleText("check");
  }

  ghost predicate SameKeysAs(comparisons: seq<DirectionalComparison>, prompted: seq<PromptComparison>) {
    && |prompted| == |comparisons|
    && forall n :: 0 <= n < |comparisons| ==> prompted[n].comparisonKey == comparisons[n].comparisonKey
  }

  lemma AnswersParse(entries: seq<PrimitiveEntry>, comparisons: seq<DirectionalComparison>, prompt: TrustedPrompt,
                     chosen: set<SuccessfulMatchPair>)
    requires DistinctKeys(comparisons) && SameKeysAs(comparisons, prompt.comparisons)
    requires forall c :: c in comparisons ==> Lists(entries, c.upstream) && IsComparisonKey(c.comparisonKey)
    requires forall c :: c in comparisons ==> Citable(entries, prompt, c)
    ensures Parsable(prompt, AnswersTo(entries, comparisons, chosen))
  {
    var content := AnswersTo(entries, comparisons, chosen);
    forall d | d in content ensures Decodable(d) && SelectsEvidence(prompt, d) && WellShaped(d) {
      var k :| 0 <= k < |content| && content[k] == d;
      assert Citable(entries, prompt, comparisons[k]);
      AnswerIsWellFormed(entries, comparisons[k], chosen);
    }
    AnswersDecideEach(comparisons, prompt.comparisons, content);
  }

  lemma AnswersDecideEach(comparisons: seq<DirectionalComparison>, prompted: seq<PromptComparison>,
                          content: seq<ChainingDecision>)
    requires DistinctKeys(comparisons) && SameKeysAs(comparisons, prompted) && |content| == |comparisons|
    requires forall k :: 0 <= k < |comparisons| ==> content[k].comparisonKey == comparisons[k].comparisonKey
    ensures NoDuplicates(DecisionKeys(content)) && Elements(DecisionKeys(content)) == ComparisonKeys(prompted)
  {
    var keys := DecisionKeys(content);
    forall key | key in Elements(keys) ensures key in ComparisonKeys(prompted) {
      var k :| 0 <= k < |keys| && keys[k] == key;
      assert prompted[k] in prompted;
    }
    forall key | key in ComparisonKeys(prompted) ensures key in Elements(keys) {
      var k :| 0 <= k < |prompted| && prompted[k].comparisonKey == key;
      assert keys[k] == key;
    }
  }

  // The answer matches exactly the chosen pairs that are compared.
  lemma {:induction false} AnswersChoose(entries: seq<PrimitiveEntry>, comparisons: seq<DirectionalComparison>,
                                         chosen: set<SuccessfulMatchPair>, p: SuccessfulMatchPair)
    requires DistinctKeys(comparisons) && forall c :: c in comparisons ==> Lists(entries, c.upstream)
    ensures Succeeded(AnswersTo(entries, comparisons, chosen), IndexByKey(comparisons), p) <==>
      p in chosen && exists c :: c in comparisons && PairOf(c) == p
  {
    var content, byKey := AnswersTo(entries, comparisons, chosen), IndexByKey(comparisons);
    forall k | 0 <= k < |comparisons|
      ensures content[k].comparisonKey in byKey && byKey[content[k].comparisonKey] == comparisons[k]
    {
      assert comparisons[k] in comparisons;
    }
    if c :| p in chosen && c in comparisons && PairOf(c) == p {
      var k :| 0 <= k < |comparisons| && comparisons[k] == c;
      assert content[k].outcome == Match && PairOf(byKey[content[k].comparisonKey]) == p;
    }
    if Succeeded(content, byKey, p) {
      var k :| 0 <= k < |content| && content[k].outcome == Match
        && content[k].comparisonKey in byKey && PairOf(byKey[content[k].comparisonKey]) == p;
      assert comparisons[k] in comparisons;
    }
  }

  ghost predicate CompatiblePair(entries: seq<PrimitiveEntry>, p: SuccessfulMatchPair) {
    && Lists(entries, p.upstream) && Lists(entries, p.downstream)
    && Compatible(EntryFor(entries, p.upstream).primitive.restrictions
                  + EntryFor(entries, p.downstream).primitive.restrictions)
  }

  lemma AnswerIsFaultless(entries: seq<PrimitiveEntry>, byKey: ByKey, prompt: TrustedPrompt, trigger: StoredDataRef,
                          c: DirectionalComparison, chosen: set<SuccessfulMatchPair>, excluded: set<StoredDataRef>)
    requires AllCompared(entries, byKey) && Lists(entries, c.upstream)
    requires c.comparisonKey in byKey && byKey[c.comparisonKey] == c && IsComparisonKey(c.comparisonKey)
    requires PairOf(c) in chosen ==> CompatiblePair(entries, PairOf(c))
    requires Citable(entries, prompt, c)
    ensures DecisionFault(entries, byKey, prompt, trigger, excluded, AnswerTo(entries, c, chosen)).None?
  {
    var d := AnswerTo(entries, c, chosen);
    AnswerIsWellFormed(entries, c, chosen);
    if PairOf(c) in chosen {
      var key := CitedKey(entries, c);
      assert d.evidenceKeys == [key];
      assert c.upstream in prompt.evidenceOwners[key];
      assert KeysOwnedByPair(prompt, d.evidenceKeys, c.upstream, c.downstream);
      assert CitedBy(prompt, d.evidenceKeys, prompt.evidenceRefs[key][0]);
    }
  }

  lemma {:induction false} AnswersAreFaultless(entries: seq<PrimitiveEntry>, comparisons: seq<DirectionalComparison>,
                                               prompt: TrustedPrompt, trigger: StoredDataRef,
                                               chosen: set<SuccessfulMatchPair>, excluded: set<StoredDataRef>)
    requires DistinctKeys(comparisons) && AllCompared(entries, IndexByKey(comparisons))
    requires forall c :: c in comparisons ==> Lists(entries, c.upstream) && IsComparisonKey(c.comparisonKey)
    requires forall c :: c in comparisons ==> Citable(entries, prompt, c)
    requires forall p :: p in chosen ==> CompatiblePair(entries, p)
    ensures FirstFault(AnswersTo(entries, comparisons, chosen), IndexByKey(comparisons), trigger, excluded, entries,
                       prompt).None?
  {
    var content, byKey := AnswersTo(entries, comparisons, chosen), IndexByKey(comparisons);
    forall d | d in content ensures DecisionFault(entries, byKey, prompt, trigger, excluded, d).None? {
      var k :| 0 <= k < |content| && content[k] == d;
      assert comparisons[k] in comparisons && Citable(entries, prompt, comparisons[k]);
      AnswerIsFaultless(entries, byKey, prompt, trigger, comparisons[k], chosen, excluded);
    }
    FaultHasDecision(content, byKey, trigger, excluded, entries, prompt);
  }

  lemma {:induction false} AnswersParseAndCover(entries: seq<PrimitiveEntry>, comparisons: seq<DirectionalComparison>,
                                                prompt: TrustedPrompt, chosen: set<SuccessfulMatchPair>)
    requires PromptSound(entries, comparisons, prompt) && DistinctKeys(comparisons)
    requires forall c :: c in comparisons ==> Lists(entries, c.upstream) && IsComparisonKey(c.comparisonKey)
    requires forall c :: c in comparisons ==> Citable(entries, prompt, c)
    ensures Parsable(prompt, AnswersTo(entries, comparisons, chosen))
    ensures Covers(AnswersTo(entries, comparisons, chosen), IndexByKey(comparisons))
  {
    PromptKeepsKeys(entries, comparisons, prompt);
    AnswersParse(entries, comparisons, prompt, chosen);
    SameKeys(comparisons, prompt.comparisons);
  }

  // For every choice of pairs that the selection keeps, that agree on their restrictions and that
  // name an entity, the answer is finalized.
  lemma {:induction false} AnswersSucceed(considered: seq<StoredDataRef>, trigger: StoredDataRef,
                                          entries: seq<PrimitiveEntry>, port: HistoryPort,
                                          comparisons: seq<DirectionalComparison>, prompt: TrustedPrompt,
                                          resolve: Resolver, scope: Scope, chosen: set<SuccessfulMatchPair>)
    requires Prepared(considered, trigger, entries, port, comparisons, prompt)
    requires forall c :: c in comparisons ==> Lists(entries, c.upstream)
    requires forall p :: p in chosen ==> CompatiblePair(entries, p) && PairNamesEntity(entries, p)
    requires InWorkspace(trigger, scope) && OwnAnalysis(entries, scope.analysisId)
    requires RetentionSucceeds(considered, trigger,
                               Successes(AnswersTo(entries, comparisons, chosen), IndexByKey(comparisons)), resolve,
                               scope.analysisId)
    ensures var content := AnswersTo(entries, comparisons, chosen);
      Parsable(prompt, content)
      && FinalizeSucceeds(considered, trigger, entries, IndexByKey(comparisons), prompt, content, resolve, scope)
  {
    var content, byKey := AnswersTo(entries, comparisons, chosen), IndexByKey(comparisons);
    var pairs := Successes(content, byKey);
    forall k | 0 <= k < |entries| && entries[k].primitive.result.Some? ensures FirstCitable(entries, prompt, k) {
      FirstEvidence(entries, comparisons, prompt, k);
    }
    forall c | c in comparisons ensures Citable(entries, prompt, c) {
      CitedKeyServes(entries, prompt, c);
    }
    AnswersParseAndCover(entries, comparisons, prompt, chosen);
    AnswersAreFaultless(entries, comparisons, prompt, trigger, chosen, Overtaken(resolve, trigger, pairs));
    forall p | p in pairs ensures p in chosen {
      AnswersChoose(entries, comparisons, chosen, p);
    }
  }
}
