/** What the agent's answer must look like before anything is built from it (agents/chaining.py,
    ports/chaining.py). */
module DecisionParsing {
  import opened Basics
  import opened Refs
  import opened Primitives
  import opened Matching
  import opened Prompt
  import opened Proposals
  import opened Decisions

  datatype ParseError = OutputInvalid | CoverageMismatch | EvidenceSelectionMismatch | ContentMismatch

  // The field rules of the decoded answer: no text without a visible character.
  ghost predicate Decodable(d: ChainingDecision) {
    && !Blank(d.comparisonKey) && !Blank(d.detail) && NoneBlank(d.evidenceKeys)
    && (d.child.Some? ==>
          && !Blank(d.child.value.statement) && NoneBlank(d.child.value.vulnerabilityTypes)
          && NoneBlank(d.child.value.falsificationQuestions) && NoneBlank(d.child.value.validationChecks))
  }

  // `ChainedHypothesisContent.__post_init__` and `ChainingDecision.__post_init__` do not raise.
  ghost predicate WellShaped(d: ChainingDecision) {
    && !StripsToNothing(d.comparisonKey) && !StripsToNothing(d.detail)
    && (d.child.Some? ==>
          && !StripsToNothing(d.child.value.statement)
          && d.child.value.falsificationQuestions != [] && d.child.value.validationChecks != [])
    && match d.outcome
       case Match => d.child.Some? && d.reasonCode.None? && d.evidenceKeys != []
       case NoMatch => d.child.None? && d.reasonCode.Some?
  }

  ghost predicate SelectsEvidence(prompt: TrustedPrompt, d: ChainingDecision) {
    NoDuplicates(d.evidenceKeys) && forall key :: key in d.evidenceKeys ==> key in prompt.evidence
  }

  function ComparisonKeys(comparisons: seq<PromptComparison>): (keys: set<string>)
    ensures forall key :: key in keys <==> exists k :: 0 <= k < |comparisons| && comparisons[k].comparisonKey == key
  {
    set c | c in comparisons :: c.comparisonKey
  }

  // Every comparison of the prompt is decided exactly once.
  ghost predicate DecidesEach(prompt: TrustedPrompt, decisions: seq<ChainingDecision>) {
    && NoDuplicates(DecisionKeys(decisions))
    && Elements(DecisionKeys(decisions)) == ComparisonKeys(prompt.comparisons)
  }

  ghost predicate AllDecodable(content: seq<ChainingDecision>) {
    forall d :: d in content ==> Decodable(d)
  }

  ghost predicate Parsable(prompt: TrustedPrompt, content: seq<ChainingDecision>) {
    && AllDecodable(content) && DecidesEach(prompt, content)
    && forall d :: d in content ==> SelectsEvidence(prompt, d) && WellShaped(d)
  }

  // What is raised: decoding first, then coverage, then the first decision that is refused.
  ghost predicate ParseFault(prompt: TrustedPrompt, content: seq<ChainingDecision>, error: ParseError) {
    if !AllDecodable(content) then error == OutputInvalid
    else if !DecidesEach(prompt, content) then error == CoverageMismatch
    else exists i :: 0 <= i < |content| && RefusedAt(prompt, content, error, i)
  }

  ghost predicate RefusedAt(prompt: TrustedPrompt, content: seq<ChainingDecision>, error: ParseError, i: nat)
    requires i < |content|
  {
    && (forall k :: 0 <= k < i ==> SelectsEvidence(prompt, content[k]) && WellShaped(content[k]))
    && if !SelectsEvidence(prompt, content[i]) then error == EvidenceSelectionMismatch
       else error == ContentMismatch && !WellShaped(content[i])
  }

  lemma NotSelected(prompt: TrustedPrompt, d: ChainingDecision)
    requires |Elements(d.evidenceKeys)| != |d.evidenceKeys| || !(Elements(d.evidenceKeys) <= Elements(prompt.evidence))
    ensures !SelectsEvidence(prompt, d)
  {
    DistinctByCount(d.evidenceKeys);
  }

  // The field rules, decision by decision.
  method Decode(content: seq<ChainingDecision>) returns (ok: bool)
    ensures ok <==> AllDecodable(content)
  {
    for i := 0 to |content|
      invariant forall k :: 0 <= k < i ==> Decodable(content[k])
    {
      var d := content[i];
      var blank := Blank(d.comparisonKey) || Blank(d.detail) || exists key :: key in d.evidenceKeys && Blank(key);
      if !blank && d.child.Some? {
        var child := d.child.value;
        blank := Blank(child.statement) || (exists text :: text in child.vulnerabilityTypes && Blank(text))
                 || (exists text :: text in child.falsificationQuestions && Blank(text))
                 || exists text :: text in child.validationChecks && Blank(text);
      }
      if blank {
        assert d in content && !Decodable(d);
        return false;
      }
    }
    return true;
  }

  // The two `__post_init__` methods on one decision.
  method Construct(d: ChainingDecision) returns (ok: bool)
    ensures ok <==> WellShaped(d)
  {
    if d.child.Some?
       && (StripsToNothing(d.child.value.statement) || d.child.value.falsificationQuestions == []
           || d.child.value.validationChecks == [])
    {
      return false;
    }
    if StripsToNothing(d.comparisonKey) || StripsToNothing(d.detail) {
      return false;
    }
    if d.outcome == Match {
      return d.child.Some? && d.reasonCode.None? && d.evidenceKeys != [];
    }
    return d.child.None? && d.reasonCode.Some?;
  }

  // Accepts the content exactly when it is decodable, covers the prompt's comparisons once each, selects
  // only the prompt's evidence and gives every outcome what it needs.
  method ParseDecisions(prompt: TrustedPrompt, content: seq<ChainingDecision>)
    returns (r: Result<seq<ChainingDecision>, ParseError>)
    ensures r.Ok? <==> Parsable(prompt, content)
    ensures r.Ok? ==> r.value == content
    ensures r.Err? ==> ParseFault(prompt, content, r.error)
  {
    var decoded := Decode(content);
    if !decoded {
      return Err(OutputInvalid);
    }
    var expected := ComparisonKeys(prompt.comparisons);
    var actual := Elements(DecisionKeys(content));
    DistinctByCount(DecisionKeys(content));
    if |actual| != |content| || actual != expected {
      return Err(CoverageMismatch);
    }
    var decisions: seq<ChainingDecision> := [];
    for i := 0 to |content|
      invariant decisions == content[..i]
      invariant forall d :: d in decisions ==> SelectsEvidence(prompt, d) && WellShaped(d)
    {
      var item := content[i];
      DistinctByCount(item.evidenceKeys);
      if |Elements(item.evidenceKeys)| != |item.evidenceKeys|
         || !(Elements(item.evidenceKeys) <= Elements(prompt.evidence)) {
        assert item in content;
        NotSelected(prompt, item);
        assert RefusedAt(prompt, content, EvidenceSelectionMismatch, i);
        return Err(EvidenceSelectionMismatch);
      }
      assert SelectsEvidence(prompt, item) by {
        forall key | key in item.evidenceKeys ensures key in prompt.evidence {
          assert key in Elements(item.evidenceKeys);
        }
      }
      var constructed := Construct(item);
      if !constructed {
        assert item in content;
        assert RefusedAt(prompt, content, ContentMismatch, i);
        return Err(ContentMismatch);
      }
      decisions := decisions + [item];
    }
    assert content[..|content|] == content;
    return Ok(decisions);
  }

  // ------------------------------------------------------- what finalization relies on

  lemma PromptKeepsKeys(entries: seq<PrimitiveEntry>, comparisons: seq<DirectionalComparison>, prompt: TrustedPrompt)
    requires PromptSound(entries, comparisons, prompt)
    ensures |prompt.comparisons| == |comparisons|
    ensures forall n :: 0 <= n < |comparisons| ==>
              prompt.comparisons[n].comparisonKey == comparisons[n].comparisonKey
  {
    forall n | 0 <= n < |comparisons| ensures prompt.comparisons[n].comparisonKey == comparisons[n].comparisonKey {
      assert Names(entries, comparisons[n], prompt.comparisons[n]);
    }
  }

  lemma {:induction false} SameKeys(comparisons: seq<DirectionalComparison>, prompted: seq<PromptComparison>)
    requires |prompted| == |comparisons| && DistinctKeys(comparisons)
    requires forall n :: 0 <= n < |comparisons| ==> prompted[n].comparisonKey == comparisons[n].comparisonKey
    ensures ComparisonKeys(prompted) == IndexByKey(comparisons).Keys
  {
    var byKey := IndexByKey(comparisons);
    forall key | key in byKey ensures key in ComparisonKeys(prompted) {
      var n :| 0 <= n < |comparisons| && comparisons[n] == byKey[key];
      assert prompted[n] in prompted;
    }
    forall key | key in ComparisonKeys(prompted) ensures key in byKey {
      var n :| 0 <= n < |prompted| && prompted[n].comparisonKey == key;
      assert comparisons[n] in comparisons;
    }
  }

  // Parsed decisions cover the comparisons of the work, so the coverage check of `_finalize`
  // never raises.
  lemma {:induction false} ParsedDecisionsCover(entries: seq<PrimitiveEntry>, comparisons: seq<DirectionalComparison>,
                                                prompt: TrustedPrompt, decisions: seq<ChainingDecision>)
    requires PromptSound(entries, comparisons, prompt) && DistinctKeys(comparisons)
    requires DecidesEach(prompt, decisions)
    ensures Covers(decisions, IndexByKey(comparisons))
  {
    PromptKeepsKeys(entries, comparisons, prompt);
    SameKeys(comparisons, prompt.comparisons);
  }

  // What the second loop can still raise for a parsed decision: evidence of a third
  // Primitive, contradicting restrictions, or a repeated vulnerability type.
  ghost predicate LeftAfterParsing(error: FinalizeError) {
    || error == ProposalFailed(EvidenceScopeMismatch) || error == ProposalFailed(RestrictionConflict)
    || error == ProposalFailed(RepeatedType)
  }

  // A parsed match selects evidence that stands for at least one reference.
  lemma ParsedHasEvidence(entries: seq<PrimitiveEntry>, comparisons: seq<DirectionalComparison>, prompt: TrustedPrompt,
                          d: ChainingDecision)
    requires PromptSound(entries, comparisons, prompt) && forall e :: e in entries ==> WellFormed(e.primitive)
    requires SelectsEvidence(prompt, d) && d.evidenceKeys != []
    ensures exists ref :: CitedBy(prompt, d.evidenceKeys, ref)
  {
    var key := d.evidenceKeys[0];
    assert key in prompt.evidence && EvidenceBacked(prompt, entries, key);
    assert key in prompt.evidenceRefs && prompt.evidenceRefs[key] != [];
    assert CitedBy(prompt, d.evidenceKeys, prompt.evidenceRefs[key][0]);
  }

  lemma CompleteFault(entries: seq<PrimitiveEntry>, prompt: TrustedPrompt, byKey: ByKey, trigger: StoredDataRef,
                      excluded: set<StoredDataRef>, d: ChainingDecision)
    requires AllCompared(entries, byKey) && !Blank(d.detail)
    requires d.outcome == Match ==>
      (exists ref :: CitedBy(prompt, d.evidenceKeys, ref)) && d.child.Some? && TextAccepted(d.child.value)
    requires d.outcome == NoMatch ==> d.reasonCode.Some?
    ensures var fault := DecisionFault(entries, byKey, prompt, trigger, excluded, d);
      fault.Some? ==> LeftAfterParsing(fault.value)
  {
  }

  // No parsed decision lacks its child, its texts, its reason or its evidence.
  lemma ParsedIsComplete(entries: seq<PrimitiveEntry>, comparisons: seq<DirectionalComparison>, prompt: TrustedPrompt,
                         byKey: ByKey, trigger: StoredDataRef, excluded: set<StoredDataRef>, d: ChainingDecision)
    requires PromptSound(entries, comparisons, prompt) && forall e :: e in entries ==> WellFormed(e.primitive)
    requires AllCompared(entries, byKey)
    requires Decodable(d) && SelectsEvidence(prompt, d) && WellShaped(d)
    ensures var fault := DecisionFault(entries, byKey, prompt, trigger, excluded, d);
      fault.Some? ==> LeftAfterParsing(fault.value)
  {
    if d.outcome == Match {
      ParsedHasEvidence(entries, comparisons, prompt, d);
      assert TextAccepted(d.child.value);
    }
    CompleteFault(entries, prompt, byKey, trigger, excluded, d);
  }

  // The second loop on a parsed answer.
  lemma {:induction false} ParsedFaults(entries: seq<PrimitiveEntry>, comparisons: seq<DirectionalComparison>,
                                        prompt: TrustedPrompt, byKey: ByKey, trigger: StoredDataRef,
                                        excluded: set<StoredDataRef>, content: seq<ChainingDecision>)
    requires PromptSound(entries, comparisons, prompt) && forall e :: e in entries ==> WellFormed(e.primitive)
    requires AllCompared(entries, byKey) && Parsable(prompt, content)
    ensures var fault := FirstFault(content, byKey, trigger, excluded, entries, prompt);
      fault.Some? ==> LeftAfterParsing(fault.value)
  {
    FaultHasDecision(content, byKey, trigger, excluded, entries, prompt);
    var fault := FirstFault(content, byKey, trigger, excluded, entries, prompt);
    if fault.Some? {
      var d :| d in content && DecisionFault(entries, byKey, prompt, trigger, excluded, d) == fault;
      ParsedIsComplete(entries, comparisons, prompt, byKey, trigger, excluded, d);
    }
  }

  ghost function WithTypes(d: ChainingDecision, types: seq<string>): ChainingDecision
    requires d.child.Some?
  {
    d.(child := Some(d.child.value.(vulnerabilityTypes := types)))
  }

  // The parser has no rule against naming a vulnerability type twice.
  lemma RepeatedTypeParses(prompt: TrustedPrompt, d: ChainingDecision)
    requires d.child.Some? && Decodable(d)
    ensures var twice := WithTypes(d, ["XSS", "XSS"]);
      && Decodable(twice) && (SelectsEvidence(prompt, twice) <==> SelectsEvidence(prompt, d))
      && (WellShaped(twice) <==> WellShaped(d))
  {
    assert 'X' in "XSS" && !IsSpace('X');
  }

  // The proposal record has: a match that is otherwise in order is refused.
  lemma RepeatedTypeIsRefused(prompt: TrustedPrompt, c: DirectionalComparison, d: ChainingDecision, up: Primitive,
                              down: Primitive)
    requires d.child.Some? && ProposalFault(c, d, up, down, prompt).None?
    ensures ProposalFault(c, WithTypes(d, ["XSS", "XSS"]), up, down, prompt) == Some(RepeatedType)
  {
    assert 'X' in "XSS" && !IsSpace('X');
    assert ["XSS", "XSS"][0] == ["XSS", "XSS"][1];
  }

  // One decision renamed its types: the same keys and outcomes, hence the same successes.
  lemma {:induction false} SameSuccesses(decisions: seq<ChainingDecision>, others: seq<ChainingDecision>, byKey: ByKey)
    requires |decisions| == |others|
    requires forall k :: 0 <= k < |decisions| ==>
      decisions[k].comparisonKey == others[k].comparisonKey && decisions[k].outcome == others[k].outcome
    ensures Successes(decisions, byKey) == Successes(others, byKey)
  {
    if decisions != [] {
      SameSuccesses(decisions[..|decisions| - 1], others[..|others| - 1], byKey);
    }
  }

  // A loop without a fault gets one when a decision it keeps repeats a type.
  lemma RepeatedTypeFails(content: seq<ChainingDecision>, k: nat, byKey: ByKey, trigger: StoredDataRef,
                          excluded: set<StoredDataRef>, entries: seq<PrimitiveEntry>, prompt: TrustedPrompt)
    requires AllCompared(entries, byKey) && k < |content|
    requires content[k].outcome == Match && content[k].child.Some? && content[k].comparisonKey in byKey
    requires !OnExcluded(content[k], byKey, trigger, excluded)
    requires FirstFault(content, byKey, trigger, excluded, entries, prompt).None?
    ensures FirstFault(content[k := WithTypes(content[k], ["XSS", "XSS"])], byKey, trigger, excluded, entries, prompt)
         == Some(ProposalFailed(RepeatedType))
  {
    var d := content[k];
    var changed := content[k := WithTypes(d, ["XSS", "XSS"])];
    var c := byKey[d.comparisonKey];
    FaultHasDecision(content, byKey, trigger, excluded, entries, prompt);
    assert d in content && DecisionFault(entries, byKey, prompt, trigger, excluded, d).None?;
    RepeatedTypeIsRefused(prompt, c, d, EntryFor(entries, c.upstream).primitive,
                          EntryFor(entries, c.downstream).primitive);
    if FirstFault(content[..k], byKey, trigger, excluded, entries, prompt).Some? {
      FirstFaultStays(content, k, byKey, trigger, excluded, entries, prompt);
    }
    assert changed[..k] == content[..k] && changed[..k + 1][..k] == changed[..k];
    FirstFaultStays(changed, k + 1, byKey, trigger, excluded, entries, prompt);
  }
}
