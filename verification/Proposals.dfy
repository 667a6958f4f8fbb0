/** One match and the proposal derived from it (chaining/service.py). */
module Proposals {
  import opened Basics
  import opened Refs
  import opened Primitives
  import opened Matching
  import opened Prompt

  // First occurrences, in order.
  function Unique<T(==)>(values: seq<T>): (r: seq<T>)
    ensures NoDuplicates(r)
    ensures Elements(r) == Elements(values)
  {
    if values == [] then []
    else
      var init, last := values[..|values| - 1], values[|values| - 1];
      assert values == init + [last];
      var rest := Unique(init);
      assert Elements(values) == Elements(init) + {last};
      assert Elements(rest + [last]) == Elements(rest) + {last};
      assert last in rest <==> last in Elements(rest);
      if last in rest then rest else rest + [last]
  }

  // Every value once, in the order in which the values first appear.
  ghost predicate FirstOccurrences<T(!new)>(values: seq<T>, r: seq<T>) {
    && NoDuplicates(r) && (forall x :: x in r <==> x in values)
    && forall i, j :: 0 <= i < j < |r| ==> AppearsBefore(values, r[i], r[j])
  }

  ghost predicate AppearsBefore<T>(values: seq<T>, x: T, y: T) {
    exists m :: 0 <= m < |values| && values[m] == x && y !in values[..m + 1]
  }

  lemma {:induction false} UniqueKeepsFirst<T(!new)>(values: seq<T>)
    ensures FirstOccurrences(values, Unique(values))
  {
    if values != [] {
      var init, last := values[..|values| - 1], values[|values| - 1];
      assert values == init + [last];
      UniqueKeepsFirst(init);
      var rest, r := Unique(init), Unique(values);
      forall i, j | 0 <= i < j < |r| ensures AppearsBefore(values, r[i], r[j]) {
        if j < |rest| {
          assert AppearsBefore(init, rest[i], rest[j]);
          var m :| 0 <= m < |init| && init[m] == rest[i] && rest[j] !in init[..m + 1];
          assert values[m] == r[i] && values[..m + 1] == init[..m + 1];
        } else {
          assert rest[i] in init && last !in init;
          var m :| 0 <= m < |init| && init[m] == rest[i];
          assert values[m] == r[i] && values[..m + 1] == init[..m + 1];
        }
      }
    }
  }

  method UniqueValues<T(==, !new)>(values: seq<T>) returns (unique: seq<T>)
    ensures unique == Unique(values) && FirstOccurrences(values, unique)
  {
    unique := [];
    for i := 0 to |values|
      invariant unique == Unique(values[..i])
    {
      assert values[..i + 1][..i] == values[..i];
      if values[i] !in unique {
        unique := unique + [values[i]];
      }
    }
    assert values[..|values|] == values;
    UniqueKeepsFirst(values);
  }

  // ------------------------------------------------------------- restrictions

  predicate Compatible(restrictions: seq<Restriction>) {
    forall a, b :: a in restrictions && b in restrictions && a.restrictionId == b.restrictionId ==> a == b
  }

  // Fails exactly when the two primitives disagree about one restriction id.
  method MergedRestrictions(upstream: Primitive, downstream: Primitive)
    returns (r: Option<seq<Restriction>>)
    ensures r.Some? <==> Compatible(upstream.restrictions + downstream.restrictions)
    ensures r.Some? ==> NoDuplicates(r.value)
    ensures r.Some? ==> Elements(r.value) == Elements(upstream.restrictions + downstream.restrictions)
    ensures r.Some? ==> FirstOccurrences(upstream.restrictions + downstream.restrictions, r.value)
  {
    var all := upstream.restrictions + downstream.restrictions;
    var byId: map<string, Restriction> := map[];
    var merged: seq<Restriction> := [];
    for i := 0 to |all|
      invariant Elements(merged) == Elements(all[..i]) == byId.Values
      invariant NoDuplicates(merged) && merged == Unique(all[..i])
      invariant forall id :: id in byId ==> byId[id].restrictionId == id
      invariant forall x :: x in merged ==> x.restrictionId in byId && byId[x.restrictionId] == x
    {
      var next := all[i];
      ElementsStep(all, i);
      assert all[..i + 1][..i] == all[..i];
      assert next in merged <==> next in Elements(merged);
      if next.restrictionId in byId {
        if byId[next.restrictionId] != next {
          assert byId[next.restrictionId] in byId.Values;
          assert byId[next.restrictionId] in Elements(all[..i]);
          assert byId[next.restrictionId] in all && next in all;
          return None;
        }
        assert next in byId.Values;
      } else {
        assert next !in merged;
        AppendKeepsNoDuplicates(merged, next);
        merged := merged + [next];
        var before := byId;
        byId := byId[next.restrictionId := next];
        assert byId.Values == before.Values + {next} by {
          forall x | x in before.Values ensures x in byId.Values {
            var id :| id in before && before[id] == x;
            assert byId[id] == x;
          }
          assert byId[next.restrictionId] == next;
        }
      }
    }
    assert all[..|all|] == all;
    forall a, b | a in all && b in all && a.restrictionId == b.restrictionId ensures a == b {
      assert a in Elements(merged) && b in Elements(merged);
    }
    UniqueKeepsFirst(all);
    return Some(merged);
  }

  // --------------------------------------------------------------- the records

  datatype Outcome = Match | NoMatch

  datatype ChildContent = ChildContent(
    statement: string,
    vulnerabilityTypes: seq<string>,
    falsificationQuestions: seq<string>,
    validationChecks: seq<string>)

  datatype ChainingDecision = ChainingDecision(
    comparisonKey: string,
    outcome: Outcome,
    reasonCode: Option<string>,
    detail: string,
    evidenceKeys: seq<string>,
    child: Option<ChildContent>)

  datatype MatchCandidate = MatchCandidate(
    matchId: nat,
    upstream: StoredDataRef,
    downstream: StoredDataRef,
    inputId: string,
    parentHypotheses: seq<string>,
    parentVerifications: seq<StoredDataRef>,
    evidence: seq<StoredDataRef>)

  datatype HypothesisProposal = HypothesisProposal(
    sourceMatchId: nat,
    statement: string,
    vulnerabilityTypes: seq<string>,
    falsificationQuestions: seq<string>,
    validationChecks: seq<string>,
    parentHypotheses: seq<string>,
    targetEntities: seq<CodeSymbol>,
    targetLocations: seq<string>,
    suspectedPath: seq<string>,
    assumptions: seq<string>,
    restrictions: seq<Restriction>)

  datatype ProposalError =
    | EvidenceScopeMismatch
    | EvidenceRequired
    | ChildRequired
    | RestrictionConflict
    | ContentRefused
    | RepeatedType

  function EntitiesOf(drafts: seq<PrimitiveDraft>): seq<CodeSymbol> {
    if drafts == [] then [] else drafts[0].entityRefs + EntitiesOf(drafts[1..])
  }

  function PairDrafts(upstream: Primitive, downstream: Primitive): seq<PrimitiveDraft> {
    upstream.inputs + downstream.inputs
    + (if upstream.result.Some? then [upstream.result.value] else [])
    + (if downstream.result.Some? then [downstream.result.value] else [])
  }

  function Locations(entities: seq<CodeSymbol>): seq<string> {
    seq(|entities|, k requires 0 <= k < |entities| => entities[k].location)
  }

  function Without(drafts: seq<PrimitiveDraft>, inputId: string): seq<PrimitiveDraft> {
    if drafts == [] then []
    else (if drafts[0].draftId != inputId then [drafts[0]] else []) + Without(drafts[1..], inputId)
  }

  function Descriptions(drafts: seq<PrimitiveDraft>): seq<string> {
    seq(|drafts|, k requires 0 <= k < |drafts| => drafts[k].description)
  }

  // The assumptions a proposal still carries: every input but the matched one.
  function RemainingAssumptions(upstream: Primitive, downstream: Primitive, inputId: string): seq<string> {
    Descriptions(upstream.inputs + Without(downstream.inputs, inputId))
  }

  function EvidenceFor(prompt: TrustedPrompt, keys: seq<string>): (r: seq<StoredDataRef>)
  {
    if keys == [] then []
    else (if keys[0] in prompt.evidenceRefs then prompt.evidenceRefs[keys[0]] else [])
         + EvidenceFor(prompt, keys[1..])
  }

  // One of the keys stands for the reference.
  ghost predicate CitedBy(prompt: TrustedPrompt, keys: seq<string>, ref: StoredDataRef) {
    exists key :: key in keys && key in prompt.evidenceRefs && ref in prompt.evidenceRefs[key]
  }

  lemma {:induction false} EveryKeyIsRead(prompt: TrustedPrompt, keys: seq<string>, ref: StoredDataRef)
    ensures ref in EvidenceFor(prompt, keys) <==> CitedBy(prompt, keys, ref)
  {
    if keys != [] {
      EveryKeyIsRead(prompt, keys[1..], ref);
      assert forall key :: key in keys <==> key == keys[0] || key in keys[1..];
    }
  }

  // The references stand in the order of their keys.
  lemma {:induction false} KeysAreReadInOrder(prompt: TrustedPrompt, keys: seq<string>, more: seq<string>)
    ensures EvidenceFor(prompt, keys + more) == EvidenceFor(prompt, keys) + EvidenceFor(prompt, more)
  {
    if keys == [] {
      assert keys + more == more;
    } else {
      assert (keys + more)[1..] == keys[1..] + more;
      KeysAreReadInOrder(prompt, keys[1..], more);
    }
  }

  ghost predicate KeysOwnedByPair(prompt: TrustedPrompt, keys: seq<string>, upstream: StoredDataRef,
                                  downstream: StoredDataRef) {
    forall key :: key in keys ==>
      key in prompt.evidenceOwners
      && prompt.evidenceOwners[key] != {} && prompt.evidenceOwners[key] <= {upstream, downstream}
  }

  ghost predicate IsMatchOf(c: DirectionalComparison, prompt: TrustedPrompt, d: ChainingDecision, up: Primitive,
                            down: Primitive, m: MatchCandidate) {
    && m.upstream == c.upstream && m.downstream == c.downstream && m.inputId == c.matchedInputId
    && NoDuplicates(m.evidence) && m.evidence != []
    && (forall ref :: ref in m.evidence <==> CitedBy(prompt, d.evidenceKeys, ref))
    && m.evidence == Unique(EvidenceFor(prompt, d.evidenceKeys))
    && KeysOwnedByPair(prompt, d.evidenceKeys, c.upstream, c.downstream)
    && m.parentHypotheses == Unique([up.sourceHypothesisId, down.sourceHypothesisId])
    && m.parentVerifications == Unique([up.sourceVerificationRef, down.sourceVerificationRef])
  }

  ghost predicate IsProposalOf(d: ChainingDecision, m: MatchCandidate, up: Primitive, down: Primitive,
                               p: HypothesisProposal) {
    && d.child.Some? && p.statement == d.child.value.statement
    && p.vulnerabilityTypes == d.child.value.vulnerabilityTypes && NoDuplicates(p.vulnerabilityTypes)
    && p.falsificationQuestions == d.child.value.falsificationQuestions
    && p.validationChecks == d.child.value.validationChecks
    && p.sourceMatchId == m.matchId && p.parentHypotheses == m.parentHypotheses
    && p.targetEntities == Unique(EntitiesOf(PairDrafts(up, down)))
    && p.targetLocations == p.suspectedPath == Unique(Locations(p.targetEntities))
    && p.assumptions == RemainingAssumptions(up, down, m.inputId)
    && NoDuplicates(p.restrictions)
    && Elements(p.restrictions) == Elements(up.restrictions + down.restrictions)
    && Compatible(up.restrictions + down.restrictions)
  }

  // The field rules of the proposal record on what the agent contributed.
  ghost predicate TextAccepted(child: ChildContent) {
    && !Blank(child.statement) && NoneBlank(child.vulnerabilityTypes)
    && child.falsificationQuestions != [] && NoneBlank(child.falsificationQuestions)
    && child.validationChecks != [] && NoneBlank(child.validationChecks)
  }

  // Why a match and its proposal cannot be made: the first check that fails.
  ghost function ProposalFault(c: DirectionalComparison, d: ChainingDecision, up: Primitive, down: Primitive,
                               prompt: TrustedPrompt): Option<ProposalError>
  {
    if !KeysOwnedByPair(prompt, d.evidenceKeys, c.upstream, c.downstream) then Some(EvidenceScopeMismatch)
    else if forall ref :: !CitedBy(prompt, d.evidenceKeys, ref) then Some(EvidenceRequired)
    else if d.child.None? then Some(ChildRequired)
    else if !Compatible(up.restrictions + down.restrictions) then Some(RestrictionConflict)
    else if !TextAccepted(d.child.value) then Some(ContentRefused)
    else if !NoDuplicates(d.child.value.vulnerabilityTypes) then Some(RepeatedType)
    else None
  }

  method MatchAndProposal(c: DirectionalComparison, d: ChainingDecision, up: Primitive, down: Primitive,
                          prompt: TrustedPrompt, nextId: nat)
    returns (r: Result<(MatchCandidate, HypothesisProposal), ProposalError>)
    ensures r.Ok? <==>
      KeysOwnedByPair(prompt, d.evidenceKeys, c.upstream, c.downstream)
      && (exists ref :: CitedBy(prompt, d.evidenceKeys, ref))
      && Compatible(up.restrictions + down.restrictions)
      && d.child.Some? && TextAccepted(d.child.value) && NoDuplicates(d.child.value.vulnerabilityTypes)
    ensures ProposalFault(c, d, up, down, prompt) == if r.Ok? then None else Some(r.error)
    ensures r.Ok? ==> r.value.0.matchId == nextId
    ensures r.Ok? ==> IsMatchOf(c, prompt, d, up, down, r.value.0)
    ensures r.Ok? ==> IsProposalOf(d, r.value.0, up, down, r.value.1)
    ensures r.Ok? ==> forall ref :: ref in r.value.0.evidence <==>
      exists key :: key in d.evidenceKeys && key in prompt.evidenceRefs && ref in prompt.evidenceRefs[key]
  {
    if exists key :: key in d.evidenceKeys
         && (key !in prompt.evidenceOwners || prompt.evidenceOwners[key] == {}
             || !(prompt.evidenceOwners[key] <= {c.upstream, c.downstream}))
    {
      return Err(EvidenceScopeMismatch);
    }
    var evidence := UniqueValues(EvidenceFor(prompt, d.evidenceKeys));
    forall ref ensures ref in evidence <==> CitedBy(prompt, d.evidenceKeys, ref) {
      EveryKeyIsRead(prompt, d.evidenceKeys, ref);
    }
    if evidence == [] {
      return Err(EvidenceRequired);
    }
    assert CitedBy(prompt, d.evidenceKeys, evidence[0]);
    var parents := UniqueValues([up.sourceHypothesisId, down.sourceHypothesisId]);
    var verifications := UniqueValues([up.sourceVerificationRef, down.sourceVerificationRef]);
    var m := MatchCandidate(nextId, c.upstream, c.downstream, c.matchedInputId, parents, verifications, evidence);
    if d.child.None? {
      return Err(ChildRequired);
    }
    var entities := UniqueValues(EntitiesOf(PairDrafts(up, down)));
    var locations := UniqueValues(Locations(entities));
    var restrictions := MergedRestrictions(up, down);
    if restrictions.None? {
      return Err(RestrictionConflict);
    }
    var child := d.child.value;
    if Blank(child.statement) || (exists text :: text in child.vulnerabilityTypes && Blank(text))
       || child.falsificationQuestions == []
       || (exists text :: text in child.falsificationQuestions && Blank(text))
       || child.validationChecks == [] || exists text :: text in child.validationChecks && Blank(text)
    {
      return Err(ContentRefused);
    }
    if !NoDuplicates(child.vulnerabilityTypes) {
      return Err(RepeatedType);
    }
    var p := HypothesisProposal(nextId, child.statement, child.vulnerabilityTypes, child.falsificationQuestions,
                                child.validationChecks, parents, entities, locations, locations,
                                RemainingAssumptions(up, down, c.matchedInputId), restrictions.value);
    return Ok((m, p));
  }

  // Evidence on a match comes from one of its two primitives.
  lemma MatchEvidenceIsCited(entries: seq<PrimitiveEntry>, comparisons: seq<DirectionalComparison>,
                             prompt: TrustedPrompt, c: DirectionalComparison, d: ChainingDecision, up: Primitive,
                             down: Primitive, m: MatchCandidate, ref: StoredDataRef)
    requires PromptSound(entries, comparisons, prompt) && DistinctRefs(entries)
    requires PrimitiveEntry(c.upstream, up) in entries && PrimitiveEntry(c.downstream, down) in entries
    requires IsMatchOf(c, prompt, d, up, down, m) && ref in m.evidence
    ensures ref in Cited(up) || ref in Cited(down)
  {
    var key :| key in d.evidenceKeys && key in prompt.evidenceRefs && ref in prompt.evidenceRefs[key];
    assert key in Elements(prompt.evidence);
    assert EvidenceBacked(prompt, entries, key);
    var e :| e in entries && prompt.evidenceOwners[key] == {e.ref}
      && Elements(prompt.evidenceRefs[key]) <= Cited(e.primitive);
    assert e.ref in prompt.evidenceOwners[key];
    SameEntry(entries, e, if e.ref == c.upstream then PrimitiveEntry(c.upstream, up)
                          else PrimitiveEntry(c.downstream, down));
  }

  lemma SameEntry(entries: seq<PrimitiveEntry>, a: PrimitiveEntry, b: PrimitiveEntry)
    requires DistinctRefs(entries) && a in entries && b in entries && a.ref == b.ref
    ensures a == b
  {
    var i :| 0 <= i < |entries| && entries[i] == a;
    var j :| 0 <= j < |entries| && entries[j] == b;
    assert i == j;
  }

  // ------------------------------------------------------ what a proposal is made from

  // The Primitive names the entity in one of its drafts.
  ghost predicate NamesIn(p: Primitive, x: CodeSymbol) {
    || (exists draft :: draft in p.inputs && x in draft.entityRefs)
    || (p.result.Some? && x in p.result.value.entityRefs)
  }

  lemma {:induction false} EntityHasDraft(drafts: seq<PrimitiveDraft>, x: CodeSymbol)
    ensures x in EntitiesOf(drafts) <==> exists draft :: draft in drafts && x in draft.entityRefs
  {
    if drafts != [] {
      EntityHasDraft(drafts[1..], x);
      assert forall draft :: draft in drafts <==> draft == drafts[0] || draft in drafts[1..];
    }
  }

  lemma {:induction false} EntitiesInOrder(drafts: seq<PrimitiveDraft>, more: seq<PrimitiveDraft>)
    ensures EntitiesOf(drafts + more) == EntitiesOf(drafts) + EntitiesOf(more)
  {
    if drafts == [] {
      assert drafts + more == more;
    } else {
      assert (drafts + more)[1..] == drafts[1..] + more;
      EntitiesInOrder(drafts[1..], more);
    }
  }

  lemma PairEntities(up: Primitive, down: Primitive, x: CodeSymbol)
    ensures x in EntitiesOf(PairDrafts(up, down)) <==> NamesIn(up, x) || NamesIn(down, x)
  {
    EntityHasDraft(PairDrafts(up, down), x);
    if draft :| draft in up.inputs && x in draft.entityRefs {
      assert draft in PairDrafts(up, down);
    }
    if draft :| draft in down.inputs && x in draft.entityRefs {
      assert draft in PairDrafts(up, down);
    }
    assert up.result.Some? ==> up.result.value in PairDrafts(up, down);
    assert down.result.Some? ==> down.result.value in PairDrafts(up, down);
  }

  // A proposal targets every entity that a draft of its pair names, once, at their locations.
  lemma ProposalTargets(d: ChainingDecision, m: MatchCandidate, up: Primitive, down: Primitive, p: HypothesisProposal)
    requires IsProposalOf(d, m, up, down, p)
    ensures NoDuplicates(p.targetEntities)
    ensures forall x :: x in p.targetEntities <==> NamesIn(up, x) || NamesIn(down, x)
    ensures NoDuplicates(p.targetLocations) && p.suspectedPath == p.targetLocations
    ensures forall l :: l in p.targetLocations <==> exists x :: x in p.targetEntities && x.location == l
  {
    var entities := EntitiesOf(PairDrafts(up, down));
    UniqueKeepsFirst(entities);
    UniqueKeepsFirst(Locations(p.targetEntities));
    forall x ensures x in p.targetEntities <==> NamesIn(up, x) || NamesIn(down, x) {
      PairEntities(up, down, x);
    }
    forall l ensures l in Locations(p.targetEntities) <==> exists x :: x in p.targetEntities && x.location == l {
      if x :| x in p.targetEntities && x.location == l {
        var k :| 0 <= k < |p.targetEntities| && p.targetEntities[k] == x;
        assert Locations(p.targetEntities)[k] == l;
      }
    }
  }

  lemma {:induction false} WithoutOne(drafts: seq<PrimitiveDraft>, k: nat)
    requires k < |drafts| && forall i :: 0 <= i < |drafts| && i != k ==> drafts[i].draftId != drafts[k].draftId
    ensures Without(drafts, drafts[k].draftId) == drafts[..k] + drafts[k + 1..]
  {
    if k == 0 {
      WithoutNone(drafts[1..], drafts[0].draftId);
    } else {
      WithoutOne(drafts[1..], k - 1);
      assert drafts[..k] == [drafts[0]] + drafts[1..][..k - 1];
    }
  }

  lemma {:induction false} WithoutNone(drafts: seq<PrimitiveDraft>, inputId: string)
    requires forall draft :: draft in drafts ==> draft.draftId != inputId
    ensures Without(drafts, inputId) == drafts
  {
    if drafts != [] {
      WithoutNone(drafts[1..], inputId);
    }
  }

  // The assumptions are the descriptions of all inputs of both Primitives except the matched one.
  lemma ProposalAssumes(d: ChainingDecision, m: MatchCandidate, up: Primitive, down: Primitive, p: HypothesisProposal,
                        k: nat)
    requires IsProposalOf(d, m, up, down, p) && WellFormed(down)
    requires k < |down.inputs| && down.inputs[k].draftId == m.inputId
    ensures |p.assumptions| == |up.inputs| + |down.inputs| - 1
    ensures forall i :: 0 <= i < |up.inputs| ==> p.assumptions[i] == up.inputs[i].description
    ensures forall i :: 0 <= i < k ==> p.assumptions[|up.inputs| + i] == down.inputs[i].description
    ensures forall i :: k < i < |down.inputs| ==> p.assumptions[|up.inputs| + i - 1] == down.inputs[i].description
  {
    WithoutOne(down.inputs, k);
  }
}
