/** Directional comparisons and pair ownership (chaining/matching.py, chaining/service.py). */
module Matching {
  import opened Basics
  import opened Refs
  import opened Ordering
  import opened Keys
  import opened Primitives

  datatype DirectionalComparison = DirectionalComparison(
    comparisonKey: string,
    upstream: StoredDataRef,
    downstream: StoredDataRef,
    matchedInputId: string)

  datatype MatchingError =
    | PinnedUniverseMismatch
    | SelfPairForbidden
    | RecordRefInvalid
    | PoolHistoryMismatch

  // One result-to-input question, without its key.
  datatype Question = Question(upstream: StoredDataRef, downstream: StoredDataRef, inputId: string)

  ghost function QuestionOf(c: DirectionalComparison): Question {
    Question(c.upstream, c.downstream, c.matchedInputId)
  }

  ghost predicate Asked(up: PrimitiveEntry, down: PrimitiveEntry, q: Question) {
    && q.upstream == up.ref && q.downstream == down.ref
    && up.primitive.result.Some? && AsksFor(down.primitive, q.inputId)
  }

  ghost predicate AskedBetween(trigger: PrimitiveEntry, other: PrimitiveEntry, q: Question) {
    Asked(trigger, other, q) || Asked(other, trigger, q)
  }

  // The questions a work may ask about its trigger and the other pinned Primitives.
  ghost predicate AskedInUniverse(trigger: PrimitiveEntry, entries: seq<PrimitiveEntry>, q: Question) {
    exists e :: e in entries && e.ref != trigger.ref && AskedBetween(trigger, e, q)
  }

  ghost predicate Contains(comparisons: seq<DirectionalComparison>, q: Question) {
    exists k :: 0 <= k < |comparisons| && QuestionOf(comparisons[k]) == q
  }

  ghost predicate Numbered(comparisons: seq<DirectionalComparison>) {
    forall k :: 0 <= k < |comparisons| ==> comparisons[k].comparisonKey == Key("comparison", k + 1)
  }

  ghost predicate IsComparisonKey(key: string) {
    exists n: nat :: key == Key("comparison", n)
  }

  ghost predicate NoRepeatedQuestion(comparisons: seq<DirectionalComparison>) {
    forall i, j :: 0 <= i < j < |comparisons| ==> QuestionOf(comparisons[i]) != QuestionOf(comparisons[j])
  }

  ghost predicate SameScope(trigger: Primitive, p: Primitive) {
    && p.analysisId == trigger.analysisId
    && p.metaWorkspaceId == trigger.metaWorkspaceId && p.metaCommitId == trigger.metaCommitId
    && p.workspaceId == p.metaWorkspaceId && p.commitId == p.metaCommitId
  }

  function EntryFor(entries: seq<PrimitiveEntry>, ref: StoredDataRef): (e: PrimitiveEntry)
    requires Lists(entries, ref)
    ensures e in entries && e.ref == ref
  {
    if entries[0].ref == ref then entries[0]
    else
      assert Lists(entries[1..], ref) by {
        var k :| 0 <= k < |entries| && entries[k].ref == ref;
        assert entries[1..][k - 1].ref == ref;
      }
      EntryFor(entries[1..], ref)
  }

  ghost predicate Pinned(entries: seq<PrimitiveEntry>, trigger: StoredDataRef) {
    && DistinctRefs(entries) && Lists(entries, trigger)
    && forall e :: e in entries ==>
      e.primitive.selfRef == e.ref && SameScope(EntryFor(entries, trigger).primitive, e.primitive)
  }

  function RefsIn(entries: seq<PrimitiveEntry>): seq<StoredDataRef> {
    seq(|entries|, k requires 0 <= k < |entries| => entries[k].ref)
  }

  // The checks on the universe before anything is compared.
  method CheckPinned(trigger: StoredDataRef, entries: seq<PrimitiveEntry>) returns (pinned: bool)
    ensures pinned <==> Pinned(entries, trigger)
  {
    var refs := RefsIn(entries);
    DistinctByCount(refs);
    if |Elements(refs)| != |entries| {
      assert !DistinctRefs(entries);
      return false;
    }
    assert DistinctRefs(entries) by {
      forall i, j | 0 <= i < j < |entries| ensures entries[i].ref != entries[j].ref {
        assert refs[i] != refs[j];
      }
    }
    if trigger !in refs {
      assert forall k :: 0 <= k < |entries| ==> refs[k] == entries[k].ref;
      return false;
    }
    var k :| 0 <= k < |entries| && refs[k] == trigger;
    assert entries[k].ref == trigger;
    var own := EntryFor(entries, trigger).primitive;
    for i := 0 to |entries|
      invariant forall m :: 0 <= m < i ==>
        entries[m].primitive.selfRef == entries[m].ref && SameScope(own, entries[m].primitive)
    {
      var p := entries[i].primitive;
      if p.selfRef != entries[i].ref || p.analysisId != own.analysisId || p.metaWorkspaceId != own.metaWorkspaceId
         || p.metaCommitId != own.metaCommitId || p.workspaceId != p.metaWorkspaceId || p.commitId != p.metaCommitId
      {
        assert entries[i] in entries;
        return false;
      }
    }
    return true;
  }

  // ------------------------------------------------------------ enumeration

  ghost function QuestionsIn(comparisons: seq<DirectionalComparison>): (questions: seq<Question>)
    ensures |questions| == |comparisons|
  {
    seq(|comparisons|, k requires 0 <= k < |comparisons| => QuestionOf(comparisons[k]))
  }

  // The result of one Primitive against the inputs of the other, in their order.
  ghost function Direction(up: PrimitiveEntry, down: PrimitiveEntry): seq<Question> {
    if up.primitive.result.None? then []
    else
      var inputs := down.primitive.inputs;
      seq(|inputs|, k requires 0 <= k < |inputs| => Question(up.ref, down.ref, inputs[k].draftId))
  }

  // Entry by entry, first what the trigger yields and then what it needs.
  ghost function Enumeration(own: PrimitiveEntry, entries: seq<PrimitiveEntry>): seq<Question> {
    if entries == [] then []
    else
      var init, other := entries[..|entries| - 1], entries[|entries| - 1];
      Enumeration(own, init)
      + if other.ref == own.ref then [] else Direction(own, other) + Direction(other, own)
  }

  lemma {:induction false} EnumerationStep(own: PrimitiveEntry, entries: seq<PrimitiveEntry>, i: nat)
    requires i < |entries|
    ensures Enumeration(own, entries[..i + 1])
         == Enumeration(own, entries[..i])
            + if entries[i].ref == own.ref then [] else Direction(own, entries[i]) + Direction(entries[i], own)
  {
    assert entries[..i + 1][..i] == entries[..i];
  }

  // The questions of one direction, numbered on from the comparisons so far.
  method AppendDirection(comparisons: seq<DirectionalComparison>, up: PrimitiveEntry, down: PrimitiveEntry)
    returns (more: seq<DirectionalComparison>)
    requires Numbered(comparisons)
    ensures Numbered(more) && comparisons <= more
    ensures QuestionsIn(more) == QuestionsIn(comparisons) + Direction(up, down)
  {
    more := comparisons;
    if up.primitive.result.None? {
      return;
    }
    var inputs := down.primitive.inputs;
    for k := 0 to |inputs|
      invariant Numbered(more) && comparisons <= more && |more| == |comparisons| + k
      invariant forall m :: |comparisons| <= m < |more| ==>
        QuestionOf(more[m]) == Question(up.ref, down.ref, inputs[m - |comparisons|].draftId)
    {
      more := more +
        [DirectionalComparison(Key("comparison", |more| + 1), up.ref, down.ref, inputs[k].draftId)];
    }
    assert QuestionsIn(more) == QuestionsIn(comparisons) + Direction(up, down);
  }

  method DirectionalComparisons(trigger: StoredDataRef, entries: seq<PrimitiveEntry>)
    returns (r: Result<seq<DirectionalComparison>, MatchingError>)
    ensures r.Ok? <==> Pinned(entries, trigger)
    ensures r.Err? ==> r.error == PinnedUniverseMismatch
    ensures r.Ok? ==> Numbered(r.value)
    ensures r.Ok? ==> QuestionsIn(r.value) == Enumeration(EntryFor(entries, trigger), entries)
    ensures r.Ok? ==> forall q :: Contains(r.value, q) <==> AskedInUniverse(EntryFor(entries, trigger), entries, q)
    ensures r.Ok? && (forall e :: e in entries ==> WellFormed(e.primitive)) ==> NoRepeatedQuestion(r.value)
  {
    var pinned := CheckPinned(trigger, entries);
    if !pinned {
      return Err(PinnedUniverseMismatch);
    }
    var own := EntryFor(entries, trigger);
    var comparisons := Enumerate(own, entries);
    EnumerationIsComplete(own, entries, comparisons);
    return Ok(comparisons);
  }

  // The loop over the entries.
  method Enumerate(own: PrimitiveEntry, entries: seq<PrimitiveEntry>)
    returns (comparisons: seq<DirectionalComparison>)
    ensures Numbered(comparisons) && QuestionsIn(comparisons) == Enumeration(own, entries)
  {
    comparisons := [];
    for i := 0 to |entries|
      invariant Numbered(comparisons) && QuestionsIn(comparisons) == Enumeration(own, entries[..i])
    {
      var other := entries[i];
      EnumerationStep(own, entries, i);
      if other.ref != own.ref {
        comparisons := AppendDirection(comparisons, own, other);
        comparisons := AppendDirection(comparisons, other, own);
      }
    }
    assert entries[..|entries|] == entries;
  }

  // The enumeration lists every question of the universe, and none twice.
  lemma {:induction false} EnumerationIsComplete(own: PrimitiveEntry, entries: seq<PrimitiveEntry>,
                                                 comparisons: seq<DirectionalComparison>)
    requires QuestionsIn(comparisons) == Enumeration(own, entries) && DistinctRefs(entries) && own in entries
    ensures forall q :: Contains(comparisons, q) <==> AskedInUniverse(own, entries, q)
    ensures (forall e :: e in entries ==> WellFormed(e.primitive)) ==> NoRepeatedQuestion(comparisons)
  {
    forall q ensures Contains(comparisons, q) <==> AskedInUniverse(own, entries, q) {
      ContainsIffListed(comparisons, q);
      EnumeratedIffAsked(own, entries, q);
    }
    if forall e :: e in entries ==> WellFormed(e.primitive) {
      EnumerationIsDistinct(own, entries);
      DistinctQuestions(comparisons);
    }
  }

  lemma ContainsIffListed(comparisons: seq<DirectionalComparison>, q: Question)
    ensures Contains(comparisons, q) <==> q in QuestionsIn(comparisons)
  {
    if k :| 0 <= k < |comparisons| && QuestionOf(comparisons[k]) == q {
      assert QuestionsIn(comparisons)[k] == q;
    }
  }

  lemma DistinctQuestions(comparisons: seq<DirectionalComparison>)
    requires NoDuplicates(QuestionsIn(comparisons))
    ensures NoRepeatedQuestion(comparisons)
  {
    forall i, j | 0 <= i < j < |comparisons| ensures QuestionOf(comparisons[i]) != QuestionOf(comparisons[j]) {
      assert QuestionsIn(comparisons)[i] != QuestionsIn(comparisons)[j];
    }
  }

  lemma DirectionIffAsked(up: PrimitiveEntry, down: PrimitiveEntry, q: Question)
    ensures q in Direction(up, down) <==> Asked(up, down, q)
  {
    if Asked(up, down, q) {
      var k :| 0 <= k < |down.primitive.inputs| && down.primitive.inputs[k].draftId == q.inputId;
      assert Direction(up, down)[k] == q;
    }
  }

  lemma {:induction false} EnumeratedIffAsked(own: PrimitiveEntry, entries: seq<PrimitiveEntry>, q: Question)
    ensures q in Enumeration(own, entries) <==> AskedInUniverse(own, entries, q)
  {
    if entries != [] {
      var init, other := entries[..|entries| - 1], entries[|entries| - 1];
      assert entries == init + [other];
      EnumeratedIffAsked(own, init, q);
      DirectionIffAsked(own, other, q);
      DirectionIffAsked(other, own, q);
      assert AskedInUniverse(own, entries, q) <==>
        AskedInUniverse(own, init, q) || (other.ref != own.ref && AskedBetween(own, other, q)) by {
        if e :| e in init && e.ref != own.ref && AskedBetween(own, e, q) {
          assert e in entries;
        }
        assert other in entries;
      }
    }
  }

  lemma {:induction false} EnumerationIsDistinct(own: PrimitiveEntry, entries: seq<PrimitiveEntry>)
    requires DistinctRefs(entries) && WellFormed(own.primitive)
    requires forall e :: e in entries ==> WellFormed(e.primitive)
    ensures NoDuplicates(Enumeration(own, entries))
  {
    if entries != [] {
      var init, other := entries[..|entries| - 1], entries[|entries| - 1];
      assert entries == init + [other];
      EnumerationIsDistinct(own, init);
      if other.ref != own.ref {
        DirectionsAreDistinct(own, other);
        forall q | q in Enumeration(own, init) ensures q !in Direction(own, other) + Direction(other, own) {
          OlderIsElsewhere(own, init, other, q);
        }
        DisjointAppend(Enumeration(own, init), Direction(own, other) + Direction(other, own));
      }
    }
  }

  lemma {:induction false} OlderIsElsewhere(own: PrimitiveEntry, init: seq<PrimitiveEntry>, other: PrimitiveEntry,
                                            q: Question)
    requires DistinctRefs(init + [other]) && other.ref != own.ref && q in Enumeration(own, init)
    ensures q !in Direction(own, other) + Direction(other, own)
  {
    EnumeratedIffAsked(own, init, q);
    DirectionIffAsked(own, other, q);
    DirectionIffAsked(other, own, q);
    var e :| e in init && e.ref != own.ref && AskedBetween(own, e, q);
    var m :| 0 <= m < |init| && init[m] == e;
    assert (init + [other])[m].ref != (init + [other])[|init|].ref;
  }

  lemma DirectionsAreDistinct(own: PrimitiveEntry, other: PrimitiveEntry)
    requires own.ref != other.ref && WellFormed(own.primitive) && WellFormed(other.primitive)
    ensures NoDuplicates(Direction(own, other) + Direction(other, own))
  {
    DisjointAppend(Direction(own, other), Direction(other, own));
  }

  lemma DisjointAppend(a: seq<Question>, b: seq<Question>)
    requires NoDuplicates(a) && NoDuplicates(b) && forall q :: q in a ==> q !in b
    ensures NoDuplicates(a + b)
  {
    forall i, j | 0 <= i < j < |a + b| ensures (a + b)[i] != (a + b)[j] {
      assert i < |a| <= j ==> a[i] in a && b[j - |a|] in b;
    }
  }

  // The first comparison of a trigger with a result asks for the first input of the first other
  // entry; without a result it asks what the trigger itself needs.
  lemma {:induction false} FirstQuestion(own: PrimitiveEntry, other: PrimitiveEntry)
    requires own.ref != other.ref && own.primitive.inputs != [] && other.primitive.inputs != []
    requires other.primitive.result.Some?
    ensures Enumeration(own, [other])[0] ==
      if own.primitive.result.Some? then Question(own.ref, other.ref, other.primitive.inputs[0].draftId)
      else Question(other.ref, own.ref, own.primitive.inputs[0].draftId)
  {
    assert [other][..0] == [];
  }

  // A key names one comparison only.
  lemma KeysIdentify(comparisons: seq<DirectionalComparison>, i: nat, j: nat)
    requires Numbered(comparisons) && i < |comparisons| && j < |comparisons|
    requires comparisons[i].comparisonKey == comparisons[j].comparisonKey
    ensures i == j
  {
    KeyInjective("comparison", i + 1, j + 1);
  }
}
