/** The trusted prompt: every key, what it stands for and who owns it (chaining/service.py, ports/chaining.py). */
module Prompt {
  import opened Basics
  import opened Refs
  import opened Keys
  import opened Primitives
  import opened Matching

  // ---------------------------------------------------------------- evidence

  // The evidence references a Primitive may be cited with.
  ghost function Cited(p: Primitive): set<StoredDataRef> {
    {p.sourceVerificationRef}
    + (if p.technicalReviewRef.Some? then {p.technicalReviewRef.value} else {})
    + Elements(p.evidenceRefs)
  }

  // Record references of `refs` not listed yet, each once.
  function NewRecordRefs(refs: seq<StoredDataRef>, listed: seq<StoredDataRef>): (r: seq<StoredDataRef>)
    ensures forall x :: x in r ==> x in refs
  {
    if refs == [] then []
    else if refs[0] in listed || refs[0].recordId.None? then NewRecordRefs(refs[1..], listed)
    else [refs[0]] + NewRecordRefs(refs[1..], listed + [refs[0]])
  }

  function ArtifactRefs(refs: seq<StoredDataRef>): (r: seq<StoredDataRef>)
    ensures forall x :: x in r ==> x in refs
  {
    if refs == [] then []
    else (if refs[0].recordId.None? then [refs[0]] else []) + ArtifactRefs(refs[1..])
  }

  lemma {:induction false} NewRecordsOnce(refs: seq<StoredDataRef>, listed: seq<StoredDataRef>)
    ensures NoDuplicates(NewRecordRefs(refs, listed))
    ensures forall x :: x in NewRecordRefs(refs, listed) <==> x in refs && x.recordId.Some? && x !in listed
  {
    if refs != [] {
      NewRecordsOnce(refs[1..], listed);
      NewRecordsOnce(refs[1..], listed + [refs[0]]);
      assert forall x :: x in refs <==> x == refs[0] || x in refs[1..];
    }
  }

  lemma {:induction false} ArtifactsListed(refs: seq<StoredDataRef>)
    ensures forall x :: x in ArtifactRefs(refs) <==> x in refs && x.recordId.None?
  {
    if refs != [] {
      ArtifactsListed(refs[1..]);
      assert forall x :: x in refs <==> x == refs[0] || x in refs[1..];
    }
  }

  // `_semantic_evidence`, references only: the source records, further records, artifacts.
  function SemanticEvidence(p: Primitive): (r: seq<StoredDataRef>)
    ensures Elements(r) <= Cited(p)
  {
    var sources := [p.sourceVerificationRef]
      + (if p.technicalReviewRef.Some? then [p.technicalReviewRef.value] else []);
    sources + NewRecordRefs(p.evidenceRefs, sources) + ArtifactRefs(p.evidenceRefs)
  }

  // No citation is lost, and the source records come first.
  lemma AllIsSemanticEvidence(p: Primitive)
    ensures Elements(SemanticEvidence(p)) == Cited(p)
    ensures SemanticEvidence(p)[0] == p.sourceVerificationRef
    ensures p.technicalReviewRef.Some? ==>
      |SemanticEvidence(p)| > 1 && SemanticEvidence(p)[1] == p.technicalReviewRef.value
  {
    var sources := [p.sourceVerificationRef]
      + (if p.technicalReviewRef.Some? then [p.technicalReviewRef.value] else []);
    NewRecordsOnce(p.evidenceRefs, sources);
    ArtifactsListed(p.evidenceRefs);
    forall x | x in Cited(p) ensures x in SemanticEvidence(p) {
    }
  }

  function Drafts(p: Primitive): seq<PrimitiveDraft> {
    p.inputs + (if p.result.Some? then [p.result.value] else [])
  }

  // -------------------------------------------------------------------- keys

  datatype Origin = EvidenceOf(entry: nat, item: nat) | Entity(count: nat)

  ghost function OriginKey(o: Origin): string {
    match o
    case EvidenceOf(i, j) => Key2("evidence", i, j)
    case Entity(c) => Key("entity", c)
  }

  lemma OriginKeyInjective(a: Origin, b: Origin)
    requires OriginKey(a) == OriginKey(b)
    ensures a == b
  {
    assert OriginKey(a)[1] == if a.Entity? then 'n' else 'v';
    assert OriginKey(b)[1] == if b.Entity? then 'n' else 'v';
    match a
    case EvidenceOf(i, j) => Key2Injective("evidence", i, j, b.entry, b.item);
    case Entity(c) => KeyInjective("entity", c, b.count);
  }

  // An evidence key or an entity key.
  ghost predicate IsOriginKey(key: string) {
    exists o: Origin :: OriginKey(o) == key
  }

  // Key `o` was issued before evidence (i, j) and with at most `count` entities so far.
  ghost predicate Before(o: Origin, i: nat, j: nat, count: nat) {
    match o
    case EvidenceOf(i', j') => i' < i || (i' == i && j' < j)
    case Entity(c) => c <= count
  }

  // ---------------------------------------------------------------- messages

  datatype PromptInput = PromptInput(inputKey: string, entityKeys: seq<string>, evidenceKeys: seq<string>)

  datatype PromptResult = PromptResult(entityKeys: seq<string>, evidenceKeys: seq<string>)

  datatype PromptPrimitive = PromptPrimitive(
    primitiveKey: string, inputs: seq<PromptInput>, result: Option<PromptResult>)

  datatype PromptComparison = PromptComparison(
    comparisonKey: string, upstreamKey: string, downstreamKey: string, inputKey: string)

  datatype TrustedPrompt = TrustedPrompt(
    evidence: seq<string>,
    primitives: seq<PromptPrimitive>,
    comparisons: seq<PromptComparison>,
    evidenceRefs: map<string, seq<StoredDataRef>>,
    evidenceOwners: map<string, set<StoredDataRef>>)

  // ------------------------------------------------------------------ ledger

  type EntityId = (StoredDataRef, CodeSymbol)

  // The dictionaries `_prompt` fills while it walks the entries.
  datatype Ledger = Ledger(
    evidence: seq<string>,
    evidenceRefs: map<string, seq<StoredDataRef>>,
    evidenceOwners: map<string, set<StoredDataRef>>,
    entityKeys: map<EntityId, string>,
    entityCounter: nat)

  const EMPTY_LEDGER := Ledger([], map[], map[], map[], 0)

  // Why a key exists: what it was built from, for which entry, and the entity it names.
  datatype Issue = Issue(origin: Origin, entry: PrimitiveEntry, entity: Option<CodeSymbol>)

  type Issues = map<string, Issue>

  ghost predicate Backed(ledger: Ledger, issues: Issues, entries: seq<PrimitiveEntry>, key: string)
    requires key in issues && key in ledger.evidenceRefs && key in ledger.evidenceOwners
  {
    var e := issues[key].entry;
    && OriginKey(issues[key].origin) == key
    && e in entries
    && ledger.evidenceOwners[key] == {e.ref}
    && Elements(ledger.evidenceRefs[key]) <= Cited(e.primitive)
    && (ledger.evidenceRefs[key] == [] ==> e.primitive.evidenceRefs == [])
  }

  ghost predicate Consistent(ledger: Ledger, issues: Issues, entries: seq<PrimitiveEntry>) {
    && NoDuplicates(ledger.evidence)
    && Elements(ledger.evidence) == ledger.evidenceRefs.Keys == ledger.evidenceOwners.Keys == issues.Keys
    && (forall key {:trigger Backed(ledger, issues, entries, key)} ::
          key in issues ==> Backed(ledger, issues, entries, key))
    && (forall id {:trigger EntityKeyed(ledger, issues, id)} ::
          id in ledger.entityKeys ==> EntityKeyed(ledger, issues, id))
  }

  // The key of an entity was issued for it and for nothing else.
  ghost predicate EntityKeyed(ledger: Ledger, issues: Issues, id: EntityId) {
    && id in ledger.entityKeys
    && var key := ledger.entityKeys[id];
    && key in issues && issues[key].entry.ref == id.0 && issues[key].entity == Some(id.1)
    && key in ledger.evidenceRefs && ledger.evidenceRefs[key] == issues[key].entry.primitive.evidenceRefs
  }

  ghost predicate IssuedBefore(issues: Issues, i: nat, j: nat, count: nat) {
    forall key :: key in issues ==> Before(issues[key].origin, i, j, count)
  }

  // Everything recorded before is still recorded, unchanged.
  ghost predicate Extends(before: Ledger, after: Ledger) {
    && (forall key :: key in before.evidenceOwners ==>
          key in after.evidenceOwners && after.evidenceOwners[key] == before.evidenceOwners[key])
    && (forall key :: key in before.evidenceRefs ==>
          key in after.evidenceRefs && after.evidenceRefs[key] == before.evidenceRefs[key])
    && (forall id :: id in before.entityKeys ==>
          id in after.entityKeys && after.entityKeys[id] == before.entityKeys[id])
  }

  lemma FreshKey(ledger: Ledger, issues: Issues, entries: seq<PrimitiveEntry>, origin: Origin, i: nat, j: nat)
    requires Consistent(ledger, issues, entries) && IssuedBefore(issues, i, j, ledger.entityCounter)
    requires !Before(origin, i, j, ledger.entityCounter)
    ensures OriginKey(origin) !in issues
  {
    var key := OriginKey(origin);
    if key in issues {
      assert Backed(ledger, issues, entries, key);
      OriginKeyInjective(origin, issues[key].origin);
    }
  }

  method AddEvidence(ledger: Ledger, key: string, refs: seq<StoredDataRef>, e: PrimitiveEntry, ghost issues: Issues,
                     ghost origin: Origin, ghost entity: Option<CodeSymbol>, ghost entries: seq<PrimitiveEntry>)
    returns (more: Ledger, ghost moreIssues: Issues)
    requires Consistent(ledger, issues, entries) && e in entries && Elements(refs) <= Cited(e.primitive)
    requires key == OriginKey(origin) && key !in issues && (refs == [] ==> e.primitive.evidenceRefs == [])
    ensures Consistent(more, moreIssues, entries) && Extends(ledger, more)
    ensures moreIssues == issues[key := Issue(origin, e, entity)]
    ensures key in more.evidenceOwners && more.evidenceOwners[key] == {e.ref}
    ensures key in more.evidenceRefs && more.evidenceRefs[key] == refs
    ensures more.entityKeys == ledger.entityKeys && more.entityCounter == ledger.entityCounter
  {
    assert key !in Elements(ledger.evidence);
    AppendKeepsNoDuplicates(ledger.evidence, key);
    more := ledger.(
      evidence := ledger.evidence + [key],
      evidenceRefs := ledger.evidenceRefs[key := refs],
      evidenceOwners := ledger.evidenceOwners[key := {e.ref}]);
    moreIssues := issues[key := Issue(origin, e, entity)];
    forall k | k in moreIssues ensures Backed(more, moreIssues, entries, k) {
      if k != key {
        assert Backed(ledger, issues, entries, k);
      }
    }
    forall id | id in more.entityKeys ensures EntityKeyed(more, moreIssues, id) {
      assert EntityKeyed(ledger, issues, id);
    }
  }

  type RefsByKey = map<string, seq<StoredDataRef>>

  type OwnersByKey = map<string, set<StoredDataRef>>

  // `keys` are the numbered keys of entry `i`; key by key they stand for its first semantic
  // evidence references.
  ghost predicate StandsFor(refs: RefsByKey, owners: OwnersByKey, e: PrimitiveEntry, i: nat, keys: seq<string>) {
    && |keys| <= |SemanticEvidence(e.primitive)|
    && forall k :: 0 <= k < |keys| ==>
      keys[k] == Key2("evidence", i, k + 1)
      && keys[k] in owners && owners[keys[k]] == {e.ref}
      && keys[k] in refs && refs[keys[k]] == [SemanticEvidence(e.primitive)[k]]
  }

  // One key for each semantic evidence reference.
  ghost predicate StandsForAll(refs: RefsByKey, owners: OwnersByKey, e: PrimitiveEntry, i: nat, keys: seq<string>) {
    StandsFor(refs, owners, e, i, keys) && |keys| == |SemanticEvidence(e.primitive)|
  }

  ghost predicate LocalKeys(ledger: Ledger, e: PrimitiveEntry, i: nat, localKeys: seq<string>) {
    StandsFor(ledger.evidenceRefs, ledger.evidenceOwners, e, i, localKeys)
  }

  lemma IssueLater(issues: Issues, key: string, issue: Issue, i: nat, j: nat, count: nat, j': nat, count': nat)
    requires IssuedBefore(issues, i, j, count) && j <= j' && count <= count'
    requires Before(issue.origin, i, j', count')
    ensures IssuedBefore(issues[key := issue], i, j', count')
  {
  }

  lemma LocalKeysGrow(before: Ledger, after: Ledger, e: PrimitiveEntry, i: nat, localKeys: seq<string>)
    requires LocalKeys(before, e, i, localKeys) && Extends(before, after)
    ensures LocalKeys(after, e, i, localKeys)
  {
  }

  lemma ExtendsTransitive(a: Ledger, b: Ledger, c: Ledger)
    requires Extends(a, b) && Extends(b, c)
    ensures Extends(a, c)
  {
  }

  lemma RegisterEntity(ledger: Ledger, issues: Issues, entries: seq<PrimitiveEntry>, id: EntityId, key: string,
                       count: nat)
    requires Consistent(ledger, issues, entries) && id !in ledger.entityKeys
    requires key in issues && issues[key].entry.ref == id.0 && issues[key].entity == Some(id.1)
    requires key in ledger.evidenceRefs && ledger.evidenceRefs[key] == issues[key].entry.primitive.evidenceRefs
    ensures var more := ledger.(entityCounter := count, entityKeys := ledger.entityKeys[id := key]);
      Consistent(more, issues, entries) && Extends(ledger, more)
  {
    var more := ledger.(entityCounter := count, entityKeys := ledger.entityKeys[id := key]);
    forall k | k in issues ensures Backed(more, issues, entries, k) {
      assert Backed(ledger, issues, entries, k);
    }
    forall other | other in more.entityKeys ensures EntityKeyed(more, issues, other) {
      assert other != id ==> EntityKeyed(ledger, issues, other);
    }
  }

  method AddLocalEvidence(ledger: Ledger, e: PrimitiveEntry, i: nat, ref: StoredDataRef, localKeys: seq<string>,
                          ghost issues: Issues, ghost entries: seq<PrimitiveEntry>)
    returns (more: Ledger, key: string, ghost moreIssues: Issues)
    requires Consistent(ledger, issues, entries) && e in entries && ref in Cited(e.primitive)
    requires IssuedBefore(issues, i, |localKeys| + 1, ledger.entityCounter)
    requires LocalKeys(ledger, e, i, localKeys)
    requires |localKeys| < |SemanticEvidence(e.primitive)| && ref == SemanticEvidence(e.primitive)[|localKeys|]
    ensures Consistent(more, moreIssues, entries) && Extends(ledger, more)
    ensures more.entityCounter == ledger.entityCounter
    ensures IssuedBefore(moreIssues, i, |localKeys| + 2, more.entityCounter)
    ensures LocalKeys(more, e, i, localKeys + [key])
  {
    ghost var item := |localKeys| + 1;
    key := Key2("evidence", i, |localKeys| + 1);
    ghost var origin := EvidenceOf(i, item);
    FreshKey(ledger, issues, entries, origin, i, item);
    IssueLater(issues, key, Issue(origin, e, None), i, item, ledger.entityCounter, item + 1, ledger.entityCounter);
    more, moreIssues := AddEvidence(ledger, key, [ref], e, issues, origin, None, entries);
    LocalKeysGrow(ledger, more, e, i, localKeys);
  }

  // The evidence keys of entry `i`, one for each of its semantic evidence references.
  method AddEntryEvidence(ledger: Ledger, e: PrimitiveEntry, i: nat, ghost issues: Issues,
                          ghost entries: seq<PrimitiveEntry>)
    returns (more: Ledger, localKeys: seq<string>, ghost moreIssues: Issues)
    requires Consistent(ledger, issues, entries) && e in entries
    requires IssuedBefore(issues, i, 1, ledger.entityCounter)
    ensures Consistent(more, moreIssues, entries) && Extends(ledger, more)
    ensures IssuedBefore(moreIssues, i + 1, 1, more.entityCounter)
    ensures LocalKeys(more, e, i, localKeys) && |localKeys| == |SemanticEvidence(e.primitive)|
  {
    more, localKeys, moreIssues := ledger, [], issues;
    var refs := SemanticEvidence(e.primitive);
    for k := 0 to |refs|
      invariant Consistent(more, moreIssues, entries) && Extends(ledger, more)
      invariant more.entityCounter == ledger.entityCounter
      invariant IssuedBefore(moreIssues, i, k + 1, more.entityCounter)
      invariant LocalKeys(more, e, i, localKeys) && |localKeys| == k
    {
      assert refs[k] in Elements(refs);
      ghost var previous := more;
      var key;
      more, key, moreIssues := AddLocalEvidence(more, e, i, refs[k], localKeys, moreIssues, entries);
      ExtendsTransitive(ledger, previous, more);
      localKeys := localKeys + [key];
    }
    LaterEntry(moreIssues, i, |refs| + 1, more.entityCounter);
  }

  lemma LaterEntry(issues: Issues, i: nat, j: nat, count: nat)
    requires IssuedBefore(issues, i, j, count)
    ensures IssuedBefore(issues, i + 1, 1, count)
  {
  }

  method AddEntity(ledger: Ledger, e: PrimitiveEntry, entity: CodeSymbol, ghost issues: Issues,
                   ghost entries: seq<PrimitiveEntry>, ghost i: nat)
    returns (more: Ledger, ghost moreIssues: Issues)
    requires Consistent(ledger, issues, entries) && e in entries
    requires IssuedBefore(issues, i, 1, ledger.entityCounter)
    ensures Consistent(more, moreIssues, entries) && Extends(ledger, more)
    ensures IssuedBefore(moreIssues, i, 1, more.entityCounter)
    ensures more.entityKeys.Keys == ledger.entityKeys.Keys + {(e.ref, entity)}
  {
    var identity := (e.ref, entity);
    if identity in ledger.entityKeys {
      return ledger, issues;
    }
    var count := ledger.entityCounter + 1;
    ghost var origin := Entity(count);
    FreshKey(ledger, issues, entries, origin, i, 1);
    var key := Key("entity", count);
    IssueLater(issues, key, Issue(origin, e, Some(entity)), i, 1, ledger.entityCounter, 1, count);
    more, moreIssues :=
      AddEvidence(ledger, key, e.primitive.evidenceRefs, e, issues, origin, Some(entity), entries);
    RegisterEntity(more, moreIssues, entries, identity, key, count);
    ghost var added := more;
    more := more.(entityCounter := count, entityKeys := more.entityKeys[identity := key]);
    ExtendsTransitive(ledger, added, more);
  }

  ghost predicate DraftsKeyed(ledger: Ledger, e: PrimitiveEntry, drafts: seq<PrimitiveDraft>) {
    forall d, x :: d in drafts && x in d.entityRefs ==> (e.ref, x) in ledger.entityKeys
  }

  // One key for every entity the drafts of the entry mention, unless it has one.
  method AddEntities(ledger: Ledger, e: PrimitiveEntry, drafts: seq<PrimitiveDraft>, ghost issues: Issues,
                     ghost entries: seq<PrimitiveEntry>, ghost i: nat)
    returns (more: Ledger, ghost moreIssues: Issues)
    requires Consistent(ledger, issues, entries) && e in entries
    requires IssuedBefore(issues, i, 1, ledger.entityCounter)
    ensures Consistent(more, moreIssues, entries) && Extends(ledger, more)
    ensures IssuedBefore(moreIssues, i, 1, more.entityCounter)
    ensures DraftsKeyed(more, e, drafts)
  {
    more, moreIssues := ledger, issues;
    for a := 0 to |drafts|
      invariant Consistent(more, moreIssues, entries) && Extends(ledger, more)
      invariant IssuedBefore(moreIssues, i, 1, more.entityCounter)
      invariant DraftsKeyed(more, e, drafts[..a])
    {
      assert drafts[..a + 1] == drafts[..a] + [drafts[a]];
      var entities := drafts[a].entityRefs;
      for b := 0 to |entities|
        invariant Consistent(more, moreIssues, entries) && Extends(ledger, more)
        invariant IssuedBefore(moreIssues, i, 1, more.entityCounter)
        invariant DraftsKeyed(more, e, drafts[..a])
        invariant forall x :: x in entities[..b] ==> (e.ref, x) in more.entityKeys
      {
        assert entities[..b + 1] == entities[..b] + [entities[b]];
        more, moreIssues := AddEntity(more, e, entities[b], moreIssues, entries, i);
      }
      assert entities[..|entities|] == entities;
    }
    assert drafts[..|drafts|] == drafts;
  }

  // ------------------------------------------------------------- whole prompt

  ghost predicate OwnedKeys(owners: map<string, set<StoredDataRef>>, ref: StoredDataRef, keys: seq<string>) {
    forall key :: key in keys ==> key in owners && owners[key] == {ref}
  }

  // Primitive `k` of the prompt speaks about entry `k`: with keys that entry owns, and with one
  // evidence key for each of its semantic evidence references.
  ghost predicate Describes(refs: RefsByKey, owners: OwnersByKey, e: PrimitiveEntry, k: nat, p: PromptPrimitive) {
    && p.primitiveKey == Key("primitive", k + 1)
    && |p.inputs| == |e.primitive.inputs|
    && (forall m :: 0 <= m < |p.inputs| ==> InputDescribed(refs, owners, e, k, m, p.inputs[m]))
    && (p.result.Some? <==> e.primitive.result.Some?)
    && (p.result.Some? ==>
          OwnedKeys(owners, e.ref, p.result.value.entityKeys)
          && StandsForAll(refs, owners, e, k + 1, p.result.value.evidenceKeys))
  }

  // Every entity of the drafts has its own key, which stands for the Primitive's evidence.
  type Naming = map<EntityId, string>

  ghost predicate EntitiesNamed(naming: Naming, ref: StoredDataRef, entities: seq<CodeSymbol>, keys: seq<string>) {
    && |keys| == |entities|
    && forall x :: 0 <= x < |entities| ==> (ref, entities[x]) in naming && keys[x] == naming[(ref, entities[x])]
  }

  ghost predicate DraftsNamed(naming: Naming, e: PrimitiveEntry, p: PromptPrimitive) {
    && |p.inputs| == |e.primitive.inputs|
    && (forall m :: 0 <= m < |p.inputs| ==>
          EntitiesNamed(naming, e.ref, e.primitive.inputs[m].entityRefs, p.inputs[m].entityKeys))
    && (p.result.Some? <==> e.primitive.result.Some?)
    && (p.result.Some? ==>
          EntitiesNamed(naming, e.ref, e.primitive.result.value.entityRefs, p.result.value.entityKeys))
  }

  // The key names this entity of an entry and can be cited as that entry's evidence.
  ghost predicate NamingBacked(entries: seq<PrimitiveEntry>, prompt: TrustedPrompt, id: EntityId, key: string) {
    exists e :: e in entries && e.ref == id.0
      && key in prompt.evidenceOwners && prompt.evidenceOwners[key] == {e.ref}
      && key in prompt.evidenceRefs && prompt.evidenceRefs[key] == e.primitive.evidenceRefs
  }

  ghost predicate NamingSound(entries: seq<PrimitiveEntry>, prompt: TrustedPrompt, naming: Naming) {
    && (forall a, b :: a in naming && b in naming && naming[a] == naming[b] ==> a == b)
    && (forall id :: id in naming ==> NamingBacked(entries, prompt, id, naming[id]))
    && |prompt.primitives| == |entries|
    && (forall k :: 0 <= k < |entries| ==> DraftsNamed(naming, entries[k], prompt.primitives[k]))
  }

  // Position (b, m) holds an input with this draft id of this Primitive.
  ghost predicate InputAt(entries: seq<PrimitiveEntry>, ref: StoredDataRef, draftId: string, b: nat, m: nat) {
    && b < |entries| && entries[b].ref == ref
    && m < |entries[b].primitive.inputs| && entries[b].primitive.inputs[m].draftId == draftId
  }

  // The comparison names, by their keys, the very primitives and input it is about.
  ghost predicate Names(entries: seq<PrimitiveEntry>, c: DirectionalComparison, pc: PromptComparison) {
    && pc.comparisonKey == c.comparisonKey
    && (exists a: nat ::
          a < |entries| && entries[a].ref == c.upstream && pc.upstreamKey == Key("primitive", a + 1))
    && (exists b: nat, m: nat ::
          InputAt(entries, c.downstream, c.matchedInputId, b, m)
          && pc.downstreamKey == Key("primitive", b + 1) && pc.inputKey == Key2("input", b + 1, m + 1))
  }

  // The questions the prompt may be built for.
  ghost predicate Answerable(entries: seq<PrimitiveEntry>, c: DirectionalComparison) {
    && Lists(entries, c.upstream) && Lists(entries, c.downstream) && c.upstream != c.downstream
    && EntryFor(entries, c.upstream).primitive.result.Some?
    && AsksFor(EntryFor(entries, c.downstream).primitive, c.matchedInputId)
  }

  ghost predicate EvidenceBacked(prompt: TrustedPrompt, entries: seq<PrimitiveEntry>, key: string) {
    exists e :: e in entries && key in prompt.evidenceOwners && key in prompt.evidenceRefs
      && prompt.evidenceOwners[key] == {e.ref} && Elements(prompt.evidenceRefs[key]) <= Cited(e.primitive)
      && (prompt.evidenceRefs[key] == [] ==> e.primitive.evidenceRefs == [])
  }

  ghost predicate PromptSound(entries: seq<PrimitiveEntry>, comparisons: seq<DirectionalComparison>,
                              prompt: TrustedPrompt) {
    && NoDuplicates(prompt.evidence)
    && Elements(prompt.evidence) == prompt.evidenceOwners.Keys == prompt.evidenceRefs.Keys
    && (forall key :: key in prompt.evidence ==> EvidenceBacked(prompt, entries, key))
    && (forall key :: key in prompt.evidence ==> IsOriginKey(key))
    && |prompt.primitives| == |entries|
    && (forall k :: 0 <= k < |entries| ==>
          Describes(prompt.evidenceRefs, prompt.evidenceOwners, entries[k], k, prompt.primitives[k]))
    && |prompt.comparisons| == |comparisons|
    && (forall n :: 0 <= n < |comparisons| ==> Names(entries, comparisons[n], prompt.comparisons[n]))
  }

  ghost predicate EntryKeyed(ledger: Ledger, e: PrimitiveEntry, k: nat, keys: seq<string>) {
    && LocalKeys(ledger, e, k + 1, keys) && |keys| == |SemanticEvidence(e.primitive)|
    && DraftsKeyed(ledger, e, Drafts(e.primitive))
  }

  lemma EntryKeyedGrows(before: Ledger, after: Ledger, e: PrimitiveEntry, k: nat, keys: seq<string>)
    requires EntryKeyed(before, e, k, keys) && Extends(before, after)
    ensures EntryKeyed(after, e, k, keys)
  {
  }

  method IssueEntryKeys(ledger: Ledger, entries: seq<PrimitiveEntry>, k: nat, ghost issues: Issues)
    returns (more: Ledger, keys: seq<string>, ghost moreIssues: Issues)
    requires Consistent(ledger, issues, entries) && k < |entries|
    requires IssuedBefore(issues, k + 1, 1, ledger.entityCounter)
    ensures Consistent(more, moreIssues, entries) && Extends(ledger, more)
    ensures IssuedBefore(moreIssues, k + 2, 1, more.entityCounter)
    ensures EntryKeyed(more, entries[k], k, keys)
  {
    more, keys, moreIssues := AddEntryEvidence(ledger, entries[k], k + 1, issues, entries);
    ghost var middle := more;
    more, moreIssues := AddEntities(more, entries[k], Drafts(entries[k].primitive), moreIssues, entries, k + 2);
    ExtendsTransitive(ledger, middle, more);
    LocalKeysGrow(middle, more, entries[k], k + 1, keys);
  }

  // First pass: all evidence and entity keys.
  method IssueKeys(entries: seq<PrimitiveEntry>)
    returns (ledger: Ledger, local: seq<seq<string>>, ghost issues: Issues)
    ensures Consistent(ledger, issues, entries) && |local| == |entries|
    ensures forall k :: 0 <= k < |entries| ==> EntryKeyed(ledger, entries[k], k, local[k])
  {
    ledger, local, issues := EMPTY_LEDGER, [], map[];
    for k := 0 to |entries|
      invariant Consistent(ledger, issues, entries) && |local| == k
      invariant IssuedBefore(issues, k + 1, 1, ledger.entityCounter)
      invariant forall m :: 0 <= m < k ==> EntryKeyed(ledger, entries[m], m, local[m])
    {
      ghost var before := ledger;
      var keys;
      ledger, keys, issues := IssueEntryKeys(ledger, entries, k, issues);
      forall m | 0 <= m < k ensures EntryKeyed(ledger, entries[m], m, local[m]) {
        EntryKeyedGrows(before, ledger, entries[m], m, local[m]);
      }
      local := local + [keys];
    }
  }

  // The keys of a draft's entities, in order.
  function EntityKeysOf(ledger: Ledger, ref: StoredDataRef, entities: seq<CodeSymbol>): (keys: seq<string>)
    requires forall x :: x in entities ==> (ref, x) in ledger.entityKeys
    ensures EntitiesNamed(ledger.entityKeys, ref, entities, keys)
  {
    seq(|entities|, k requires 0 <= k < |entities| => ledger.entityKeys[(ref, entities[k])])
  }

  lemma EntityKeysAreOwned(ledger: Ledger, issues: Issues, entries: seq<PrimitiveEntry>, ref: StoredDataRef,
                           entities: seq<CodeSymbol>)
    requires Consistent(ledger, issues, entries)
    requires forall x :: x in entities ==> (ref, x) in ledger.entityKeys
    ensures OwnedKeys(ledger.evidenceOwners, ref, EntityKeysOf(ledger, ref, entities))
  {
    var keys := EntityKeysOf(ledger, ref, entities);
    forall key | key in keys ensures key in ledger.evidenceOwners && ledger.evidenceOwners[key] == {ref} {
      var k :| 0 <= k < |keys| && keys[k] == key;
      assert EntityKeyed(ledger, issues, (ref, entities[k]));
      assert Backed(ledger, issues, entries, key);
    }
  }

  type InputKeys = map<(StoredDataRef, string), string>

  // The recorded key of an input leads back to an input with that draft id.
  ghost predicate InputKeyTrue(entries: seq<PrimitiveEntry>, id: (StoredDataRef, string), key: string) {
    exists b: nat, m: nat :: InputAt(entries, id.0, id.1, b, m) && key == Key2("input", b + 1, m + 1)
  }

  ghost predicate InputKeysTrue(entries: seq<PrimitiveEntry>, inputKeys: InputKeys) {
    forall id :: id in inputKeys ==> InputKeyTrue(entries, id, inputKeys[id])
  }

  ghost predicate KnowsInputs(inputKeys: InputKeys, e: PrimitiveEntry, count: nat) {
    forall m :: 0 <= m < |e.primitive.inputs| && m < count ==> (e.ref, e.primitive.inputs[m].draftId) in inputKeys
  }

  ghost predicate KnowsAll(inputKeys: InputKeys, e: PrimitiveEntry) {
    KnowsInputs(inputKeys, e, |e.primitive.inputs|)
  }

  lemma KnowsMore(before: InputKeys, after: InputKeys, e: PrimitiveEntry, count: nat)
    requires KnowsInputs(before, e, count) && before.Keys <= after.Keys
    ensures KnowsInputs(after, e, count)
  {
  }

  ghost predicate InputDescribed(refs: RefsByKey, owners: OwnersByKey, e: PrimitiveEntry, k: nat, m: nat,
                                 p: PromptInput) {
    p.inputKey == Key2("input", k + 1, m + 1)
    && OwnedKeys(owners, e.ref, p.entityKeys) && StandsForAll(refs, owners, e, k + 1, p.evidenceKeys)
  }

  ghost predicate InputWritten(ledger: Ledger, e: PrimitiveEntry, k: nat, m: nat, p: PromptInput)
    requires m < |e.primitive.inputs|
  {
    && InputDescribed(ledger.evidenceRefs, ledger.evidenceOwners, e, k, m, p)
    && EntitiesNamed(ledger.entityKeys, e.ref, e.primitive.inputs[m].entityRefs, p.entityKeys)
  }

  ghost predicate InputsWritten(ledger: Ledger, e: PrimitiveEntry, k: nat, inputs: seq<PromptInput>) {
    |inputs| <= |e.primitive.inputs| && forall m :: 0 <= m < |inputs| ==> InputWritten(ledger, e, k, m, inputs[m])
  }

  lemma WriteOneMore(ledger: Ledger, e: PrimitiveEntry, k: nat, inputs: seq<PromptInput>, next: PromptInput)
    requires InputsWritten(ledger, e, k, inputs) && |inputs| < |e.primitive.inputs|
    requires InputWritten(ledger, e, k, |inputs|, next)
    ensures InputsWritten(ledger, e, k, inputs + [next])
  {
    var more := inputs + [next];
    forall m | 0 <= m < |more| ensures InputWritten(ledger, e, k, m, more[m]) {
      assert m < |inputs| ==> InputWritten(ledger, e, k, m, inputs[m]);
    }
  }

  ghost predicate EntryWritten(ledger: Ledger, e: PrimitiveEntry, k: nat, p: PromptPrimitive) {
    && Describes(ledger.evidenceRefs, ledger.evidenceOwners, e, k, p)
    && DraftsNamed(ledger.entityKeys, e, p)
  }

  lemma RecordInputKey(entries: seq<PrimitiveEntry>, inputKeys: InputKeys, k: nat, m: nat)
    requires k < |entries| && m < |entries[k].primitive.inputs|
    requires InputKeysTrue(entries, inputKeys) && KnowsInputs(inputKeys, entries[k], m)
    ensures var id := (entries[k].ref, entries[k].primitive.inputs[m].draftId);
            var more := inputKeys[id := Key2("input", k + 1, m + 1)];
            InputKeysTrue(entries, more) && KnowsInputs(more, entries[k], m + 1) && inputKeys.Keys <= more.Keys
  {
    var draftId := entries[k].primitive.inputs[m].draftId;
    assert InputAt(entries, entries[k].ref, draftId, k, m);
    assert InputKeyTrue(entries, (entries[k].ref, draftId), Key2("input", k + 1, m + 1));
  }

  method DescribeInput(ledger: Ledger, ghost issues: Issues, ghost entries: seq<PrimitiveEntry>, e: PrimitiveEntry,
                       k: nat, m: nat, localKeys: seq<string>)
    returns (input: PromptInput)
    requires Consistent(ledger, issues, entries) && EntryKeyed(ledger, e, k, localKeys)
    requires m < |e.primitive.inputs|
    ensures InputWritten(ledger, e, k, m, input)
  {
    var draft := e.primitive.inputs[m];
    assert draft in Drafts(e.primitive);
    EntityKeysAreOwned(ledger, issues, entries, e.ref, draft.entityRefs);
    input := PromptInput(Key2("input", k + 1, m + 1), EntityKeysOf(ledger, e.ref, draft.entityRefs), localKeys);
  }

  method DescribeInputs(ledger: Ledger, ghost issues: Issues, entries: seq<PrimitiveEntry>, k: nat,
                        localKeys: seq<string>, inputKeys: InputKeys)
    returns (inputs: seq<PromptInput>, more: InputKeys)
    requires Consistent(ledger, issues, entries) && k < |entries|
    requires EntryKeyed(ledger, entries[k], k, localKeys)
    requires InputKeysTrue(entries, inputKeys)
    ensures |inputs| == |entries[k].primitive.inputs|
    ensures InputsWritten(ledger, entries[k], k, inputs)
    ensures InputKeysTrue(entries, more) && inputKeys.Keys <= more.Keys
    ensures KnowsInputs(more, entries[k], |inputs|)
  {
    var e := entries[k];
    more, inputs := inputKeys, [];
    var drafts := e.primitive.inputs;
    for m := 0 to |drafts|
      invariant InputKeysTrue(entries, more) && |inputs| == m && inputKeys.Keys <= more.Keys
      invariant KnowsInputs(more, e, m)
      invariant InputsWritten(ledger, e, k, inputs)
    {
      var key := Key2("input", k + 1, m + 1);
      RecordInputKey(entries, more, k, m);
      more := more[(e.ref, drafts[m].draftId) := key];
      var input := DescribeInput(ledger, issues, entries, e, k, m, localKeys);
      WriteOneMore(ledger, e, k, inputs, input);
      inputs := inputs + [input];
    }
  }

  method DescribeResult(ledger: Ledger, ghost issues: Issues, ghost entries: seq<PrimitiveEntry>, e: PrimitiveEntry,
                        ghost k: nat, localKeys: seq<string>)
    returns (result: Option<PromptResult>)
    requires Consistent(ledger, issues, entries) && EntryKeyed(ledger, e, k, localKeys)
    ensures result.Some? <==> e.primitive.result.Some?
    ensures result.Some? ==>
      && OwnedKeys(ledger.evidenceOwners, e.ref, result.value.entityKeys)
      && StandsForAll(ledger.evidenceRefs, ledger.evidenceOwners, e, k + 1, result.value.evidenceKeys)
      && EntitiesNamed(ledger.entityKeys, e.ref, e.primitive.result.value.entityRefs, result.value.entityKeys)
  {
    if e.primitive.result.None? {
      return None;
    }
    assert e.primitive.result.value in Drafts(e.primitive);
    EntityKeysAreOwned(ledger, issues, entries, e.ref, e.primitive.result.value.entityRefs);
    return Some(PromptResult(EntityKeysOf(ledger, e.ref, e.primitive.result.value.entityRefs), localKeys));
  }

  function PrimitiveKeys(entries: seq<PrimitiveEntry>): (keys: map<StoredDataRef, string>)
    requires DistinctRefs(entries)
    ensures forall k :: 0 <= k < |entries| ==> entries[k].ref in keys && keys[entries[k].ref] == Key("primitive", k + 1)
  {
    if entries == [] then map[]
    else
      var init := entries[..|entries| - 1];
      assert forall k :: 0 <= k < |init| ==> init[k] == entries[k];
      PrimitiveKeys(init)[entries[|entries| - 1].ref := Key("primitive", |entries|)]
  }

  method DescribeEntry(ledger: Ledger, ghost issues: Issues, entries: seq<PrimitiveEntry>, k: nat,
                       localKeys: seq<string>, inputKeys: InputKeys)
    returns (p: PromptPrimitive, more: InputKeys)
    requires Consistent(ledger, issues, entries) && k < |entries|
    requires EntryKeyed(ledger, entries[k], k, localKeys)
    requires InputKeysTrue(entries, inputKeys)
    ensures EntryWritten(ledger, entries[k], k, p)
    ensures InputKeysTrue(entries, more) && inputKeys.Keys <= more.Keys && KnowsAll(more, entries[k])
  {
    var inputs, result;
    inputs, more := DescribeInputs(ledger, issues, entries, k, localKeys, inputKeys);
    result := DescribeResult(ledger, issues, entries, entries[k], k, localKeys);
    assert forall m :: 0 <= m < |inputs| ==> InputWritten(ledger, entries[k], k, m, inputs[m]);
    p := PromptPrimitive(Key("primitive", k + 1), inputs, result);
  }

  ghost predicate EntriesWritten(ledger: Ledger, entries: seq<PrimitiveEntry>, primitives: seq<PromptPrimitive>,
                                 inputKeys: InputKeys) {
    && |primitives| <= |entries|
    && (forall k :: 0 <= k < |primitives| ==> EntryWritten(ledger, entries[k], k, primitives[k]))
    && (forall k :: 0 <= k < |primitives| ==> KnowsAll(inputKeys, entries[k]))
  }

  lemma WriteOneEntryMore(ledger: Ledger, entries: seq<PrimitiveEntry>, primitives: seq<PromptPrimitive>,
                          before: InputKeys, after: InputKeys, next: PromptPrimitive)
    requires EntriesWritten(ledger, entries, primitives, before) && |primitives| < |entries|
    requires EntryWritten(ledger, entries[|primitives|], |primitives|, next)
    requires before.Keys <= after.Keys && KnowsAll(after, entries[|primitives|])
    ensures EntriesWritten(ledger, entries, primitives + [next], after)
  {
    var more := primitives + [next];
    forall k | 0 <= k < |more| ensures EntryWritten(ledger, entries[k], k, more[k]) && KnowsAll(after, entries[k]) {
      if k < |primitives| {
        assert EntryWritten(ledger, entries[k], k, primitives[k]);
        KnowsMore(before, after, entries[k], |entries[k].primitive.inputs|);
      }
    }
  }

  method DescribePrimitives(ledger: Ledger, ghost issues: Issues, entries: seq<PrimitiveEntry>, local: seq<seq<string>>)
    returns (primitives: seq<PromptPrimitive>, inputKeys: InputKeys)
    requires Consistent(ledger, issues, entries) && |local| == |entries|
    requires forall k :: 0 <= k < |entries| ==> EntryKeyed(ledger, entries[k], k, local[k])
    ensures |primitives| == |entries| && InputKeysTrue(entries, inputKeys)
    ensures forall k :: 0 <= k < |entries| ==> EntryWritten(ledger, entries[k], k, primitives[k])
    ensures forall k :: 0 <= k < |entries| ==> KnowsAll(inputKeys, entries[k])
  {
    primitives, inputKeys := [], map[];
    for k := 0 to |entries|
      invariant |primitives| == k && InputKeysTrue(entries, inputKeys)
      invariant EntriesWritten(ledger, entries, primitives, inputKeys)
    {
      ghost var before := inputKeys;
      var p;
      p, inputKeys := DescribeEntry(ledger, issues, entries, k, local[k], inputKeys);
      WriteOneEntryMore(ledger, entries, primitives, before, inputKeys, p);
      primitives := primitives + [p];
    }
  }

  method NameComparison(entries: seq<PrimitiveEntry>, c: DirectionalComparison, inputKeys: InputKeys,
                        primitiveKeys: map<StoredDataRef, string>)
    returns (named: PromptComparison)
    requires InputKeysTrue(entries, inputKeys) && Answerable(entries, c)
    requires forall k :: 0 <= k < |entries| ==> KnowsAll(inputKeys, entries[k])
    requires forall k :: 0 <= k < |entries| ==>
      entries[k].ref in primitiveKeys && primitiveKeys[entries[k].ref] == Key("primitive", k + 1)
    ensures Names(entries, c, named)
  {
    ComparisonIsNamed(entries, c, inputKeys, primitiveKeys);
    named := PromptComparison(c.comparisonKey, primitiveKeys[c.upstream], primitiveKeys[c.downstream],
                              inputKeys[(c.downstream, c.matchedInputId)]);
  }

  ghost predicate AllNamed(entries: seq<PrimitiveEntry>, comparisons: seq<DirectionalComparison>,
                           named: seq<PromptComparison>) {
    |named| <= |comparisons| && forall i :: 0 <= i < |named| ==> Names(entries, comparisons[i], named[i])
  }

  lemma NameOneMore(entries: seq<PrimitiveEntry>, comparisons: seq<DirectionalComparison>, named: seq<PromptComparison>,
                    next: PromptComparison)
    requires AllNamed(entries, comparisons, named) && |named| < |comparisons|
    requires Names(entries, comparisons[|named|], next)
    ensures AllNamed(entries, comparisons, named + [next])
  {
    var more := named + [next];
    forall i | 0 <= i < |more| ensures Names(entries, comparisons[i], more[i]) {
      assert i < |named| ==> Names(entries, comparisons[i], named[i]);
    }
  }

  method NameComparisons(entries: seq<PrimitiveEntry>, comparisons: seq<DirectionalComparison>, inputKeys: InputKeys)
    returns (named: seq<PromptComparison>)
    requires DistinctRefs(entries) && InputKeysTrue(entries, inputKeys)
    requires forall k :: 0 <= k < |entries| ==> KnowsAll(inputKeys, entries[k])
    requires forall n :: 0 <= n < |comparisons| ==> Answerable(entries, comparisons[n])
    ensures |named| == |comparisons|
    ensures forall n :: 0 <= n < |comparisons| ==> Names(entries, comparisons[n], named[n])
  {
    var primitiveKeys := PrimitiveKeys(entries);
    named := [];
    for n := 0 to |comparisons|
      invariant |named| == n && AllNamed(entries, comparisons, named)
    {
      var next := NameComparison(entries, comparisons[n], inputKeys, primitiveKeys);
      NameOneMore(entries, comparisons, named, next);
      named := named + [next];
    }
  }

  lemma ComparisonIsNamed(entries: seq<PrimitiveEntry>, c: DirectionalComparison, inputKeys: InputKeys,
                          primitiveKeys: map<StoredDataRef, string>)
    requires InputKeysTrue(entries, inputKeys) && Answerable(entries, c)
    requires forall k :: 0 <= k < |entries| ==> KnowsAll(inputKeys, entries[k])
    requires forall k :: 0 <= k < |entries| ==>
      entries[k].ref in primitiveKeys && primitiveKeys[entries[k].ref] == Key("primitive", k + 1)
    ensures c.upstream in primitiveKeys && c.downstream in primitiveKeys
    ensures (c.downstream, c.matchedInputId) in inputKeys
    ensures Names(entries, c, PromptComparison(c.comparisonKey, primitiveKeys[c.upstream],
      primitiveKeys[c.downstream], inputKeys[(c.downstream, c.matchedInputId)]))
  {
    var a: nat :| a < |entries| && entries[a].ref == c.upstream;
    var down := EntryFor(entries, c.downstream);
    var d :| 0 <= d < |entries| && entries[d] == down;
    var k :| 0 <= k < |down.primitive.inputs| && down.primitive.inputs[k].draftId == c.matchedInputId;
    var id := (c.downstream, c.matchedInputId);
    assert KnowsAll(inputKeys, entries[d]);
    assert InputKeyTrue(entries, id, inputKeys[id]);
    var b: nat, m: nat :| InputAt(entries, id.0, id.1, b, m) && inputKeys[id] == Key2("input", b + 1, m + 1);
    assert primitiveKeys[entries[b].ref] == Key("primitive", b + 1);
  }

  lemma LedgerNames(ledger: Ledger, issues: Issues, entries: seq<PrimitiveEntry>, prompt: TrustedPrompt)
    requires Consistent(ledger, issues, entries) && |prompt.primitives| == |entries|
    requires prompt.evidenceRefs == ledger.evidenceRefs && prompt.evidenceOwners == ledger.evidenceOwners
    requires forall k :: 0 <= k < |entries| ==> EntryWritten(ledger, entries[k], k, prompt.primitives[k])
    ensures NamingSound(entries, prompt, ledger.entityKeys)
  {
    forall id | id in ledger.entityKeys
      ensures NamingBacked(entries, prompt, id, ledger.entityKeys[id])
    {
      var key := ledger.entityKeys[id];
      assert EntityKeyed(ledger, issues, id) && Backed(ledger, issues, entries, key);
      assert issues[key].entry in entries;
    }
    forall a, b | a in ledger.entityKeys && b in ledger.entityKeys && ledger.entityKeys[a] == ledger.entityKeys[b]
      ensures a == b
    {
      assert EntityKeyed(ledger, issues, a) && EntityKeyed(ledger, issues, b);
    }
    forall k | 0 <= k < |entries| ensures DraftsNamed(ledger.entityKeys, entries[k], prompt.primitives[k]) {
      assert EntryWritten(ledger, entries[k], k, prompt.primitives[k]);
    }
  }

  method BuildPrompt(entries: seq<PrimitiveEntry>, comparisons: seq<DirectionalComparison>)
    returns (prompt: TrustedPrompt, ghost naming: Naming)
    requires DistinctRefs(entries)
    requires forall n :: 0 <= n < |comparisons| ==> Answerable(entries, comparisons[n])
    ensures PromptSound(entries, comparisons, prompt)
    ensures NamingSound(entries, prompt, naming)
  {
    var ledger, local, issues := IssueKeys(entries);
    var primitives, inputKeys := DescribePrimitives(ledger, issues, entries, local);
    var named := NameComparisons(entries, comparisons, inputKeys);
    prompt := TrustedPrompt(ledger.evidence, primitives, named, ledger.evidenceRefs, ledger.evidenceOwners);
    naming := ledger.entityKeys;
    LedgerNames(ledger, issues, entries, prompt);
    forall key | key in prompt.evidence
      ensures EvidenceBacked(prompt, entries, key) && IsOriginKey(key)
    {
      assert key in Elements(ledger.evidence);
      assert Backed(ledger, issues, entries, key);
      assert OriginKey(issues[key].origin) == key;
    }
    forall k | 0 <= k < |entries|
      ensures Describes(prompt.evidenceRefs, prompt.evidenceOwners, entries[k], k, primitives[k])
    {
      assert EntryWritten(ledger, entries[k], k, primitives[k]);
    }
  }

  // ------------------------------------------------------ what the keys promise

  ghost predicate HasInput(p: PromptPrimitive, key: string) {
    exists m :: 0 <= m < |p.inputs| && p.inputs[m].inputKey == key
  }

  // The key is owned by one Primitive and stands for one reference.
  ghost predicate OffersAs(prompt: TrustedPrompt, key: string, owner: StoredDataRef, ref: StoredDataRef) {
    && key in prompt.evidenceOwners && prompt.evidenceOwners[key] == {owner}
    && key in prompt.evidenceRefs && prompt.evidenceRefs[key] == [ref]
  }

  // Every citation of a Primitive is offered under a key of its own.
  lemma EvidenceIsOffered(entries: seq<PrimitiveEntry>, comparisons: seq<DirectionalComparison>, prompt: TrustedPrompt,
                          e: PrimitiveEntry, ref: StoredDataRef)
    requires PromptSound(entries, comparisons, prompt) && e in entries && WellFormed(e.primitive)
    requires ref in Cited(e.primitive)
    ensures exists key :: key in prompt.evidence && OffersAs(prompt, key, e.ref, ref)
  {
    var k :| 0 <= k < |entries| && entries[k] == e;
    var p := prompt.primitives[k];
    assert Describes(prompt.evidenceRefs, prompt.evidenceOwners, e, k, p);
    var keys := if p.result.Some? then p.result.value.evidenceKeys else p.inputs[0].evidenceKeys;
    assert p.result.None? ==> InputDescribed(prompt.evidenceRefs, prompt.evidenceOwners, e, k, 0, p.inputs[0]);
    assert StandsForAll(prompt.evidenceRefs, prompt.evidenceOwners, e, k + 1, keys);
    AllIsSemanticEvidence(e.primitive);
    assert ref in Elements(SemanticEvidence(e.primitive));
    var j :| 0 <= j < |SemanticEvidence(e.primitive)| && SemanticEvidence(e.primitive)[j] == ref;
    assert keys[j] in prompt.evidenceOwners.Keys && keys[j] in Elements(prompt.evidence);
  }

  // Keys of different primitives, inputs and evidence never meet.
  lemma KeysNeverMeet(entries: seq<PrimitiveEntry>, comparisons: seq<DirectionalComparison>, prompt: TrustedPrompt,
                      k: nat, m: nat, k': nat, m': nat)
    requires PromptSound(entries, comparisons, prompt) && k < |entries| && k' < |entries|
    requires m < |entries[k].primitive.inputs| && m' < |entries[k'].primitive.inputs|
    ensures prompt.primitives[k].primitiveKey == prompt.primitives[k'].primitiveKey ==> k == k'
    ensures prompt.primitives[k].inputs[m].inputKey == prompt.primitives[k'].inputs[m'].inputKey
      ==> k == k' && m == m'
    ensures prompt.primitives[k].primitiveKey != prompt.primitives[k'].inputs[m'].inputKey
    ensures prompt.primitives[k].primitiveKey !in prompt.evidence
    ensures prompt.primitives[k].inputs[m].inputKey !in prompt.evidence
  {
    PromptKeysOf(entries, comparisons, prompt, k, m);
    PromptKeysOf(entries, comparisons, prompt, k', m');
    RawKeysApart(k + 1, m + 1, k' + 1, m' + 1);
    NotAnEvidenceKey(entries, comparisons, prompt, prompt.primitives[k].primitiveKey);
    NotAnEvidenceKey(entries, comparisons, prompt, prompt.primitives[k].inputs[m].inputKey);
  }

  lemma NotAnEvidenceKey(entries: seq<PrimitiveEntry>, comparisons: seq<DirectionalComparison>, prompt: TrustedPrompt,
                         key: string)
    requires PromptSound(entries, comparisons, prompt) && |key| > 0 && key[..1] != "e"
    ensures key !in prompt.evidence
  {
    EvidenceKeyShape(entries, comparisons, prompt);
  }

  lemma RawKeysApart(n: nat, m: nat, n': nat, m': nat)
    ensures Key("primitive", n) == Key("primitive", n') ==> n == n'
    ensures Key2("input", n, m) == Key2("input", n', m') ==> n == n' && m == m'
    ensures Key("primitive", n)[..1] == "p" && Key2("input", n, m)[..1] == "i" && Key2("input", n', m')[..1] == "i"
  {
    if Key("primitive", n) == Key("primitive", n') {
      KeyInjective("primitive", n, n');
    }
    if Key2("input", n, m) == Key2("input", n', m') {
      Key2Injective("input", n, m, n', m');
    }
    assert Key("primitive", n)[0] == 'p' && Key2("input", n, m)[0] == 'i' && Key2("input", n', m')[0] == 'i';
  }

  lemma EvidenceKeyShape(entries: seq<PrimitiveEntry>, comparisons: seq<DirectionalComparison>, prompt: TrustedPrompt)
    requires PromptSound(entries, comparisons, prompt)
    ensures forall key :: key in prompt.evidence ==> |key| > 0 && key[..1] == "e"
  {
    forall key | key in prompt.evidence ensures |key| > 0 && key[..1] == "e" {
      assert IsOriginKey(key);
      var o: Origin :| OriginKey(o) == key;
      assert OriginKey(o)[0] == 'e';
    }
  }

  lemma PromptKeysOf(entries: seq<PrimitiveEntry>, comparisons: seq<DirectionalComparison>, prompt: TrustedPrompt,
                     k: nat, m: nat)
    requires PromptSound(entries, comparisons, prompt) && k < |entries| && m < |entries[k].primitive.inputs|
    ensures prompt.primitives[k].primitiveKey == Key("primitive", k + 1)
    ensures m < |prompt.primitives[k].inputs| && prompt.primitives[k].inputs[m].inputKey == Key2("input", k + 1, m + 1)
    ensures prompt.primitives[k].result.Some? <==> entries[k].primitive.result.Some?
  {
    assert Describes(prompt.evidenceRefs, prompt.evidenceOwners, entries[k], k, prompt.primitives[k]);
    assert InputDescribed(prompt.evidenceRefs, prompt.evidenceOwners, entries[k], k, m, prompt.primitives[k].inputs[m]);
  }

  // The checks of `ChainingAgentInput.__post_init__`.
  ghost predicate AgentInputValid(prompt: TrustedPrompt) {
    && NoDuplicates(prompt.evidence)
    && (forall i, j :: 0 <= i < j < |prompt.primitives| ==>
          prompt.primitives[i].primitiveKey != prompt.primitives[j].primitiveKey)
    && (forall i, j :: 0 <= i < j < |prompt.comparisons| ==>
          prompt.comparisons[i].comparisonKey != prompt.comparisons[j].comparisonKey)
    && (forall n :: 0 <= n < |prompt.comparisons| ==> ComparisonResolves(prompt, prompt.comparisons[n]))
  }

  ghost predicate ComparisonResolves(prompt: TrustedPrompt, pc: PromptComparison) {
    && pc.upstreamKey != pc.downstreamKey
    && (exists a :: 0 <= a < |prompt.primitives|
          && prompt.primitives[a].primitiveKey == pc.upstreamKey && prompt.primitives[a].result.Some?)
    && (exists b :: 0 <= b < |prompt.primitives|
          && prompt.primitives[b].primitiveKey == pc.downstreamKey && HasInput(prompt.primitives[b], pc.inputKey))
  }

  // The input record never rejects the prompt the service builds.
  lemma PromptIsAccepted(entries: seq<PrimitiveEntry>, comparisons: seq<DirectionalComparison>, prompt: TrustedPrompt)
    requires PromptSound(entries, comparisons, prompt) && DistinctRefs(entries)
    requires forall n :: 0 <= n < |comparisons| ==> Answerable(entries, comparisons[n])
    requires forall i, j :: 0 <= i < j < |comparisons| ==>
      comparisons[i].comparisonKey != comparisons[j].comparisonKey
    ensures AgentInputValid(prompt)
  {
    forall i, j | 0 <= i < j < |prompt.primitives|
      ensures prompt.primitives[i].primitiveKey != prompt.primitives[j].primitiveKey
    {
      assert Describes(prompt.evidenceRefs, prompt.evidenceOwners, entries[i], i, prompt.primitives[i]);
      assert Describes(prompt.evidenceRefs, prompt.evidenceOwners, entries[j], j, prompt.primitives[j]);
      if prompt.primitives[i].primitiveKey == prompt.primitives[j].primitiveKey {
        KeyInjective("primitive", i + 1, j + 1);
      }
    }
    forall n | 0 <= n < |comparisons| ensures ComparisonResolves(prompt, prompt.comparisons[n]) {
      NamedResolves(entries, comparisons, prompt, n);
    }
    forall n | 0 <= n < |comparisons|
      ensures prompt.comparisons[n].comparisonKey == comparisons[n].comparisonKey
    {
      assert Names(entries, comparisons[n], prompt.comparisons[n]);
    }
  }

  lemma NamedResolves(entries: seq<PrimitiveEntry>, comparisons: seq<DirectionalComparison>, prompt: TrustedPrompt,
                      n: nat)
    requires PromptSound(entries, comparisons, prompt) && DistinctRefs(entries)
    requires n < |comparisons| && Answerable(entries, comparisons[n])
    ensures ComparisonResolves(prompt, prompt.comparisons[n])
  {
    assert Names(entries, comparisons[n], prompt.comparisons[n]);
    var a, b, m := NamedAt(entries, comparisons[n], prompt.comparisons[n]);
    UpstreamHasResult(entries, comparisons[n], a);
    assert Describes(prompt.evidenceRefs, prompt.evidenceOwners, entries[a], a, prompt.primitives[a]);
    PromptKeysOf(entries, comparisons, prompt, b, m);
    ResolvesAt(prompt, prompt.comparisons[n], a, b, m);
  }

  lemma NamedAt(entries: seq<PrimitiveEntry>, c: DirectionalComparison, pc: PromptComparison)
    returns (a: nat, b: nat, m: nat)
    requires Names(entries, c, pc) && c.upstream != c.downstream
    ensures a < |entries| && entries[a].ref == c.upstream && pc.upstreamKey == Key("primitive", a + 1)
    ensures InputAt(entries, c.downstream, c.matchedInputId, b, m)
    ensures pc.downstreamKey == Key("primitive", b + 1) && pc.inputKey == Key2("input", b + 1, m + 1)
    ensures pc.upstreamKey != pc.downstreamKey
  {
    a :| a < |entries| && entries[a].ref == c.upstream && pc.upstreamKey == Key("primitive", a + 1);
    b, m :| InputAt(entries, c.downstream, c.matchedInputId, b, m)
      && pc.downstreamKey == Key("primitive", b + 1) && pc.inputKey == Key2("input", b + 1, m + 1);
    RawKeysApart(a + 1, 1, b + 1, 1);
  }

  lemma UpstreamHasResult(entries: seq<PrimitiveEntry>, c: DirectionalComparison, a: nat)
    requires DistinctRefs(entries) && Answerable(entries, c) && a < |entries| && entries[a].ref == c.upstream
    ensures entries[a].primitive.result.Some?
  {
    var up := EntryFor(entries, c.upstream);
    var u :| 0 <= u < |entries| && entries[u] == up;
    assert u == a;
  }

  lemma ResolvesAt(prompt: TrustedPrompt, pc: PromptComparison, a: nat, b: nat, m: nat)
    requires pc.upstreamKey != pc.downstreamKey && a < |prompt.primitives| && b < |prompt.primitives|
    requires prompt.primitives[a].primitiveKey == pc.upstreamKey && prompt.primitives[a].result.Some?
    requires prompt.primitives[b].primitiveKey == pc.downstreamKey
    requires m < |prompt.primitives[b].inputs| && prompt.primitives[b].inputs[m].inputKey == pc.inputKey
    ensures ComparisonResolves(prompt, pc)
  {
    assert HasInput(prompt.primitives[b], pc.inputKey);
  }
}
