/** Acceptance of proposed primitive drafts against the evidence closure (agents/verification.py). */
module PrimitiveDrafts {
  import opened Basics
  import opened Refs
  import opened Reachability
  import opened Worklists
  import opened EvidenceClosure

  datatype Verdict = TrueVerdict | FalseVerdict | HoldVerdict

  datatype DraftContent = DraftContent(
    entityRefs: seq<Entity>, privilegeLevel: Option<string>, evidenceRefs: seq<StoredDataRef>, description: string)

  datatype AcceptedDraft = AcceptedDraft(draftId: nat, content: DraftContent)

  datatype DraftError =
    | FalsePrimitiveForbidden
    | HoldProvidedForbidden
    | TrueProvidedRequired
    | EvidenceFailed(error: EvidenceError)
    | EntityClosureMismatch
    | EvidenceClosureMismatch
    | PrivilegeClosureMismatch
    | DraftRefused

  ghost function VerdictFault(verdict: Verdict, required: seq<DraftContent>, provided: seq<DraftContent>)
    : Option<DraftError>
  {
    if verdict == FalseVerdict && (required != [] || provided != []) then Some(FalsePrimitiveForbidden)
    else if verdict == HoldVerdict && provided != [] then Some(HoldProvidedForbidden)
    else if verdict == TrueVerdict && provided == [] then Some(TrueProvidedRequired)
    else None
  }

  // The entities that occur in one of the records, at any depth.
  function EntitiesIn(records: seq<DomainRecord>): (entities: set<Entity>)
    ensures forall e :: e in entities <==> exists r :: r in records && Holds(r.body, EntityValue(e))
  {
    assert forall r, v :: r in records && v in Walk(r.body) ==> Holds(r.body, v) by {
      forall r, v | r in records && v in Walk(r.body) ensures Holds(r.body, v) {
        WalkFindsAll(r.body, v);
      }
    }
    assert forall r, e :: r in records && Holds(r.body, EntityValue(e)) ==> EntityValue(e) in Walk(r.body) by {
      forall r, e | r in records && Holds(r.body, EntityValue(e)) ensures EntityValue(e) in Walk(r.body) {
        WalkFindsAll(r.body, EntityValue(e));
      }
    }
    set r, v | r in records && v in Walk(r.body) && v.EntityValue? :: v.entity
  }

  // An authorization fact of a cited static bundle backs the privilege of a drafted entity.
  ghost predicate Backs(record: DomainRecord, draft: DraftContent, entity: Entity) {
    && record.bundle.Some? && record.selfRef in draft.evidenceRefs
    && draft.privilegeLevel == Some(entity.name) && entity in record.bundle.value.entities
    && exists fact :: fact in record.bundle.value.authChecks
         && (fact.kind == "AUTH_CHECK" || fact.kind == "PERMISSION_CHECK")
         && fact.symbolId == entity.symbolId && fact.location == entity.location
  }

  ghost predicate PrivilegeGrounded(draft: DraftContent, records: seq<DomainRecord>) {
    draft.privilegeLevel.None?
    || exists i, j :: 0 <= i < |records| && 0 <= j < |draft.entityRefs| && Backs(records[i], draft, draft.entityRefs[j])
  }

  method PrivilegeIsGrounded(draft: DraftContent, records: seq<DomainRecord>) returns (grounded: bool)
    ensures grounded <==> PrivilegeGrounded(draft, records)
  {
    if draft.privilegeLevel.None? {
      return true;
    }
    for i := 0 to |records|
      invariant forall m, n :: 0 <= m < i && 0 <= n < |draft.entityRefs| ==>
        !Backs(records[m], draft, draft.entityRefs[n])
    {
      var record := records[i];
      if record.bundle.None? || record.selfRef !in draft.evidenceRefs {
        continue;
      }
      for j := 0 to |draft.entityRefs|
        invariant forall n :: 0 <= n < j ==> !Backs(record, draft, draft.entityRefs[n])
      {
        var entity := draft.entityRefs[j];
        if entity.name != draft.privilegeLevel.value || entity !in record.bundle.value.entities {
          continue;
        }
        if exists fact :: fact in record.bundle.value.authChecks
             && (fact.kind == "AUTH_CHECK" || fact.kind == "PERMISSION_CHECK")
             && fact.symbolId == entity.symbolId && fact.location == entity.location
        {
          return true;
        }
      }
    }
    return false;
  }

  ghost predicate DraftAcceptable(draft: DraftContent, scope: Scope, allowed: set<StoredDataRef>, entities: set<Entity>,
                                  records: seq<DomainRecord>) {
    && (forall e :: e in draft.entityRefs ==>
          e.workspaceId == scope.workspaceId && e.commitId == scope.commitId && e in entities)
    && draft.evidenceRefs != [] && (forall ref :: ref in draft.evidenceRefs ==> ref in allowed)
    && PrivilegeGrounded(draft, records)
  }

  // The first of the three checks that fails.
  ghost function DraftFault(draft: DraftContent, scope: Scope, allowed: set<StoredDataRef>, entities: set<Entity>,
                            records: seq<DomainRecord>): (fault: Option<DraftError>)
    ensures fault.None? <==> DraftAcceptable(draft, scope, allowed, entities, records)
  {
    if exists e :: e in draft.entityRefs
         && (e.workspaceId != scope.workspaceId || e.commitId != scope.commitId || e !in entities)
    then Some(EntityClosureMismatch)
    else if draft.evidenceRefs == [] || exists ref :: ref in draft.evidenceRefs && ref !in allowed
    then Some(EvidenceClosureMismatch)
    else if !PrivilegeGrounded(draft, records) then Some(PrivilegeClosureMismatch)
    else None
  }

  method CheckDraft(draft: DraftContent, scope: Scope, allowed: set<StoredDataRef>, entities: set<Entity>,
                    records: seq<DomainRecord>)
    returns (fault: Option<DraftError>)
    ensures fault.None? <==> DraftAcceptable(draft, scope, allowed, entities, records)
    ensures fault == DraftFault(draft, scope, allowed, entities, records)
  {
    if exists e :: e in draft.entityRefs
         && (e.workspaceId != scope.workspaceId || e.commitId != scope.commitId || e !in entities)
    {
      return Some(EntityClosureMismatch);
    }
    if draft.evidenceRefs == [] || exists ref :: ref in draft.evidenceRefs && ref !in allowed {
      return Some(EvidenceClosureMismatch);
    }
    var grounded := PrivilegeIsGrounded(draft, records);
    return if grounded then None else Some(PrivilegeClosureMismatch);
  }

  // Records that report a fault or an opinion are no evidence.
  const NON_EVIDENCE: set<string> := {"analysis_error", "data_gap", "verification_initial_assessment"}

  // The draft record accepts the content: its references are evidence, none of them twice.
  ghost predicate Constructible(draft: DraftContent) {
    && !Blank(draft.description) && (draft.privilegeLevel.Some? ==> !Blank(draft.privilegeLevel.value))
    && (forall ref :: ref in draft.evidenceRefs ==> ref.dataKind !in NON_EVIDENCE)
    && draft.evidenceRefs != [] && NoDuplicates(draft.evidenceRefs)
  }

  // The contents in their order, under consecutive fresh ids.
  ghost predicate AreMinted(proposed: seq<DraftContent>, firstId: nat, drafts: seq<AcceptedDraft>) {
    |drafts| == |proposed| && forall k :: 0 <= k < |drafts| ==> drafts[k] == AcceptedDraft(firstId + k, proposed[k])
  }

  // The work's evidence closure, its records in their order, and the entities they name.
  ghost predicate Grounds(store: RecordStore, roots: seq<StoredDataRef>, owned: seq<DomainRecord>, c: Closure,
                          records: seq<DomainRecord>) {
    IsClosure(store, roots, c) && RecordsOf(store, c.resolved, records)
  }

  ghost predicate AllAcceptable(proposed: seq<DraftContent>, scope: Scope, allowed: set<StoredDataRef>,
                                entities: set<Entity>, records: seq<DomainRecord>) {
    forall d :: d in proposed ==> DraftAcceptable(d, scope, allowed, entities, records)
  }

  // What is raised: the verdict first, then the closure, then the first draft that is not
  // acceptable, and only then the drafts the record refuses.
  ghost predicate DraftsFault(verdict: Verdict, required: seq<DraftContent>, provided: seq<DraftContent>,
                              roots: seq<StoredDataRef>, scope: Scope, store: RecordStore, entities: set<Entity>,
                              c: Closure, records: seq<DomainRecord>, error: DraftError) {
    var proposed := required + provided;
    if VerdictFault(verdict, required, provided).Some? then VerdictFault(verdict, required, provided) == Some(error)
    else if !AllAdmitted(store, scope, roots) then
      error.EvidenceFailed? && exists x :: CitedFrom(store, roots, x) && Admit(store, scope, x) == Some(error.error)
    else if !AllAcceptable(proposed, scope, c.allowed, entities, records) then
      exists i :: 0 <= i < |proposed|
        && DraftFault(proposed[i], scope, c.allowed, entities, records) == Some(error)
        && forall k :: 0 <= k < i ==> DraftAcceptable(proposed[k], scope, c.allowed, entities, records)
    else error == DraftRefused && exists d :: d in proposed && !Constructible(d)
  }

  method ConstructDrafts(proposed: seq<DraftContent>, firstId: nat) returns (r: Option<seq<AcceptedDraft>>)
    ensures r.Some? <==> forall d :: d in proposed ==> Constructible(d)
    ensures r.Some? ==> AreMinted(proposed, firstId, r.value)
  {
    var drafts: seq<AcceptedDraft> := [];
    for i := 0 to |proposed|
      invariant AreMinted(proposed[..i], firstId, drafts)
      invariant forall k :: 0 <= k < i ==> Constructible(proposed[k])
    {
      var draft := proposed[i];
      if draft.evidenceRefs == [] || !NoDuplicates(draft.evidenceRefs) || Blank(draft.description)
         || (draft.privilegeLevel.Some? && Blank(draft.privilegeLevel.value))
         || exists ref :: ref in draft.evidenceRefs && ref.dataKind in NON_EVIDENCE
      {
        assert !Constructible(draft) && draft in proposed;
        return None;
      }
      drafts := drafts + [AcceptedDraft(firstId + i, draft)];
    }
    assert proposed[..|proposed|] == proposed;
    return Some(drafts);
  }

  // `owned` are the hypothesis, the proposal and the two evidence results.
  method FinalizeDrafts(verdict: Verdict, required: seq<DraftContent>, provided: seq<DraftContent>,
                        roots: seq<StoredDataRef>, scope: Scope, store: RecordStore, owned: seq<DomainRecord>,
                        firstId: nat)
    returns (r: Result<(seq<AcceptedDraft>, seq<AcceptedDraft>), DraftError>,
             ghost c: Closure, ghost records: seq<DomainRecord>)
    ensures VerdictFault(verdict, required, provided).None? && AllAdmitted(store, scope, roots) ==>
      Grounds(store, roots, owned, c, records)
    ensures r.Ok? <==>
      VerdictFault(verdict, required, provided).None? && AllAdmitted(store, scope, roots)
      && AllAcceptable(required + provided, scope, c.allowed, EntitiesIn(owned + records), records)
      && forall d :: d in required + provided ==> Constructible(d)
    ensures r.Err? ==> DraftsFault(verdict, required, provided, roots, scope, store, EntitiesIn(owned + records), c,
                                   records, r.error)
    ensures r.Ok? ==>
      AreMinted(required, firstId, r.value.0) && AreMinted(provided, firstId + |required|, r.value.1)
  {
    c, records := Closure({}, []), [];
    if verdict == FalseVerdict && (required != [] || provided != []) {
      r := Err(FalsePrimitiveForbidden);
      return;
    }
    if verdict == HoldVerdict && provided != [] {
      r := Err(HoldProvidedForbidden);
      return;
    }
    if verdict == TrueVerdict && provided == [] {
      r := Err(TrueProvidedRequired);
      return;
    }
    var closed; ghost var refs;
    closed, refs := CloseEvidence(roots, scope, store);
    if closed.Err? {
      r := Err(EvidenceFailed(closed.error));
      return;
    }
    var (allowed, resolved) := closed.value;
    c, records := Closure(allowed, refs), resolved;
    var entities := EntitiesIn(owned + resolved);
    var proposed := required + provided;
    for i := 0 to |proposed|
      invariant forall k :: 0 <= k < i ==> DraftAcceptable(proposed[k], scope, allowed, entities, resolved)
    {
      var fault := CheckDraft(proposed[i], scope, allowed, entities, resolved);
      if fault.Some? {
        assert proposed[i] in proposed;
        r := Err(fault.value);
        return;
      }
    }
    var drafts := ConstructDrafts(proposed, firstId);
    r := if drafts.None? then Err(DraftRefused)
         else Ok((drafts.value[..|required|], drafts.value[|required|..]));
  }

  // An accepted draft cites only references that the roots lead to, and every record it
  // cites exists unchanged in the work's own scope.
  lemma AcceptedDraftsAreGrounded(store: RecordStore, scope: Scope, roots: seq<StoredDataRef>, owned: seq<DomainRecord>,
                                  c: Closure, records: seq<DomainRecord>, draft: DraftContent, ref: StoredDataRef)
    requires AllAdmitted(store, scope, roots) && Grounds(store, roots, owned, c, records)
    requires DraftAcceptable(draft, scope, c.allowed, EntitiesIn(owned + records), records)
    requires ref in draft.evidenceRefs
    ensures CitedFrom(store, roots, ref) && ref.workspaceId == scope.workspaceId && ref.commitId == scope.commitId
    ensures ref.recordId.Some? ==>
      ref in store && store[ref].selfRef == ref && store[ref].analysisId == scope.analysisId
      && store[ref] in records
  {
    assert ref in c.allowed;
    assert Admit(store, scope, ref).None?;
    if ref.recordId.Some? {
      assert ref in Elements(c.resolved);
      var k :| 0 <= k < |c.resolved| && c.resolved[k] == ref;
      assert records[k] == store[ref];
    }
  }

  // The checks let a draft cite one reference twice, and a record that is no evidence; only the
  // draft record refuses either.
  lemma RepeatedCitationPasses(draft: DraftContent, x: StoredDataRef, scope: Scope, allowed: set<StoredDataRef>,
                               entities: set<Entity>, records: seq<DomainRecord>)
    requires draft.evidenceRefs == [x] && DraftAcceptable(draft, scope, allowed, entities, records)
    ensures DraftAcceptable(draft.(evidenceRefs := [x, x]), scope, allowed, entities, records)
    ensures !Constructible(draft.(evidenceRefs := [x, x]))
    ensures x.dataKind == "data_gap" ==> !Constructible(draft)
  {
    var twice := draft.(evidenceRefs := [x, x]);
    if draft.privilegeLevel.Some? {
      var i, j :| 0 <= i < |records| && 0 <= j < |draft.entityRefs| && Backs(records[i], draft, draft.entityRefs[j]);
      assert Backs(records[i], twice, twice.entityRefs[j]);
    }
    assert twice.evidenceRefs[0] == twice.evidenceRefs[1];
  }
}
