/** Primitive records and the entries of a pinned universe (contracts/chaining.py, chaining/matching.py). */
module Primitives {
  import opened Basics
  import opened Refs

  // A location is a text that stands for the whole range in a file.
  datatype CodeSymbol = CodeSymbol(
    symbolId: string, symbolKind: string, nativeKind: Option<string>, name: string, location: string)

  datatype PrimitiveDraft = PrimitiveDraft(draftId: string, entityRefs: seq<CodeSymbol>, description: string)

  datatype CodeFactRef = CodeFactRef(bundleRef: StoredDataRef, factId: string)

  datatype Restriction = Restriction(
    restrictionId: string, statement: string, factRefs: seq<CodeFactRef>, evidenceRefs: seq<StoredDataRef>)

  // `selfRef` is `reference(primitive)`, which the record determines.
  datatype Primitive = Primitive(
    selfRef: StoredDataRef,
    analysisId: string,
    metaWorkspaceId: string,
    metaCommitId: string,
    workspaceId: string,
    commitId: string,
    inputs: seq<PrimitiveDraft>,
    result: Option<PrimitiveDraft>,
    restrictions: seq<Restriction>,
    sourceHypothesisId: string,
    sourceVerificationRef: StoredDataRef,
    technicalReviewRef: Option<StoredDataRef>,
    evidenceRefs: seq<StoredDataRef>)

  datatype PrimitiveEntry = PrimitiveEntry(ref: StoredDataRef, primitive: Primitive)

  function MetaScope(p: Primitive): Scope {
    Scope(p.analysisId, p.metaWorkspaceId, p.metaCommitId)
  }

  predicate RestrictionInWorkspace(r: Restriction, scope: Scope) {
    && (forall ref :: ref in r.evidenceRefs ==> InWorkspace(ref, scope))
    && forall fact :: fact in r.factRefs ==> InWorkspace(fact.bundleRef, scope)
  }

  // Every reference a Primitive cites lies in its own workspace, and so does `reference(primitive)`.
  predicate SelfScoped(p: Primitive) {
    && IsPrimitiveRecord(p.selfRef) && InWorkspace(p.selfRef, MetaScope(p))
    && InWorkspace(p.sourceVerificationRef, MetaScope(p))
    && (p.technicalReviewRef.Some? ==> InWorkspace(p.technicalReviewRef.value, MetaScope(p)))
    && (forall ref :: ref in p.evidenceRefs ==> InWorkspace(ref, MetaScope(p)))
    && forall r :: r in p.restrictions ==> RestrictionInWorkspace(r, MetaScope(p))
  }

  // The record validators: there is a draft and evidence, a result comes with its technical
  // review, draft ids and restriction ids are unique, and nothing points outside the record's own
  // workspace.
  predicate WellFormed(p: Primitive) {
    && SelfScoped(p)
    && p.evidenceRefs != [] && (p.inputs != [] || p.result.Some?)
    && (p.result.Some? <==> p.technicalReviewRef.Some?)
    && (p.result.Some? ==> !AsksFor(p, p.result.value.draftId))
    && (forall i, j :: 0 <= i < j < |p.inputs| ==> p.inputs[i].draftId != p.inputs[j].draftId)
    && (forall i, j :: 0 <= i < j < |p.restrictions| ==>
         p.restrictions[i].restrictionId != p.restrictions[j].restrictionId)
  }

  predicate AsksFor(p: Primitive, inputId: string) {
    exists k :: 0 <= k < |p.inputs| && p.inputs[k].draftId == inputId
  }

  predicate DistinctRefs(entries: seq<PrimitiveEntry>) {
    forall i, j :: 0 <= i < j < |entries| ==> entries[i].ref != entries[j].ref
  }

  predicate Lists(entries: seq<PrimitiveEntry>, ref: StoredDataRef) {
    exists k :: 0 <= k < |entries| && entries[k].ref == ref
  }
}
