/** Depth-first ancestor traversal of committed Primitive lineage (chaining/lineage.py). */
module Lineage {
  import opened Basics
  import opened Refs
  import opened Reachability

  datatype LineageNode = LineageNode(
    primitiveRef: StoredDataRef,
    parents: seq<StoredDataRef>,
    analysisId: string,
    workspaceId: string,
    commitId: string,
    committed: bool)

  datatype LineageError =
    | LineageMissing
    | LineageCycle
    | RecordRefRequired
    | DataKindMismatch
    | ReferenceMismatch
    | NotCommitted
    | ScopeMismatch
    | OutsidePinnedUniverse

  // A resolver answers for finitely many references; the others raise LookupError.
  // It may also raise an error of its own, which the traversal passes on.
  type Resolver = map<StoredDataRef, Result<LineageNode, LineageError>>

  datatype AncestorList = AncestorList(ancestors: seq<StoredDataRef>, depth: nat)

  // What `require_record_ref(ref, "primitive")` raises.
  ghost function RecordRefFault(ref: StoredDataRef): Option<LineageError> {
    if IsPrimitiveRecord(ref) then None
    else Some(if ref.recordId.None? then RecordRefRequired else DataKindMismatch)
  }

  // The node is committed under this reference, in the one analysis, workspace and commit.
  ghost predicate NodeFits(node: LineageNode, expected: StoredDataRef, root: LineageNode, analysisId: string) {
    && IsPrimitiveRecord(expected) && node.primitiveRef == expected && node.committed
    && node.analysisId == analysisId == root.analysisId
    && node.workspaceId == root.workspaceId == expected.workspaceId
    && node.commitId == root.commitId == expected.commitId
  }

  // The first thing wrong with a node: its reference, its identity, its state, its scope.
  ghost function NodeFault(node: LineageNode, expected: StoredDataRef, root: LineageNode, analysisId: string)
    : Option<LineageError>
  {
    if NodeFits(node, expected, root, analysisId) then None
    else if RecordRefFault(expected).Some? then RecordRefFault(expected)
    else if node.primitiveRef != expected then Some(ReferenceMismatch)
    else Some(if node.committed then ScopeMismatch else NotCommitted)
  }

  method RequireRecordRef(ref: StoredDataRef) returns (fault: Option<LineageError>)
    ensures fault == RecordRefFault(ref)
  {
    if ref.recordId.None? {
      return Some(RecordRefRequired);
    }
    return if ref.dataKind != "primitive" then Some(DataKindMismatch) else None;
  }

  method ValidateNode(node: LineageNode, expected: StoredDataRef, root: LineageNode, analysisId: string)
    returns (fault: Option<LineageError>)
    ensures fault == NodeFault(node, expected, root, analysisId)
  {
    fault := RequireRecordRef(expected);
    if fault.Some? {
      return;
    }
    if node.primitiveRef != expected {
      return Some(ReferenceMismatch);
    }
    if !node.committed {
      return Some(NotCommitted);
    }
    if node.analysisId != analysisId || root.analysisId != analysisId
       || node.workspaceId != root.workspaceId || node.commitId != root.commitId
       || expected.workspaceId != node.workspaceId || expected.commitId != node.commitId
    {
      return Some(ScopeMismatch);
    }
  }

  ghost function ParentsOf(resolve: Resolver): StoredDataRef -> seq<StoredDataRef> {
    (ref: StoredDataRef) => if ref in resolve && resolve[ref].Ok? then resolve[ref].value.parents else []
  }

  // What `resolve` followed by the validation raises at `ref`.
  ghost function FaultAt(resolve: Resolver, root: LineageNode, analysisId: string, ref: StoredDataRef)
    : Option<LineageError>
  {
    if ref !in resolve then Some(LineageMissing)
    else if resolve[ref].Err? then Some(resolve[ref].error)
    else NodeFault(resolve[ref].value, ref, root, analysisId)
  }

  ghost predicate IsAncestor(resolve: Resolver, ancestor: StoredDataRef, ref: StoredDataRef) {
    Descends(ParentsOf(resolve), ref, ancestor)
  }

  ghost predicate Sound(resolve: Resolver, root: LineageNode, analysisId: string, ref: StoredDataRef) {
    FaultAt(resolve, root, analysisId, ref).None? && !IsAncestor(resolve, ref, ref)
  }

  // Nothing reachable from `ref` is missing, foreign or on a cycle.
  ghost predicate Intact(resolve: Resolver, root: LineageNode, analysisId: string, ref: StoredDataRef) {
    forall y :: Reaches(ParentsOf(resolve), ref, y) ==> Sound(resolve, root, analysisId, y)
  }

  // The lineage of `ref` is intact when judged from `ref` itself.
  ghost predicate LineageDefined(resolve: Resolver, analysisId: string, ref: StoredDataRef) {
    ref in resolve && resolve[ref].Ok? && Intact(resolve, resolve[ref].value, analysisId, ref)
  }

  ghost function AncestorSet(resolve: Resolver, ref: StoredDataRef): set<StoredDataRef> {
    set y | y in resolve.Keys && IsAncestor(resolve, y, ref)
  }

  // Every listed reference comes after all of its own ancestors.
  ghost predicate AncestorsFirst(resolve: Resolver, refs: seq<StoredDataRef>) {
    forall i :: 0 <= i < |refs| ==> AncestorSet(resolve, refs[i]) <= Elements(refs[..i])
  }

  // `error` is a true report about something reachable from `ref`.
  ghost predicate Explains(resolve: Resolver, root: LineageNode, analysisId: string, ref: StoredDataRef,
                           error: LineageError) {
    exists y :: Reaches(ParentsOf(resolve), ref, y) &&
      ((error == LineageCycle && IsAncestor(resolve, y, y))
       || FaultAt(resolve, root, analysisId, y) == Some(error))
  }

  // What `lineage` may report about `ref`.
  ghost predicate IsLineageFault(resolve: Resolver, analysisId: string, ref: StoredDataRef, error: LineageError) {
    if ref !in resolve then error == LineageMissing
    else if resolve[ref].Err? then error == resolve[ref].error
    else Explains(resolve, resolve[ref].value, analysisId, ref, error)
  }

  // A lineage is defined exactly when every path from `ref` stays among committed Primitive records
  // of the one analysis, workspace and commit, each found under its own reference, without a cycle.
  lemma LineageDefinedIff(resolve: Resolver, analysisId: string, ref: StoredDataRef)
    ensures LineageDefined(resolve, analysisId, ref) <==>
      forall y :: Reaches(ParentsOf(resolve), ref, y) ==>
        && y in resolve && resolve[y].Ok? && resolve[y].value.primitiveRef == y && resolve[y].value.committed
        && y.recordId.Some? && y.dataKind == "primitive" && resolve[y].value.analysisId == analysisId
        && resolve[y].value.workspaceId == y.workspaceId == ref.workspaceId
        && resolve[y].value.commitId == y.commitId == ref.commitId
        && !IsAncestor(resolve, y, y)
  {
    ReachesSelf(ParentsOf(resolve), ref);
    if LineageDefined(resolve, analysisId, ref) {
      assert Sound(resolve, resolve[ref].value, analysisId, ref);
      forall y | Reaches(ParentsOf(resolve), ref, y) ensures Sound(resolve, resolve[ref].value, analysisId, y) {
      }
    }
  }

  lemma ExplainedIsNotIntact(resolve: Resolver, root: LineageNode, analysisId: string, ref: StoredDataRef,
                             error: LineageError)
    requires Explains(resolve, root, analysisId, ref, error)
    ensures !Intact(resolve, root, analysisId, ref)
  {
    var y :| Reaches(ParentsOf(resolve), ref, y) &&
      ((error == LineageCycle && IsAncestor(resolve, y, y))
       || FaultAt(resolve, root, analysisId, y) == Some(error));
    assert !Sound(resolve, root, analysisId, y);
  }

  lemma ExplainsUpward(resolve: Resolver, root: LineageNode, analysisId: string, ref: StoredDataRef,
                       below: StoredDataRef, error: LineageError)
    requires Reaches(ParentsOf(resolve), ref, below)
    requires Explains(resolve, root, analysisId, below, error)
    ensures Explains(resolve, root, analysisId, ref, error)
  {
    var next := ParentsOf(resolve);
    var y :| Reaches(next, below, y) &&
      ((error == LineageCycle && IsAncestor(resolve, y, y))
       || FaultAt(resolve, root, analysisId, y) == Some(error));
    ReachesTransitive(next, ref, below, y);
  }

  // A valid node whose parents are all intact is intact: a cycle through it would
  // pass through one of those parents.
  lemma IntactFromParents(resolve: Resolver, root: LineageNode, analysisId: string, ref: StoredDataRef)
    requires FaultAt(resolve, root, analysisId, ref).None?
    requires forall p :: p in ParentsOf(resolve)(ref) ==> Intact(resolve, root, analysisId, p)
    ensures Intact(resolve, root, analysisId, ref)
  {
    var next := ParentsOf(resolve);
    assert !Descends(next, ref, ref);
    forall y | Reaches(next, ref, y) ensures Sound(resolve, root, analysisId, y) {
      ReachesCases(next, ref, y);
      if y != ref {
        var p :| p in next(ref) && Reaches(next, p, y);
        assert Intact(resolve, root, analysisId, p);
      }
    }
  }

  lemma AncestorsResolve(resolve: Resolver, root: LineageNode, analysisId: string, ref: StoredDataRef, y: StoredDataRef)
    requires Intact(resolve, root, analysisId, ref) && IsAncestor(resolve, y, ref)
    ensures y in AncestorSet(resolve, ref)
  {
    ReachesCases(ParentsOf(resolve), ref, y);
    assert Sound(resolve, root, analysisId, y);
  }

  lemma ParentAncestors(resolve: Resolver, root: LineageNode, analysisId: string, ref: StoredDataRef,
                        parent: StoredDataRef)
    requires parent in ParentsOf(resolve)(ref) && Intact(resolve, root, analysisId, parent)
    ensures {parent} + AncestorSet(resolve, parent) <= AncestorSet(resolve, ref)
  {
    var next := ParentsOf(resolve);
    StepReaches(next, ref, parent);
    ReachesSelf(next, parent);
    assert Sound(resolve, root, analysisId, parent);
    forall y | y in AncestorSet(resolve, parent) ensures y in AncestorSet(resolve, ref) {
      DescendsTransitive(next, ref, parent, y);
    }
  }

  // The closure state of the nested `visit` function.
  class Traversal {
    const resolve: Resolver
    const root: LineageNode
    const analysisId: string
    var seen: set<StoredDataRef>
    var ordered: seq<StoredDataRef>

    constructor (resolve: Resolver, root: LineageNode, analysisId: string)
      ensures this.resolve == resolve && this.root == root && this.analysisId == analysisId
      ensures Valid() && seen == {} && ordered == []
    {
      this.resolve := resolve;
      this.root := root;
      this.analysisId := analysisId;
      seen := {};
      ordered := [];
    }

    ghost predicate Valid()
      reads this
    {
      && Elements(ordered) == seen
      && NoDuplicates(ordered)
      && AncestorsFirst(resolve, ordered)
      && forall s :: s in seen ==> Intact(resolve, root, analysisId, s)
    }

    // Succeeds exactly when everything reachable from `current` is intact, and then
    // has recorded exactly the ancestors of `current` on top of what was recorded.
    method Visit(current: StoredDataRef, active: set<StoredDataRef>) returns (raised: Option<LineageError>)
      requires Valid()
      requires active <= resolve.Keys
      requires forall a :: a in active ==> IsAncestor(resolve, current, a)
      modifies this
      ensures raised.None? <==> Intact(resolve, root, analysisId, current)
      ensures raised.Some? ==> Explains(resolve, root, analysisId, current, raised.value)
      ensures raised.None? ==> Valid() && old(ordered) <= ordered
      ensures raised.None? ==> seen == old(seen) + AncestorSet(resolve, current)
      decreases resolve.Keys - active
    {
      ghost var next := ParentsOf(resolve);
      ReachesSelf(next, current);
      if current in active {
        raised := Some(LineageCycle);
        ExplainedIsNotIntact(resolve, root, analysisId, current, LineageCycle);
        return;
      }
      if current in seen {
        SeenHoldsAncestors(current);
        return None;
      }
      if current !in resolve {
        raised := Some(LineageMissing);
        ExplainedIsNotIntact(resolve, root, analysisId, current, LineageMissing);
        return;
      }
      if resolve[current].Err? {
        raised := Some(resolve[current].error);
        ExplainedIsNotIntact(resolve, root, analysisId, current, raised.value);
        return;
      }
      var node := resolve[current].value;
      raised := ValidateNode(node, current, root, analysisId);
      if raised.Some? {
        ExplainedIsNotIntact(resolve, root, analysisId, current, raised.value);
        return;
      }
      var nextActive := active + {current};
      var i := 0;
      while i < |node.parents|
        invariant 0 <= i <= |node.parents|
        invariant Valid() && old(ordered) <= ordered
        invariant old(seen) <= seen <= old(seen) + AncestorSet(resolve, current)
        invariant Elements(node.parents[..i]) <= seen
      {
        var parent := node.parents[i];
        StepReaches(next, current, parent);
        if parent == current {
          raised := Some(LineageCycle);
          ExplainedIsNotIntact(resolve, root, analysisId, current, LineageCycle);
          return;
        }
        ActiveDescends(current, parent, active);
        raised := Visit(parent, nextActive);
        if raised.Some? {
          ExplainsUpward(resolve, root, analysisId, current, parent, raised.value);
          ExplainedIsNotIntact(resolve, root, analysisId, current, raised.value);
          return;
        }
        ParentAncestors(resolve, root, analysisId, current, parent);
        Record(parent);
        ElementsStep(node.parents, i);
        i := i + 1;
      }
      assert node.parents[..i] == node.parents;
      SeenParentsComplete(current);
      return None;
    }

    method Record(parent: StoredDataRef)
      requires Valid() && Intact(resolve, root, analysisId, parent)
      requires AncestorSet(resolve, parent) <= seen
      modifies this
      ensures Valid() && old(ordered) <= ordered
      ensures seen == old(seen) + {parent}
    {
      if parent !in seen {
        AppendKeepsNoDuplicates(ordered, parent);
        seen := seen + {parent};
        ordered := ordered + [parent];
        forall i | 0 <= i < |ordered| ensures AncestorSet(resolve, ordered[i]) <= Elements(ordered[..i]) {
          assert ordered[..i] == old(ordered)[..i];
        }
      }
    }

    lemma ActiveDescends(current: StoredDataRef, parent: StoredDataRef, active: set<StoredDataRef>)
      requires parent in ParentsOf(resolve)(current)
      requires forall a :: a in active ==> IsAncestor(resolve, current, a)
      ensures forall a :: a in active + {current} ==> IsAncestor(resolve, parent, a)
    {
      StepReaches(ParentsOf(resolve), current, parent);
      forall a | a in active ensures IsAncestor(resolve, parent, a) {
        DescendsThenReaches(ParentsOf(resolve), a, current, parent);
      }
    }

    // Once every parent has been visited, so has every ancestor, and the node is intact.
    lemma SeenParentsComplete(current: StoredDataRef)
      requires Valid() && current in resolve && resolve[current].Ok?
      requires FaultAt(resolve, root, analysisId, current).None?
      requires Elements(resolve[current].value.parents) <= seen
      ensures Intact(resolve, root, analysisId, current) && AncestorSet(resolve, current) <= seen
    {
      var next, parents := ParentsOf(resolve), resolve[current].value.parents;
      forall p | p in parents ensures p in seen && Intact(resolve, root, analysisId, p) {
        assert p in Elements(parents);
      }
      IntactFromParents(resolve, root, analysisId, current);
      forall y | y in AncestorSet(resolve, current) ensures y in seen {
        var p :| p in parents && Reaches(next, p, y);
        ReachesCases(next, p, y);
        if y != p {
          SeenHoldsAncestors(p);
        }
      }
    }

    lemma SeenHoldsAncestors(ref: StoredDataRef)
      requires Valid() && ref in seen
      ensures AncestorSet(resolve, ref) <= seen
    {
      var i :| 0 <= i < |ordered| && ordered[i] == ref;
    }
  }

  // Exactly the ancestors, each once and after its own ancestors, with the depth they give.
  ghost predicate IsLineageOf(resolve: Resolver, ref: StoredDataRef, value: AncestorList) {
    && NoDuplicates(value.ancestors)
    && AncestorsFirst(resolve, value.ancestors)
    && ref !in value.ancestors
    && Elements(value.ancestors) == AncestorSet(resolve, ref)
    && value.depth == |AncestorSet(resolve, ref)|
  }

  function Without(refs: seq<StoredDataRef>, ref: StoredDataRef): (r: seq<StoredDataRef>)
    ensures ref !in refs ==> r == refs
  {
    if refs == [] then []
    else (if refs[0] == ref then [] else [refs[0]]) + Without(refs[1..], ref)
  }

  method LineageOf(ref: StoredDataRef, resolve: Resolver, analysisId: string)
    returns (r: Result<AncestorList, LineageError>)
    ensures r.Ok? <==> LineageDefined(resolve, analysisId, ref)
    ensures r.Ok? ==> IsLineageOf(resolve, ref, r.value)
    ensures r.Err? ==> IsLineageFault(resolve, analysisId, ref, r.error)
  {
    if ref !in resolve {
      return Err(LineageMissing);
    }
    if resolve[ref].Err? {
      return Err(resolve[ref].error);
    }
    var root := resolve[ref].value;
    ReachesSelf(ParentsOf(resolve), ref);
    var invalid := ValidateNode(root, ref, root, analysisId);
    if invalid.Some? {
      ExplainedIsNotIntact(resolve, root, analysisId, ref, invalid.value);
      return Err(invalid.value);
    }
    var traversal := new Traversal(resolve, root, analysisId);
    var raised := traversal.Visit(ref, {});
    if raised.Some? {
      return Err(raised.value);
    }
    var ordered := traversal.ordered;
    assert Sound(resolve, root, analysisId, ref);
    assert ref !in Elements(ordered);
    var ancestors := Without(ordered, ref);
    assert Elements(ancestors) == AncestorSet(resolve, ref);
    ElementsCardinality(ancestors);
    return Ok(AncestorList(ancestors, |ancestors|));
  }

  // Being intact does not depend on which node of the lineage serves as the root.
  lemma AncestorLineageDefined(resolve: Resolver, analysisId: string, ref: StoredDataRef, y: StoredDataRef)
    requires LineageDefined(resolve, analysisId, ref) && IsAncestor(resolve, y, ref)
    ensures LineageDefined(resolve, analysisId, y)
  {
    var next := ParentsOf(resolve);
    var root := resolve[ref].value;
    ReachesSelf(next, ref);
    ReachesCases(next, ref, y);
    assert Sound(resolve, root, analysisId, ref) && Sound(resolve, root, analysisId, y);
    forall z | Reaches(next, y, z) ensures Sound(resolve, resolve[y].value, analysisId, z) {
      ReachesTransitive(next, ref, y, z);
      assert Sound(resolve, root, analysisId, z);
    }
  }

  lemma AncestorSetIsComplete(resolve: Resolver, analysisId: string, ref: StoredDataRef)
    requires LineageDefined(resolve, analysisId, ref)
    ensures forall y :: y in AncestorSet(resolve, ref) <==> IsAncestor(resolve, y, ref)
    ensures ref !in AncestorSet(resolve, ref)
  {
    forall y | IsAncestor(resolve, y, ref) ensures y in AncestorSet(resolve, ref) {
      AncestorsResolve(resolve, resolve[ref].value, analysisId, ref, y);
    }
    ReachesSelf(ParentsOf(resolve), ref);
    assert Sound(resolve, resolve[ref].value, analysisId, ref);
  }

  // Depth is strictly monotone along ancestry.
  lemma AncestorIsShallower(resolve: Resolver, analysisId: string, ref: StoredDataRef, y: StoredDataRef)
    requires LineageDefined(resolve, analysisId, ref) && y in AncestorSet(resolve, ref)
    ensures LineageDefined(resolve, analysisId, y)
    ensures AncestorSet(resolve, y) < AncestorSet(resolve, ref)
    ensures |AncestorSet(resolve, y)| < |AncestorSet(resolve, ref)|
  {
    AncestorLineageDefined(resolve, analysisId, ref, y);
    AncestorSetIsComplete(resolve, analysisId, y);
    forall z | z in AncestorSet(resolve, y) ensures z in AncestorSet(resolve, ref) {
      DescendsTransitive(ParentsOf(resolve), ref, y, z);
    }
    SubsetCardinality(AncestorSet(resolve, y), AncestorSet(resolve, ref));
  }
}
