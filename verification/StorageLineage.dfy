/** Stored ancestry behind the lineage resolver, and the check a stored result must pass
    (storage/chaining_lineage.py, storage/chaining_projection.py). */
module StorageLineage {
  import opened Basics
  import opened Refs
  import opened Reachability
  import opened Lineage
  import opened Retention
  import opened Exclusions

  // Direct parents by committed provenance: the two references of the source match of a
  // chained Primitive, none for any other. A reference without an entry cannot be read.
  type Provenance = map<StoredDataRef, seq<StoredDataRef>>

  ghost function Sources(store: Provenance): StoredDataRef -> seq<StoredDataRef> {
    (ref: StoredDataRef) => if ref in store then store[ref] else []
  }

  datatype PortError = OutsideUniverse | Unreadable | PortCycle

  ghost predicate Readable(store: Provenance, pinned: set<StoredDataRef>, ref: StoredDataRef) {
    forall y :: Reaches(Sources(store), ref, y) ==> y in store && y in pinned
  }

  // What one call of the port accepts. A cycle is noticed only through `ref` itself.
  ghost predicate PortSucceeds(store: Provenance, pinned: set<StoredDataRef>, ref: StoredDataRef) {
    Readable(store, pinned, ref) && !Descends(Sources(store), ref, ref)
  }

  // `error` is a true report about something reachable from `ref`.
  ghost predicate PortFault(store: Provenance, pinned: set<StoredDataRef>, ref: StoredDataRef, error: PortError) {
    match error
    case OutsideUniverse => exists y :: Reaches(Sources(store), ref, y) && y !in pinned
    case Unreadable => exists y :: Reaches(Sources(store), ref, y) && y in pinned && y !in store
    case PortCycle => Descends(Sources(store), ref, ref)
  }

  ghost predicate ListsAncestors(store: Provenance, ref: StoredDataRef, refs: seq<StoredDataRef>) {
    NoDuplicates(refs) && forall y :: y in refs <==> Descends(Sources(store), ref, y)
  }

  ghost function PinnedAncestors(store: Provenance, pinned: set<StoredDataRef>, ref: StoredDataRef)
    : set<StoredDataRef>
  {
    set y | y in pinned && Descends(Sources(store), ref, y)
  }

  class PortTraversal {
    const store: Provenance
    const pinned: set<StoredDataRef>
    const start: StoredDataRef
    var resolved: seq<StoredDataRef>
    var visiting: set<StoredDataRef>

    constructor (store: Provenance, pinned: set<StoredDataRef>, start: StoredDataRef)
      ensures this.store == store && this.pinned == pinned && this.start == start
      ensures Valid() && resolved == [] && visiting == {}
    {
      this.store := store;
      this.pinned := pinned;
      this.start := start;
      resolved := [];
      visiting := {};
    }

    ghost predicate Valid()
      reads this
    {
      && NoDuplicates(resolved)
      && Elements(resolved) <= PinnedAncestors(store, pinned, start)
      && visiting <= Elements(resolved) + {start}
    }

    // Listed references that are no longer being visited have all their parents listed.
    ghost predicate Settled(done: set<StoredDataRef>)
      reads this
    {
      forall x :: x in done ==> x in store && Elements(store[x]) <= Elements(resolved)
    }

    method Append(parent: StoredDataRef)
      requires Valid() && parent !in resolved
      requires parent in PinnedAncestors(store, pinned, start)
      modifies this`resolved
      ensures Valid() && resolved == old(resolved) + [parent]
      ensures Elements(resolved) == old(Elements(resolved)) + {parent}
    {
      AppendKeepsNoDuplicates(resolved, parent);
      resolved := resolved + [parent];
    }

    method Visit(current: StoredDataRef) returns (raised: Option<PortError>)
      requires Valid() && current in pinned && Reaches(Sources(store), start, current)
      requires current == start || (current in resolved && start in visiting)
      requires Settled(Elements(resolved) + {start} - visiting - {current})
      requires current in visiting ==> current == start && Descends(Sources(store), start, start)
      requires current !in visiting ==> start !in resolved
      modifies this
      ensures raised.Some? ==> PortFault(store, pinned, start, raised.value)
      ensures raised.None? ==> Valid() && visiting == old(visiting)
      ensures raised.None? ==> old(Elements(resolved)) <= Elements(resolved)
      ensures raised.None? ==> Settled(Elements(resolved) + {start} - visiting) && start !in resolved
      decreases pinned - Elements(resolved)
    {
      if current in visiting {
        return Some(PortCycle);
      }
      visiting := visiting + {current};
      if current !in store {
        return Some(Unreadable);
      }
      var parents := store[current];
      for i := 0 to |parents|
        invariant Valid() && visiting == old(visiting) + {current}
        invariant old(Elements(resolved)) <= Elements(resolved)
        invariant Settled(Elements(resolved) + {start} - visiting) && start !in resolved
        invariant Elements(parents[..i]) <= Elements(resolved)
      {
        var parent := parents[i];
        ParentIsReached(store, pinned, start, current, parent);
        ElementsStep(parents, i);
        if parent !in pinned {
          return Some(OutsideUniverse);
        }
        if parent !in resolved {
          Append(parent);
          raised := Visit(parent);
          if raised.Some? {
            return;
          }
        }
      }
      assert parents[..|parents|] == parents;
      visiting := visiting - {current};
      return None;
    }
  }

  lemma ParentIsReached(store: Provenance, pinned: set<StoredDataRef>, start: StoredDataRef, current: StoredDataRef,
                        parent: StoredDataRef)
    requires Reaches(Sources(store), start, current) && parent in Sources(store)(current)
    ensures Descends(Sources(store), start, parent) && Reaches(Sources(store), start, parent)
    ensures parent in pinned ==> parent in PinnedAncestors(store, pinned, start)
    ensures parent !in pinned ==> PortFault(store, pinned, start, OutsideUniverse)
  {
    StepReaches(Sources(store), current, parent);
    ReachesThenDescends(Sources(store), start, current, parent);
    ReachesCases(Sources(store), start, parent);
  }

  // Ancestors exactly when the port accepts the reference, and then all of them; otherwise the fault.
  ghost predicate IsPortAnswer(store: Provenance, pinned: set<StoredDataRef>, ref: StoredDataRef,
                               r: Result<seq<StoredDataRef>, PortError>) {
    && (r.Ok? <==> PortSucceeds(store, pinned, ref))
    && (r.Ok? ==> ListsAncestors(store, ref, r.value))
    && (r.Err? ==> PortFault(store, pinned, ref, r.error))
  }

  method PortAncestors(store: Provenance, pinned: seq<StoredDataRef>, ref: StoredDataRef)
    returns (r: Result<seq<StoredDataRef>, PortError>)
    ensures IsPortAnswer(store, Elements(pinned), ref, r)
  {
    ReachesSelf(Sources(store), ref);
    if ref !in pinned {
      return Err(OutsideUniverse);
    }
    var traversal := new PortTraversal(store, Elements(pinned), ref);
    var raised := traversal.Visit(ref);
    if raised.Some? {
      return Err(raised.value);
    }
    var resolved := traversal.resolved;
    SettledListIsComplete(store, Elements(pinned), ref, resolved);
    return Ok(resolved);
  }

  lemma SettledListIsComplete(store: Provenance, pinned: set<StoredDataRef>, ref: StoredDataRef,
                              resolved: seq<StoredDataRef>)
    requires ref in pinned && ref !in resolved && NoDuplicates(resolved)
    requires Elements(resolved) <= PinnedAncestors(store, pinned, ref)
    requires forall x :: x in Elements(resolved) + {ref} ==> x in store && Elements(store[x]) <= Elements(resolved)
    ensures ListsAncestors(store, ref, resolved) && PortSucceeds(store, pinned, ref)
  {
    var next := Sources(store);
    var listed := Elements(resolved);
    assert forall x :: x in listed ==> x in resolved;
    forall x, y | x in listed && y in next(x) ensures y in listed {
      assert y in Elements(store[x]);
    }
    assert Closed(next, listed);
    forall y | Descends(next, ref, y) ensures y in listed {
      var c :| c in next(ref) && Reaches(next, c, y);
      assert c in Elements(store[ref]);
      ClosedKeepsReachable(next, listed, c, y);
    }
    forall y | y in resolved ensures Descends(next, ref, y) {
      assert y in listed;
    }
    forall y | Reaches(next, ref, y) ensures y in store && y in pinned {
      ReachesCases(next, ref, y);
      assert y in listed + {ref};
    }
  }

  // ------------------------------------------------ the port as a resolver

  // The resolver the chaining service builds over the port: every parent list is the
  // complete ancestor list, and a port error comes out of the resolver.
  ghost predicate IsPortResolver(resolve: Resolver, store: Provenance, pinned: set<StoredDataRef>, scope: Scope) {
    && resolve.Keys == pinned
    && forall ref :: ref in pinned ==>
      && (resolve[ref].Ok? <==> PortSucceeds(store, pinned, ref))
      && (resolve[ref].Ok? ==>
        && ListsAncestors(store, ref, resolve[ref].value.parents)
        && resolve[ref].value == LineageNode(ref, resolve[ref].value.parents, scope.analysisId,
                                             scope.workspaceId, scope.commitId, true))
  }

  ghost predicate InScope(ref: StoredDataRef, scope: Scope) {
    IsPrimitiveRecord(ref) && InWorkspace(ref, scope)
  }

  lemma PortStepsAreAncestry(resolve: Resolver, store: Provenance, pinned: set<StoredDataRef>, scope: Scope,
                             ref: StoredDataRef, y: StoredDataRef)
    requires IsPortResolver(resolve, store, pinned, scope) && ref in pinned
    requires IsAncestor(resolve, y, ref)
    ensures Descends(Sources(store), ref, y)
  {
    var next, raw := ParentsOf(resolve), Sources(store);
    var c :| c in next(ref) && Reaches(next, c, y);
    var p :| IsPath(next, p) && p[0] == c && p[|p| - 1] == y;
    var i := 0;
    while i < |p| - 1
      invariant 0 <= i < |p| && Descends(raw, ref, p[i])
    {
      assert p[i + 1] in next(p[i]);
      assert p[i] in resolve && Descends(raw, p[i], p[i + 1]);
      DescendsTransitive(raw, ref, p[i], p[i + 1]);
      i := i + 1;
    }
  }

  // Although one port call notices only cycles through its own reference, the traversal
  // asks the port at every ancestor, so together they refuse every reachable cycle and
  // compute the ancestors of the raw provenance.
  lemma TraversalOverPort(resolve: Resolver, store: Provenance, pinned: set<StoredDataRef>, scope: Scope,
                          ref: StoredDataRef)
    requires IsPortResolver(resolve, store, pinned, scope)
    ensures LineageDefined(resolve, scope.analysisId, ref) <==>
      forall y :: Reaches(Sources(store), ref, y) ==>
        y in store && y in pinned && InScope(y, scope) && !Descends(Sources(store), y, y)
    ensures LineageDefined(resolve, scope.analysisId, ref) ==>
      forall y :: y in AncestorSet(resolve, ref) <==> Descends(Sources(store), ref, y)
  {
    var raw := Sources(store);
    ReachesSelf(raw, ref);
    if LineageDefined(resolve, scope.analysisId, ref) {
      DefinedOverPort(resolve, store, pinned, scope, ref);
    }
    if forall y :: Reaches(raw, ref, y) ==>
         y in store && y in pinned && InScope(y, scope) && !Descends(raw, y, y) {
      AcyclicOverPort(resolve, store, pinned, scope, ref);
    }
  }

  lemma DefinedOverPort(resolve: Resolver, store: Provenance, pinned: set<StoredDataRef>, scope: Scope,
                        ref: StoredDataRef)
    requires IsPortResolver(resolve, store, pinned, scope)
    requires LineageDefined(resolve, scope.analysisId, ref)
    ensures forall y :: Reaches(Sources(store), ref, y) ==>
      y in store && y in pinned && InScope(y, scope) && !Descends(Sources(store), y, y)
    ensures forall y :: y in AncestorSet(resolve, ref) <==> Descends(Sources(store), ref, y)
  {
    var next, raw := ParentsOf(resolve), Sources(store);
    var root := resolve[ref].value;
    AncestorSetIsComplete(resolve, scope.analysisId, ref);
    forall y | Descends(raw, ref, y) ensures IsAncestor(resolve, y, ref) {
      assert y in resolve[ref].value.parents;
      StepReaches(next, ref, y);
    }
    forall y | IsAncestor(resolve, y, ref) ensures Descends(raw, ref, y) {
      PortStepsAreAncestry(resolve, store, pinned, scope, ref, y);
    }
    forall y | Reaches(raw, ref, y)
      ensures y in store && y in pinned && InScope(y, scope) && !Descends(raw, y, y)
    {
      ReachesCases(raw, ref, y);
      ReachesCases(next, ref, y);
      assert Sound(resolve, root, scope.analysisId, y);
      assert PortSucceeds(store, pinned, y);
      ReachesSelf(raw, y);
    }
  }

  lemma AcyclicOverPort(resolve: Resolver, store: Provenance, pinned: set<StoredDataRef>, scope: Scope,
                        ref: StoredDataRef)
    requires IsPortResolver(resolve, store, pinned, scope)
    requires forall y :: Reaches(Sources(store), ref, y) ==>
      y in store && y in pinned && InScope(y, scope) && !Descends(Sources(store), y, y)
    ensures LineageDefined(resolve, scope.analysisId, ref)
  {
    var next, raw := ParentsOf(resolve), Sources(store);
    ReachesSelf(raw, ref);
    forall y | Reaches(raw, ref, y) ensures PortSucceeds(store, pinned, y) {
      forall z | Reaches(raw, y, z) ensures z in store && z in pinned {
        ReachesTransitive(raw, ref, y, z);
      }
    }
    var root := resolve[ref].value;
    forall y | Reaches(next, ref, y) ensures Sound(resolve, root, scope.analysisId, y) {
      ReachesCases(next, ref, y);
      if y != ref {
        PortStepsAreAncestry(resolve, store, pinned, scope, ref, y);
      }
      ReachesCases(raw, ref, y);
      assert resolve[y].Ok?;
      if IsAncestor(resolve, y, y) {
        PortStepsAreAncestry(resolve, store, pinned, scope, y, y);
      }
    }
  }

  lemma CycleBeside(next: StoredDataRef -> seq<StoredDataRef>, a: StoredDataRef, b: StoredDataRef, c: StoredDataRef,
                    d: StoredDataRef)
    requires a !in {b, c, d} && next(a) == [b, d] && next(b) == [c, d] && next(c) == [b, d] && next(d) == []
    ensures forall y :: Reaches(next, a, y) ==> y in {a, b, c, d}
    ensures !Descends(next, a, a) && Descends(next, b, b)
  {
    StepReaches(next, b, c);
    StepReaches(next, c, b);
    DescendsTransitive(next, b, c, b);
    forall y | Reaches(next, a, y) ensures y in {a, b, c, d} {
      ClosedKeepsReachable(next, {a, b, c, d}, a, y);
    }
    if Descends(next, a, a) {
      var s :| s in next(a) && Reaches(next, s, a);
      ClosedKeepsReachable(next, {b, c, d}, s, a);
    }
  }

  // One port call alone lets a cycle pass when it does not run through its own reference. Each
  // source pair here has two different ends, as every stored match has.
  lemma PortMissesCycle(a: StoredDataRef, b: StoredDataRef, c: StoredDataRef, d: StoredDataRef)
    requires a != b && a != c && a != d && b != c && b != d && c != d
    ensures var store: Provenance := map[a := [b, d], b := [c, d], c := [b, d], d := []];
      PortSucceeds(store, {a, b, c, d}, a) && Descends(Sources(store), b, b)
  {
    CycleBeside(Sources(map[a := [b, d], b := [c, d], c := [b, d], d := []]), a, b, c, d);
  }
}
