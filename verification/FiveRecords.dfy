/** Five records that run into storage's refusal: `b` matches `a`, two Primitives are chained from that
    match, and the next trigger matches both (chaining/service.py, storage/chaining_projection.py). */
module FiveRecords {
  import opened Basics
  import opened Refs
  import opened Reachability
  import opened Primitives
  import opened Matching
  import opened Ownership
  import opened Lineage
  import opened Retention
  import opened StorageLineage
  import opened StoredExclusions
  import opened Proposals
  import opened Closure
  import opened Finalize
  import opened Finalization
  import opened Workflow
  import opened Answers
  import opened Siblings

  const HERE := Scope("analysis", "workspace", "commit")

  function HereRef(id: string, kind: string): StoredDataRef {
    StoredDataRef(id, kind, id, HERE.workspaceId, HERE.commitId, Some(id))
  }

  function RefOf(id: char): StoredDataRef {
    HereRef([id], PRIMITIVE)
  }

  // `a`, `b` and `z` come from hypotheses of their own, `x` and `y` from one chained hypothesis.
  function HypothesisOf(id: char): string {
    if id == 'x' || id == 'y' then "chained" else ['h', id]
  }

  // What the verification of a hypothesis asks for is common to its Primitives; each of them
  // yields a result of its own, backed by the accepted technical review.
  function PrimitiveOf(id: char): Primitive {
    var hypothesis := HypothesisOf(id);
    var symbol := CodeSymbol("f", "CALLABLE", None, "f", "f.c:1");
    Primitive(RefOf(id), HERE.analysisId, HERE.workspaceId, HERE.commitId, HERE.workspaceId, HERE.commitId,
              [PrimitiveDraft("need", [symbol], "needs")], Some(PrimitiveDraft("yield-" + [id], [symbol], "yields")),
              [], hypothesis, HereRef("v-" + hypothesis, "verification_result"),
              Some(HereRef("r-" + hypothesis, "technical_evidence_review")), [HereRef("s", "static_fact_bundle")])
  }

  function EntryOf(id: char): PrimitiveEntry {
    PrimitiveEntry(RefOf(id), PrimitiveOf(id))
  }

  // The pool at registration: `x` and `y` are published together, `z` last. Pools are sorted.
  function PoolOf(id: char): string {
    if id == 'a' then "a" else if id == 'b' then "ab" else if id == 'x' || id == 'y' then "abxy" else "abxyz"
  }

  function RefsOf(ids: string): (refs: seq<StoredDataRef>)
    ensures |refs| == |ids| && forall k :: 0 <= k < |ids| ==> refs[k] == RefOf(ids[k])
  {
    seq(|ids|, k requires 0 <= k < |ids| => RefOf(ids[k]))
  }

  function EntriesOf(ids: string): (entries: seq<PrimitiveEntry>)
    ensures |entries| == |ids| && forall k :: 0 <= k < |ids| ==> entries[k] == EntryOf(ids[k])
  {
    seq(|ids|, k requires 0 <= k < |ids| => EntryOf(ids[k]))
  }

  // The chained hypothesis comes from the match of `b` with `a`.
  function SourcesOf(ref: StoredDataRef): seq<StoredDataRef> {
    if ref == RefOf('x') || ref == RefOf('y') then [RefOf('b'), RefOf('a')] else []
  }

  function StoreOf(ids: string): Provenance {
    map ref | ref in RefsOf(ids) :: SourcesOf(ref)
  }

  function ResolverOf(ids: string): Resolver {
    map ref | ref in RefsOf(ids) ::
      Ok(LineageNode(ref, SourcesOf(ref), HERE.analysisId, HERE.workspaceId, HERE.commitId, true))
  }

  function Histories(): HistoryPort {
    map id | id in "abxyz" :: RefOf(id) := PoolHistory(RefOf(id), RefsOf(PoolOf(id)))
  }

  lemma PooledRef(ids: string, id: char)
    ensures RefOf(id) in RefsOf(ids) <==> id in ids
    ensures id in ids ==> EntryOf(id) in EntriesOf(ids)
    ensures NoDuplicates(ids) ==> NoDuplicates(RefsOf(ids))
  {
    if id in ids {
      var k :| 0 <= k < |ids| && ids[k] == id;
      assert RefsOf(ids)[k] == RefOf(id) && EntriesOf(ids)[k] == EntryOf(id);
    }
    if RefOf(id) in RefsOf(ids) {
      var k :| 0 <= k < |ids| && RefsOf(ids)[k] == RefOf(id);
      assert [ids[k]] == [id];
    }
    forall i, j | 0 <= i < j < |ids| && NoDuplicates(ids) ensures RefsOf(ids)[i] != RefsOf(ids)[j] {
      assert [ids[i]][0] != [ids[j]][0];
    }
  }

  lemma RecordIsValid(id: char)
    ensures WellFormed(PrimitiveOf(id)) && PrimitiveOf(id).result.Some? && AsksFor(PrimitiveOf(id), "need")
  {
    assert PrimitiveOf(id).inputs[0].draftId == "need";
    assert ("yield-" + [id])[0] == 'y' && "need"[0] == 'n';
  }

  lemma SameHypothesis(i: char, j: char)
    requires HypothesisOf(i) == HypothesisOf(j)
    ensures SourcesOf(RefOf(i)) == SourcesOf(RefOf(j))
  {
    assert |"chained"| == 7;
    if i != 'x' && i != 'y' {
      assert ['h', i][1] == ['h', j][1];
    }
  }

  // A Primitive's parents are read off its hypothesis.
  ghost predicate SourcesFollow(entries: seq<PrimitiveEntry>) {
    forall e, f :: e in entries && f in entries && SameSource(e.primitive, f.primitive) ==>
      SourcesOf(e.ref) == SourcesOf(f.ref)
  }

  ghost predicate SameSource(p: Primitive, q: Primitive) {
    p.sourceHypothesisId == q.sourceHypothesisId
  }

  ghost predicate ValidRecords(entries: seq<PrimitiveEntry>) {
    forall e :: e in entries ==> WellFormed(e.primitive)
  }

  lemma RecordsAreValid(ids: string)
    ensures ValidRecords(EntriesOf(ids))
    ensures OwnAnalysis(EntriesOf(ids), HERE.analysisId) && SourcesFollow(EntriesOf(ids))
  {
    forall e | e in EntriesOf(ids) ensures WellFormed(e.primitive) && e.primitive.analysisId == HERE.analysisId {
      var k :| 0 <= k < |ids| && EntriesOf(ids)[k] == e;
      RecordIsValid(ids[k]);
    }
    forall e, f | e in EntriesOf(ids) && f in EntriesOf(ids) && SameSource(e.primitive, f.primitive)
      ensures SourcesOf(e.ref) == SourcesOf(f.ref)
    {
      var i :| 0 <= i < |ids| && EntriesOf(ids)[i] == e;
      var j :| 0 <= j < |ids| && EntriesOf(ids)[j] == f;
      SameHypothesis(ids[i], ids[j]);
    }
  }

  lemma TwoRoots(next: StoredDataRef -> seq<StoredDataRef>, ref: StoredDataRef, a: StoredDataRef, b: StoredDataRef)
    requires next(ref) == [a, b] && next(a) == [] && next(b) == [] && ref != a && ref != b
    ensures forall z :: Descends(next, ref, z) <==> z == a || z == b
    ensures forall z :: Reaches(next, ref, z) ==> z in {ref, a, b} && !Descends(next, z, z)
  {
    StepReaches(next, ref, a);
    StepReaches(next, ref, b);
    forall z | Descends(next, ref, z) ensures z == a || z == b {
      var c :| c in next(ref) && Reaches(next, c, z);
      ClosedKeepsReachable(next, {a, b}, c, z);
    }
    forall z | Reaches(next, ref, z) ensures z in {ref, a, b} {
      ReachesCases(next, ref, z);
    }
  }

  lemma NoParents(next: StoredDataRef -> seq<StoredDataRef>, ref: StoredDataRef)
    requires next(ref) == []
    ensures forall z :: Reaches(next, ref, z) <==> z == ref
    ensures forall z :: !Descends(next, ref, z)
  {
    forall z ensures Reaches(next, ref, z) <==> z == ref {
      ReachesCases(next, ref, z);
    }
  }

  lemma RefsApart(i: char, j: char)
    ensures RefOf(i) == RefOf(j) <==> i == j
  {
    assert [i][0] == i && [j][0] == j;
  }

  // -------------------------------------------------------------------- ownership

  lemma PoolHolds(id: char)
    requires id in "abxyz"
    ensures NoDuplicates(PoolOf(id)) && id in PoolOf(id) && forall c :: c in PoolOf(id) ==> c in "abxyz"
  {
  }

  lemma LaterOwns(t: char, x: char)
    requires t in "abxyz" && x in PoolOf(t) && t !in PoolOf(x)
    ensures RefOf(x) in Histories() && Histories()[RefOf(x)].trigger == RefOf(x)
    ensures OwnsEntry(Histories(), RefOf(t), RefsOf(PoolOf(t)), RefOf(x))
  {
    PoolHolds(t);
    PoolHolds(x);
    PooledRef(PoolOf(t), t);
    PooledRef(PoolOf(t), x);
    PooledRef(PoolOf(x), x);
    PooledRef(PoolOf(x), t);
    RefsApart(t, x);
  }

  lemma AllPinned(ids: string, t: char)
    requires NoDuplicates(ids) && t in ids
    ensures Pinned(EntriesOf(ids), RefOf(t)) && EntryFor(EntriesOf(ids), RefOf(t)) == EntryOf(t)
  {
    PooledRef(ids, t);
    var entries := EntriesOf(ids);
    forall i, j | 0 <= i < j < |entries| ensures entries[i].ref != entries[j].ref {
      RefsApart(ids[i], ids[j]);
    }
    var k :| 0 <= k < |entries| && entries[k] == EntryFor(entries, RefOf(t));
    RefsApart(ids[k], t);
  }

  ghost predicate Newest(t: char) {
    t in "abxyz" && forall c :: c in PoolOf(t) && c != t ==> t !in PoolOf(c)
  }

  lemma PoolsGrow()
    ensures Newest('b') && 'a' in PoolOf('b') && HoldsSources(PoolOf('b'))
    ensures Newest('z') && 'x' in PoolOf('z') && 'y' in PoolOf('z') && 'z' in PoolOf('z') && HoldsSources(PoolOf('z'))
  {
  }

  // The work of a trigger that no older pool holds can tell which comparisons it owns.
  lemma NewestOwns(t: char)
    requires Newest(t)
    ensures Ownable(Histories(), RefOf(t), RefsOf(PoolOf(t)), EntriesOf(PoolOf(t)))
  {
    PoolHolds(t);
    AllPinned(PoolOf(t), t);
    forall e | e in EntriesOf(PoolOf(t)) ensures HistoryUsable(Histories(), RefOf(t), RefsOf(PoolOf(t)), e) {
      var k :| 0 <= k < |PoolOf(t)| && EntriesOf(PoolOf(t))[k] == e;
      if PoolOf(t)[k] != t {
        LaterOwns(t, PoolOf(t)[k]);
      }
    }
  }

  lemma NewestCompares(t: char, x: char)
    requires t in "abxyz" && x in PoolOf(t) && t !in PoolOf(x)
    ensures Lists(EntriesOf(PoolOf(t)), RefOf(t))
    ensures MayChain(RefsOf(PoolOf(t)), RefOf(t), EntriesOf(PoolOf(t)), Histories(), RefOf(x))
  {
    PoolHolds(t);
    PoolHolds(x);
    LaterOwns(t, x);
    AllPinned(PoolOf(t), t);
    PooledRef(PoolOf(t), x);
    RefsApart(t, x);
    RecordIsValid(t);
    RecordIsValid(x);
    assert AskedBetween(EntryOf(t), EntryOf(x), Question(RefOf(t), RefOf(x), "need"));
    assert AskedInUniverse(EntryOf(t), EntriesOf(PoolOf(t)), Question(RefOf(t), RefOf(x), "need"));
  }

  lemma RecordsFit(ids: string, t: char, x: char)
    requires NoDuplicates(ids) && t in ids && x in ids
    ensures PairFits(EntriesOf(ids), RefOf(t), RefOf(x))
  {
    AllPinned(ids, t);
    AllPinned(ids, x);
    var drafts := PairDrafts(PrimitiveOf(t), PrimitiveOf(x));
    assert drafts[0] == PrimitiveOf(t).inputs[0];
  }

  // ---------------------------------------------------------------------- lineage

  ghost predicate HoldsSources(ids: string) {
    NoDuplicates(ids) && 'a' in ids && 'b' in ids
  }

  lemma StoredSources(ids: string, id: char)
    requires HoldsSources(ids) && id in ids
    ensures Sources(StoreOf(ids))(RefOf(id)) == SourcesOf(RefOf(id))
  {
    PooledRef(ids, id);
  }

  lemma SourcesAreAncestors(ids: string, id: char)
    requires HoldsSources(ids) && id in ids
    ensures forall z :: Descends(Sources(StoreOf(ids)), RefOf(id), z) <==> z in SourcesOf(RefOf(id))
    ensures forall z :: Reaches(Sources(StoreOf(ids)), RefOf(id), z) ==>
      z in RefsOf(ids) && InScope(z, HERE) && !Descends(Sources(StoreOf(ids)), z, z)
  {
    var next := Sources(StoreOf(ids));
    var a, b := RefOf('a'), RefOf('b');
    StoredSources(ids, id);
    PooledRef(ids, id);
    RefsApart(id, 'x');
    RefsApart(id, 'y');
    if id == 'x' || id == 'y' {
      RootsAreRoots(ids);
      TwoRoots(next, RefOf(id), b, a);
    } else {
      NoParents(next, RefOf(id));
    }
  }

  lemma RootsAreRoots(ids: string)
    requires HoldsSources(ids)
    ensures RefOf('a') in RefsOf(ids) && Sources(StoreOf(ids))(RefOf('a')) == []
    ensures RefOf('b') in RefsOf(ids) && Sources(StoreOf(ids))(RefOf('b')) == []
    ensures RefOf('a') != RefOf('b')
    ensures forall c :: c == 'x' || c == 'y' ==> RefOf(c) != RefOf('a') && RefOf(c) != RefOf('b')
  {
    PooledRef(ids, 'a');
    PooledRef(ids, 'b');
    RefsApart('a', 'b');
    RefsApart('x', 'a');
    RefsApart('x', 'b');
    RefsApart('y', 'a');
    RefsApart('y', 'b');
  }

  lemma PortAnswers(ids: string)
    requires HoldsSources(ids)
    ensures IsPortResolver(ResolverOf(ids), StoreOf(ids), Elements(RefsOf(ids)), HERE)
  {
    forall ref | ref in RefsOf(ids)
      ensures PortSucceeds(StoreOf(ids), Elements(RefsOf(ids)), ref)
      ensures ListsAncestors(StoreOf(ids), ref, SourcesOf(ref))
    {
      var k :| 0 <= k < |ids| && RefsOf(ids)[k] == ref;
      SourcesAreAncestors(ids, ids[k]);
      ReachesSelf(Sources(StoreOf(ids)), ref);
      RefsApart('a', 'b');
    }
  }

  lemma LineageIsSources(ids: string, id: char)
    requires HoldsSources(ids) && id in ids
    ensures LineageDefined(ResolverOf(ids), HERE.analysisId, RefOf(id))
    ensures forall z :: z in AncestorSet(ResolverOf(ids), RefOf(id)) <==> z in SourcesOf(RefOf(id))
  {
    PortAnswers(ids);
    SourcesAreAncestors(ids, id);
    TraversalOverPort(ResolverOf(ids), StoreOf(ids), Elements(RefsOf(ids)), HERE, RefOf(id));
  }

  // `parents` are pooled references other than the three.
  ghost predicate Apart(considered: seq<StoredDataRef>, t: StoredDataRef, x: StoredDataRef, y: StoredDataRef,
                        parents: seq<StoredDataRef>) {
    && x in considered && y in considered && x.recordId != y.recordId && t != x && t != y
    && forall z :: z in parents ==> z in considered && z != t && z != x && z != y
  }

  lemma SharedParents(resolve: Resolver, considered: seq<StoredDataRef>, analysisId: string, t: StoredDataRef,
                      x: StoredDataRef, y: StoredDataRef, parents: seq<StoredDataRef>)
    requires Apart(considered, t, x, y, parents) && parents != []
    requires LineageDefined(resolve, analysisId, x) && LineageDefined(resolve, analysisId, y)
    requires forall z :: z in AncestorSet(resolve, x) <==> z in parents
    requires forall z :: z in AncestorSet(resolve, y) <==> z in parents
    ensures Kin(resolve, considered, analysisId, t, x, y)
  {
    assert parents[0] in AncestorSet(resolve, x) * AncestorSet(resolve, y);
  }

  lemma ChainedApart(ids: string)
    requires HoldsSources(ids) && 'x' in ids && 'y' in ids && 'z' in ids
    ensures Apart(RefsOf(ids), RefOf('z'), RefOf('x'), RefOf('y'), SourcesOf(RefOf('x')))
    ensures SourcesOf(RefOf('y')) == SourcesOf(RefOf('x')) == [RefOf('b'), RefOf('a')]
  {
    RootsAreRoots(ids);
    PooledRef(ids, 'x');
    PooledRef(ids, 'y');
    RefsApart('z', 'x');
    RefsApart('z', 'y');
    RefsApart('z', 'a');
    RefsApart('z', 'b');
    RefsApart('x', 'y');
  }

  lemma ChainedAreKin(ids: string)
    requires HoldsSources(ids) && 'x' in ids && 'y' in ids && 'z' in ids
    ensures Kin(ResolverOf(ids), RefsOf(ids), HERE.analysisId, RefOf('z'), RefOf('x'), RefOf('y'))
  {
    ChainedApart(ids);
    LineageIsSources(ids, 'x');
    LineageIsSources(ids, 'y');
    SharedParents(ResolverOf(ids), RefsOf(ids), HERE.analysisId, RefOf('z'), RefOf('x'), RefOf('y'),
                  SourcesOf(RefOf('x')));
  }

  // ------------------------------------------------------------------------- runs

  // The work of `t` on its pool compares it with `x`.
  ghost predicate Started(ids: string, t: char, x: char, scope: Scope) {
    Workable(RefsOf(ids), RefOf(t), EntriesOf(ids), Histories(), scope, RefOf(x))
  }

  lemma StartsWhenReady(ids: string, t: char, x: char)
    requires Ownable(Histories(), RefOf(t), RefsOf(ids), EntriesOf(ids)) && Lists(EntriesOf(ids), RefOf(t))
    requires MayChain(RefsOf(ids), RefOf(t), EntriesOf(ids), Histories(), RefOf(x))
    requires PairFits(EntriesOf(ids), RefOf(t), RefOf(x))
    ensures Started(ids, t, x, HERE)
  {
    RecordsAreValid(ids);
  }

  lemma NewestStarts(t: char, x: char)
    requires Newest(t) && x in PoolOf(t) && t != x
    ensures Started(PoolOf(t), t, x, HERE)
  {
    PoolHolds(t);
    NewestOwns(t);
    NewestCompares(t, x);
    RecordsFit(PoolOf(t), t, x);
    StartsWhenReady(PoolOf(t), t, x);
  }

  lemma RootHasNoAncestors(ids: string, x: char)
    requires HoldsSources(ids) && x in ids && SourcesOf(RefOf(x)) == []
    ensures RefOf(x) in RefsOf(ids) && LineageDefined(ResolverOf(ids), HERE.analysisId, RefOf(x))
    ensures AncestorSet(ResolverOf(ids), RefOf(x)) == {}
  {
    LineageIsSources(ids, x);
    PooledRef(ids, x);
  }

  method RunOne(ids: string, t: char, x: char, scope: Scope)
    returns (r: Result<ChainingResult, WorkError>, accepted: bool)
    requires Started(ids, t, x, scope)
    requires IsPortResolver(ResolverOf(ids), StoreOf(ids), Elements(RefsOf(ids)), scope)
    requires RefOf(x) in RefsOf(ids) && RefOf(t) != RefOf(x)
    requires LineageDefined(ResolverOf(ids), scope.analysisId, RefOf(x))
    requires AncestorSet(ResolverOf(ids), RefOf(x)) == {}
    ensures r.Ok? && accepted
    ensures forall p :: p in MatchedPairsOf(r.value.matches) <==> p == SuccessfulMatchPair(RefOf(t), RefOf(x))
  {
    r, accepted := SingleRun(RefsOf(ids), RefOf(t), EntriesOf(ids), Histories(), StoreOf(ids), ResolverOf(ids), scope,
                             RefOf(x));
  }

  method RunTwo(ids: string, t: char, x: char, y: char, scope: Scope)
    returns (r: Result<ChainingResult, WorkError>, accepted: bool)
    requires Started(ids, t, x, scope) && Started(ids, t, y, scope)
    requires IsPortResolver(ResolverOf(ids), StoreOf(ids), Elements(RefsOf(ids)), scope)
    requires Kin(ResolverOf(ids), RefsOf(ids), scope.analysisId, RefOf(t), RefOf(x), RefOf(y))
    ensures r.Ok? && !accepted
  {
    r, accepted := RefusedRun(RefsOf(ids), RefOf(t), EntriesOf(ids), Histories(), StoreOf(ids), ResolverOf(ids), scope,
                              RefOf(x), RefOf(y));
  }

  lemma FirstWork(ids: string)
    requires ids == PoolOf('b')
    ensures Started(ids, 'b', 'a', HERE)
    ensures HoldsSources(ids) && SourcesOf(RefOf('a')) == [] && RefOf('b') != RefOf('a')
  {
    PoolsGrow();
    NewestStarts('b', 'a');
    RefsApart('a', 'b');
    RefsApart('a', 'x');
    RefsApart('a', 'y');
  }

  lemma LastWork(ids: string)
    requires ids == PoolOf('z')
    ensures Started(ids, 'z', 'x', HERE) && Started(ids, 'z', 'y', HERE)
    ensures HoldsSources(ids)
    ensures Kin(ResolverOf(ids), RefsOf(ids), HERE.analysisId, RefOf('z'), RefOf('x'), RefOf('y'))
  {
    PoolsGrow();
    NewestStarts('z', 'x');
    NewestStarts('z', 'y');
    ChainedAreKin(ids);
  }

  // The first work matches `b` with `a`; storage accepts it.
  method RunFirst() returns (r: Result<ChainingResult, WorkError>, accepted: bool)
    ensures r.Ok? && accepted
    ensures forall p :: p in MatchedPairsOf(r.value.matches) <==> p == SuccessfulMatchPair(RefOf('b'), RefOf('a'))
  {
    var ids := PoolOf('b');
    FirstWork(ids);
    RootHasNoAncestors(ids, 'a');
    PortAnswers(ids);
    r, accepted := RunOne(ids, 'b', 'a', HERE);
  }

  // The last work matches both Primitives chained from that match; storage refuses it.
  method RunLast() returns (r: Result<ChainingResult, WorkError>, accepted: bool)
    ensures r.Ok? && !accepted
  {
    var ids := PoolOf('z');
    LastWork(ids);
    PortAnswers(ids);
    r, accepted := RunTwo(ids, 'z', 'x', 'y', HERE);
  }

  // Five valid records run into the refusal: the sources of `x` and `y` are the one match of the
  // accepted first work, and the last work, which matches both of them, is refused.
  method RunExample()
    returns (first: Result<ChainingResult, WorkError>, stored: bool,
             last: Result<ChainingResult, WorkError>, accepted: bool)
    ensures ValidRecords(EntriesOf(PoolOf('z'))) && SourcesFollow(EntriesOf(PoolOf('z')))
    ensures first.Ok? && stored
    ensures forall p :: p in MatchedPairsOf(first.value.matches) <==> p == SuccessfulMatchPair(RefOf('b'), RefOf('a'))
    ensures SourcesOf(RefOf('x')) == SourcesOf(RefOf('y')) == [RefOf('b'), RefOf('a')]
    ensures last.Ok? && !accepted
  {
    RecordsAreValid(PoolOf('z'));
    first, stored := RunFirst();
    last, accepted := RunLast();
  }
}
