/** Deepest-success selection and lineage exclusions (chaining/lineage.py). */
module Retention {
  import opened Basics
  import opened Refs
  import opened Ordering
  import opened Reachability
  import opened Lineage

  datatype SuccessfulMatchPair = SuccessfulMatchPair(upstream: StoredDataRef, downstream: StoredDataRef)

  datatype LineageExclusion = LineageExclusion(excluded: StoredDataRef, excludedBy: StoredDataRef)

  datatype ChainingError =
    | LineageFault(fault: LineageError)
    | LineageDuplicate
    | LineageInputMismatch
    | PairsNotOrderable
    | SuccessfulCandidateExcluded

  function Candidate(pair: SuccessfulMatchPair, trigger: StoredDataRef): StoredDataRef {
    if pair.upstream == trigger then pair.downstream else pair.upstream
  }

  // ---------------------------------------------------------------- ranking

  // The comparison key of the sort: deepest first, then record ids.
  datatype Rank = Rank(depth: nat, candidateId: string, upstreamId: string, downstreamId: string)

  predicate RankLeq(a: Rank, b: Rank) {
    if a.depth != b.depth then a.depth > b.depth
    else if a.candidateId != b.candidateId then StringLeq(a.candidateId, b.candidateId)
    else if a.upstreamId != b.upstreamId then StringLeq(a.upstreamId, b.upstreamId)
    else StringLeq(a.downstreamId, b.downstreamId)
  }

  predicate RankLess(a: Rank, b: Rank) {
    a != b && RankLeq(a, b)
  }

  // The same order, spelled out: more ancestors, or as many and the smaller ids.
  ghost predicate RanksAhead(a: Rank, b: Rank) {
    || a.depth > b.depth
    || (a.depth == b.depth && Precedes(a.candidateId, b.candidateId))
    || (a.depth == b.depth && a.candidateId == b.candidateId && Precedes(a.upstreamId, b.upstreamId))
    || (a.depth == b.depth && a.candidateId == b.candidateId && a.upstreamId == b.upstreamId
        && Precedes(a.downstreamId, b.downstreamId))
  }

  lemma RankLessIsAhead(a: Rank, b: Rank)
    ensures RankLess(a, b) <==> RanksAhead(a, b)
  {
    LessPrecedes(a.candidateId, b.candidateId);
    LessPrecedes(a.upstreamId, b.upstreamId);
    LessPrecedes(a.downstreamId, b.downstreamId);
  }

  lemma RankOrder(a: Rank, b: Rank, c: Rank)
    ensures RankLeq(a, b) || RankLeq(b, a)
    ensures RankLeq(a, b) && RankLeq(b, a) ==> a == b
    ensures RankLeq(a, b) && RankLeq(b, c) ==> RankLeq(a, c)
  {
    IdOrder(a.candidateId, b.candidateId, c.candidateId);
    IdOrder(a.upstreamId, b.upstreamId, c.upstreamId);
    IdOrder(a.downstreamId, b.downstreamId, c.downstreamId);
  }

  lemma {:induction false} IdOrder(a: string, b: string, c: string)
    ensures StringLeq(a, b) || StringLeq(b, a)
    ensures StringLeq(a, b) && StringLeq(b, a) ==> a == b
    ensures StringLeq(a, b) && StringLeq(b, c) ==> StringLeq(a, c)
    ensures StringLeq(b, c) && StringLeq(c, b) ==> b == c
  {
    StringLeqTotal(a, b);
    if StringLeq(a, b) && StringLeq(b, a) {
      StringLeqAntisymmetric(a, b);
    }
    if StringLeq(a, b) && StringLeq(b, c) {
      StringLeqTransitive(a, b, c);
    }
    if StringLeq(b, c) && StringLeq(c, b) {
      StringLeqAntisymmetric(b, c);
    }
  }

  lemma RankLessOrder(a: Rank, b: Rank, c: Rank)
    ensures RankLess(a, b) && RankLess(b, c) ==> RankLess(a, c)
    ensures a == b || RankLess(a, b) || RankLess(b, a)
    ensures !(RankLess(a, b) && RankLess(b, a))
  {
    RankOrder(a, b, c);
    RankOrder(b, a, c);
    RankOrder(b, c, a);
  }

  lemma AheadIsStrict(a: Rank, b: Rank, c: Rank)
    ensures RanksAhead(a, b) && RanksAhead(b, c) ==> RanksAhead(a, c)
    ensures !RanksAhead(a, a)
  {
    RankLessIsAhead(a, b);
    RankLessIsAhead(b, c);
    RankLessIsAhead(a, c);
    RankLessIsAhead(a, a);
    RankLessOrder(a, b, c);
  }

  datatype Ranked<T> = Ranked(rank: Rank, item: T)

  function RankedLeq<T>(): (Ranked<T>, Ranked<T>) -> bool {
    (a: Ranked<T>, b: Ranked<T>) => RankLeq(a.rank, b.rank)
  }

  lemma RankedOrderIsTotal<T(!new)>()
    ensures TotalPreorder(RankedLeq<T>())
  {
    var leq := RankedLeq<T>();
    forall x: Ranked<T>, y: Ranked<T> ensures leq(x, y) || leq(y, x) {
      RankOrder(x.rank, y.rank, y.rank);
    }
    forall x: Ranked<T>, y: Ranked<T>, z: Ranked<T> | leq(x, y) && leq(y, z) ensures leq(x, z) {
      RankOrder(x.rank, y.rank, z.rank);
    }
  }

  lemma {:induction false} SortedByRank<T(!new)>(ranked: seq<Ranked<T>>, sorted: seq<Ranked<T>>)
    requires sorted == Sort(RankedLeq<T>(), ranked)
    ensures |sorted| == |ranked|
    ensures forall i, j :: 0 <= i < j < |sorted| ==> RankLeq(sorted[i].rank, sorted[j].rank)
    ensures forall k :: 0 <= k < |sorted| ==> sorted[k] in ranked
    ensures forall k :: 0 <= k < |ranked| ==> ranked[k] in sorted
    ensures NoDuplicates(ranked) ==> NoDuplicates(sorted)
  {
    RankedOrderIsTotal<T>();
    SortSorts(RankedLeq<T>(), ranked);
    SortKeepsElements(RankedLeq<T>(), ranked);
    SortPermutes(RankedLeq<T>(), ranked);
    forall i, j | 0 <= i < j < |sorted| ensures RankLeq(sorted[i].rank, sorted[j].rank) {
      assert RankedLeq<T>()(sorted[i], sorted[j]);
    }
    forall k | 0 <= k < |sorted| ensures sorted[k] in ranked {
      assert sorted[k] in sorted;
    }
    forall k | 0 <= k < |ranked| ensures ranked[k] in sorted {
      assert ranked[k] in ranked;
    }
  }

  function IdOf(ref: StoredDataRef): string {
    if ref.recordId.Some? then ref.recordId.value else ""
  }

  ghost function Depth(resolve: Resolver, ref: StoredDataRef): nat {
    |AncestorSet(resolve, ref)|
  }

  // ----------------------------------------------------- deepest first order

  ghost function DepthRank(resolve: Resolver, ref: StoredDataRef): Rank {
    Rank(Depth(resolve, ref), IdOf(ref), "", "")
  }

  ghost predicate DeepestFirst(resolve: Resolver, refs: seq<StoredDataRef>) {
    forall i, j :: 0 <= i < j < |refs| ==>
      DepthRank(resolve, refs[i]) == DepthRank(resolve, refs[j])
      || RanksAhead(DepthRank(resolve, refs[i]), DepthRank(resolve, refs[j]))
  }

  // The references with this depth and record id, in their order.
  ghost function Level(resolve: Resolver, refs: seq<StoredDataRef>, rank: Rank): seq<StoredDataRef> {
    if refs == [] then []
    else (if DepthRank(resolve, refs[0]) == rank then [refs[0]] else []) + Level(resolve, refs[1..], rank)
  }

  // The first reference whose lineage fails decides what is raised.
  ghost predicate FirstLineageFault(refs: seq<StoredDataRef>, resolve: Resolver, analysisId: string,
                                    error: ChainingError, i: nat) {
    && i < |refs| && (forall k :: 0 <= k < i ==> LineageDefined(resolve, analysisId, refs[k]))
    && error.LineageFault? && IsLineageFault(resolve, analysisId, refs[i], error.fault)
  }

  method OrderDeepestFirst(refs: seq<StoredDataRef>, resolve: Resolver, analysisId: string)
    returns (r: Result<seq<StoredDataRef>, ChainingError>)
    ensures r.Ok? <==> NoDuplicates(refs) && forall ref :: ref in refs ==> LineageDefined(resolve, analysisId, ref)
    ensures r.Ok? ==> NoDuplicates(r.value) && |r.value| == |refs| && DeepestFirst(resolve, r.value)
    ensures r.Ok? ==> forall ref :: ref in r.value <==> ref in refs
    ensures r.Ok? ==> forall rank :: Level(resolve, r.value, rank) == Level(resolve, refs, rank)
    ensures !NoDuplicates(refs) <==> r == Err(LineageDuplicate)
    ensures r.Err? && NoDuplicates(refs) ==>
      exists i: nat :: FirstLineageFault(refs, resolve, analysisId, r.error, i)
  {
    if !NoDuplicates(refs) {
      return Err(LineageDuplicate);
    }
    var ranked: seq<Ranked<StoredDataRef>> := [];
    for i := 0 to |refs|
      invariant |ranked| == i
      invariant forall k :: 0 <= k < i ==> LineageDefined(resolve, analysisId, refs[k])
      invariant forall k :: 0 <= k < i ==> ranked[k] == Ranked(DepthRank(resolve, refs[k]), refs[k])
    {
      var line := LineageOf(refs[i], resolve, analysisId);
      if line.Err? {
        assert FirstLineageFault(refs, resolve, analysisId, LineageFault(line.error), i);
        return Err(LineageFault(line.error));
      }
      ranked := ranked + [Ranked(Rank(line.value.depth, IdOf(refs[i]), "", ""), refs[i])];
    }
    assert forall k :: 0 <= k < |ranked| ==> ranked[k].item == refs[k];
    var sorted := Sort(RankedLeq<StoredDataRef>(), ranked);
    SortedByRank(ranked, sorted);
    var result := seq(|sorted|, k requires 0 <= k < |sorted| => sorted[k].item);
    forall k | 0 <= k < |sorted| ensures sorted[k] == Ranked(DepthRank(resolve, result[k]), result[k]) {
      assert sorted[k] in ranked;
    }
    SortedRefs(resolve, refs, ranked, result, sorted);
    return Ok(result);
  }

  ghost predicate RanksRefs(resolve: Resolver, refs: seq<StoredDataRef>, ranked: seq<Ranked<StoredDataRef>>) {
    && |ranked| == |refs|
    && forall k :: 0 <= k < |refs| ==> ranked[k] == Ranked(DepthRank(resolve, refs[k]), refs[k])
  }

  // The sort keeps the order of references that it does not tell apart.
  lemma {:induction false} LevelIsStable(resolve: Resolver, refs: seq<StoredDataRef>,
                                         ranked: seq<Ranked<StoredDataRef>>, result: seq<StoredDataRef>,
                                         sorted: seq<Ranked<StoredDataRef>>, rank: Rank)
    requires RanksRefs(resolve, refs, ranked) && RanksRefs(resolve, result, sorted)
    requires sorted == Sort(RankedLeq<StoredDataRef>(), ranked)
    ensures Level(resolve, result, rank) == Level(resolve, refs, rank)
  {
    RankOrder(rank, rank, rank);
    SortIsStable(RankedLeq<StoredDataRef>(), ranked, (r: Ranked<StoredDataRef>) => r.rank == rank);
    LevelIsFilter(resolve, refs, ranked, rank);
    LevelIsFilter(resolve, result, sorted, rank);
  }

  lemma {:induction false} LevelIsFilter(resolve: Resolver, refs: seq<StoredDataRef>,
                                         ranked: seq<Ranked<StoredDataRef>>, rank: Rank)
    requires RanksRefs(resolve, refs, ranked)
    ensures Level(resolve, refs, rank) == Items(Filter((r: Ranked<StoredDataRef>) => r.rank == rank, ranked))
  {
    if refs != [] {
      LevelIsFilter(resolve, refs[1..], ranked[1..], rank);
    }
  }

  lemma {:induction false} SortedRefs(resolve: Resolver, refs: seq<StoredDataRef>, ranked: seq<Ranked<StoredDataRef>>,
                                      result: seq<StoredDataRef>, sorted: seq<Ranked<StoredDataRef>>)
    requires RanksRefs(resolve, refs, ranked) && RanksRefs(resolve, result, sorted)
    requires sorted == Sort(RankedLeq<StoredDataRef>(), ranked) && NoDuplicates(refs)
    ensures NoDuplicates(result) && |result| == |refs| && DeepestFirst(resolve, result)
    ensures forall ref :: ref in result <==> ref in refs
    ensures forall rank :: Level(resolve, result, rank) == Level(resolve, refs, rank)
  {
    SortedByRank(ranked, sorted);
    forall i, j | 0 <= i < j < |result|
      ensures DepthRank(resolve, result[i]) == DepthRank(resolve, result[j])
        || RanksAhead(DepthRank(resolve, result[i]), DepthRank(resolve, result[j]))
    {
      RankLessIsAhead(sorted[i].rank, sorted[j].rank);
    }
    forall rank ensures Level(resolve, result, rank) == Level(resolve, refs, rank) {
      LevelIsStable(resolve, refs, ranked, result, sorted, rank);
    }
    forall ref | ref in refs ensures ref in result {
      var k :| 0 <= k < |refs| && refs[k] == ref;
      assert ranked[k] in sorted;
      var m :| 0 <= m < |sorted| && sorted[m] == ranked[k];
      assert result[m] == ref;
    }
    forall k | 0 <= k < |result| ensures result[k] in refs {
      assert sorted[k] in ranked;
    }
  }

  // No reference is listed after one of its own ancestors.
  lemma DescendantsComeFirst(resolve: Resolver, analysisId: string, refs: seq<StoredDataRef>, i: nat, j: nat)
    requires i < |refs| && j < |refs| && DeepestFirst(resolve, refs)
    requires LineageDefined(resolve, analysisId, refs[i]) && refs[j] in AncestorSet(resolve, refs[i])
    ensures i < j
  {
    AncestorIsShallower(resolve, analysisId, refs[i], refs[j]);
  }

  // Among records of one depth the smaller record id comes first.
  lemma EqualDepthById(resolve: Resolver, refs: seq<StoredDataRef>, i: nat, j: nat)
    requires i < j < |refs| && DeepestFirst(resolve, refs)
    requires Depth(resolve, refs[i]) == Depth(resolve, refs[j])
    requires refs[i].recordId.Some? && refs[j].recordId.Some?
    ensures refs[i].recordId == refs[j].recordId || Precedes(refs[i].recordId.value, refs[j].recordId.value)
  {
    assert !Precedes("", "");
  }

  // ------------------------------------------------------------ specification

  ghost function RankOf(resolve: Resolver, trigger: StoredDataRef, pair: SuccessfulMatchPair): Rank {
    var candidate := Candidate(pair, trigger);
    Rank(Depth(resolve, candidate), IdOf(candidate), IdOf(pair.upstream), IdOf(pair.downstream))
  }

  ghost function RanksBefore(resolve: Resolver, trigger: StoredDataRef)
    : (SuccessfulMatchPair, SuccessfulMatchPair) -> bool
  {
    (p: SuccessfulMatchPair, q: SuccessfulMatchPair) =>
      RanksAhead(RankOf(resolve, trigger, p), RankOf(resolve, trigger, q))
  }

  // What the checks of one pair ask for, apart from its ancestors.
  ghost predicate Eligible(considered: seq<StoredDataRef>, trigger: StoredDataRef, resolve: Resolver,
                           analysisId: string, pair: SuccessfulMatchPair) {
    && pair.upstream != pair.downstream
    && (pair.upstream == trigger || pair.downstream == trigger)
    && pair.upstream in considered && pair.downstream in considered
    && LineageDefined(resolve, analysisId, Candidate(pair, trigger))
    && IsPrimitiveRecord(pair.upstream) && IsPrimitiveRecord(pair.downstream)
  }

  ghost predicate WellPinned(considered: seq<StoredDataRef>, trigger: StoredDataRef, resolve: Resolver,
                             pair: SuccessfulMatchPair) {
    AncestorSet(resolve, Candidate(pair, trigger)) <= Elements(considered) - {trigger}
  }

  // Two pairs with equal keys make the sort compare the pairs themselves, which have no order.
  ghost predicate Orderable(trigger: StoredDataRef, resolve: Resolver, pairs: seq<SuccessfulMatchPair>) {
    forall p, q :: p in pairs && q in pairs && RankOf(resolve, trigger, p) == RankOf(resolve, trigger, q) ==> p == q
  }

  ghost predicate RetentionSucceeds(considered: seq<StoredDataRef>, trigger: StoredDataRef,
                                    pairs: seq<SuccessfulMatchPair>, resolve: Resolver, analysisId: string) {
    && NoDuplicates(considered) && trigger in considered
    && NoDuplicates(pairs)
    && (forall p :: p in pairs ==> Eligible(considered, trigger, resolve, analysisId, p))
    && (forall p :: p in pairs ==> WellPinned(considered, trigger, resolve, p))
    && Orderable(trigger, resolve, pairs)
  }

  // The pair's candidate is not an ancestor of any successful candidate.
  ghost predicate Maximal(resolve: Resolver, trigger: StoredDataRef, pairs: seq<SuccessfulMatchPair>,
                          pair: SuccessfulMatchPair) {
    forall q :: q in pairs ==> Candidate(pair, trigger) !in AncestorSet(resolve, Candidate(q, trigger))
  }

  ghost predicate IsRetention(resolve: Resolver, trigger: StoredDataRef, pairs: seq<SuccessfulMatchPair>,
                              retained: seq<SuccessfulMatchPair>) {
    && SortedBy(RanksBefore(resolve, trigger), retained)
    && forall p :: p in retained <==> p in pairs && Maximal(resolve, trigger, pairs, p)
  }

  // ---------------------------------------------------------- what is reported

  // Why one pair cannot be ranked: its candidate's lineage, or a side that is no Primitive record.
  ghost predicate RankFault(trigger: StoredDataRef, resolve: Resolver, analysisId: string, pair: SuccessfulMatchPair,
                            fault: LineageError) {
    if !LineageDefined(resolve, analysisId, Candidate(pair, trigger)) then
      IsLineageFault(resolve, analysisId, Candidate(pair, trigger), fault)
    else if RecordRefFault(pair.upstream).Some? then RecordRefFault(pair.upstream) == Some(fault)
    else RecordRefFault(pair.downstream) == Some(fault)
  }

  // The pair does not belong to this trigger and universe, or has been listed before.
  ghost predicate Misplaced(considered: seq<StoredDataRef>, trigger: StoredDataRef, before: seq<SuccessfulMatchPair>,
                            pair: SuccessfulMatchPair) {
    || pair.upstream == pair.downstream
    || (pair.upstream != trigger && pair.downstream != trigger)
    || pair.upstream !in considered || pair.downstream !in considered
    || pair in before
  }

  // The first pair that fails decides what is raised.
  ghost predicate PairFaultAt(considered: seq<StoredDataRef>, trigger: StoredDataRef, pairs: seq<SuccessfulMatchPair>,
                              resolve: Resolver, analysisId: string, error: ChainingError, i: nat) {
    && i < |pairs| && NoDuplicates(pairs[..i])
    && (forall k :: 0 <= k < i ==> Eligible(considered, trigger, resolve, analysisId, pairs[k]))
    && if Misplaced(considered, trigger, pairs[..i], pairs[i]) then error == LineageInputMismatch
       else error.LineageFault? && RankFault(trigger, resolve, analysisId, pairs[i], error.fault)
  }

  ghost predicate AllEligible(considered: seq<StoredDataRef>, trigger: StoredDataRef, pairs: seq<SuccessfulMatchPair>,
                              resolve: Resolver, analysisId: string) {
    NoDuplicates(pairs) && forall p :: p in pairs ==> Eligible(considered, trigger, resolve, analysisId, p)
  }

  // What `retain_deepest_successful_matches` raises when it does not succeed.
  ghost predicate SelectionFault(considered: seq<StoredDataRef>, trigger: StoredDataRef,
                                 pairs: seq<SuccessfulMatchPair>, resolve: Resolver, analysisId: string,
                                 error: ChainingError) {
    if !NoDuplicates(considered) || trigger !in considered then error == LineageInputMismatch
    else if !AllEligible(considered, trigger, pairs, resolve, analysisId) then
      exists i: nat :: PairFaultAt(considered, trigger, pairs, resolve, analysisId, error, i)
    else if !Orderable(trigger, resolve, pairs) then error == PairsNotOrderable
    else error == LineageInputMismatch && exists p :: p in pairs && !WellPinned(considered, trigger, resolve, p)
  }

  // ---------------------------------------------------------------- the loops

  // The lineage, the depth and the sort key of one pair.
  method RankPair(trigger: StoredDataRef, pair: SuccessfulMatchPair, resolve: Resolver, analysisId: string)
    returns (r: Result<Ranked<SuccessfulMatchPair>, ChainingError>)
    ensures r.Ok? <==>
      LineageDefined(resolve, analysisId, Candidate(pair, trigger))
      && IsPrimitiveRecord(pair.upstream) && IsPrimitiveRecord(pair.downstream)
    ensures r.Ok? ==> r.value == Ranked(RankOf(resolve, trigger, pair), pair)
    ensures r.Err? ==> r.error.LineageFault? && RankFault(trigger, resolve, analysisId, pair, r.error.fault)
  {
    var candidate := Candidate(pair, trigger);
    var line := LineageOf(candidate, resolve, analysisId);
    if line.Err? {
      return Err(LineageFault(line.error));
    }
    var invalid := RequireRecordRef(pair.upstream);
    if invalid.None? {
      invalid := RequireRecordRef(pair.downstream);
    }
    if invalid.Some? {
      return Err(LineageFault(invalid.value));
    }
    return Ok(Ranked(Rank(line.value.depth, IdOf(candidate), IdOf(pair.upstream), IdOf(pair.downstream)), pair));
  }

  ghost predicate IsRanked(considered: seq<StoredDataRef>, trigger: StoredDataRef, resolve: Resolver,
                           analysisId: string, pair: SuccessfulMatchPair, entry: Ranked<SuccessfulMatchPair>) {
    Eligible(considered, trigger, resolve, analysisId, pair) && entry == Ranked(RankOf(resolve, trigger, pair), pair)
  }

  // The pairs so far are eligible and ranked in their order.
  ghost predicate RankedSoFar(considered: seq<StoredDataRef>, trigger: StoredDataRef, pairs: seq<SuccessfulMatchPair>,
                              resolve: Resolver, analysisId: string, ranked: seq<Ranked<SuccessfulMatchPair>>) {
    |ranked| <= |pairs|
    && forall k :: 0 <= k < |ranked| ==> IsRanked(considered, trigger, resolve, analysisId, pairs[k], ranked[k])
  }

  lemma RankOneMore(considered: seq<StoredDataRef>, trigger: StoredDataRef, pairs: seq<SuccessfulMatchPair>,
                    resolve: Resolver, analysisId: string, ranked: seq<Ranked<SuccessfulMatchPair>>,
                    next: Ranked<SuccessfulMatchPair>)
    requires RankedSoFar(considered, trigger, pairs, resolve, analysisId, ranked) && |ranked| < |pairs|
    requires IsRanked(considered, trigger, resolve, analysisId, pairs[|ranked|], next)
    ensures RankedSoFar(considered, trigger, pairs, resolve, analysisId, ranked + [next])
  {
    PointwiseGrows(pairs, ranked, next,
                   (pair, entry) => IsRanked(considered, trigger, resolve, analysisId, pair, entry));
  }

  lemma MisplacedIsNotEligible(considered: seq<StoredDataRef>, trigger: StoredDataRef, pairs: seq<SuccessfulMatchPair>,
                               resolve: Resolver, analysisId: string, i: nat)
    requires i < |pairs| && Misplaced(considered, trigger, pairs[..i], pairs[i])
    ensures !AllEligible(considered, trigger, pairs, resolve, analysisId)
  {
    if pairs[i] in pairs[..i] {
      var k :| 0 <= k < i && pairs[..i][k] == pairs[i];
      assert pairs[k] == pairs[i];
    } else {
      assert !Eligible(considered, trigger, resolve, analysisId, pairs[i]) && pairs[i] in pairs;
    }
  }

  method RankPairs(considered: seq<StoredDataRef>, trigger: StoredDataRef, pairs: seq<SuccessfulMatchPair>,
                   resolve: Resolver, analysisId: string)
    returns (r: Result<seq<Ranked<SuccessfulMatchPair>>, ChainingError>)
    ensures r.Ok? <==> AllEligible(considered, trigger, pairs, resolve, analysisId)
    ensures r.Ok? ==> RanksPairs(resolve, trigger, pairs, r.value)
    ensures r.Err? ==> exists i: nat :: PairFaultAt(considered, trigger, pairs, resolve, analysisId, r.error, i)
  {
    var ranked: seq<Ranked<SuccessfulMatchPair>> := [];
    var seenPairs: set<SuccessfulMatchPair> := {};
    for i := 0 to |pairs|
      invariant |ranked| == i && seenPairs == Elements(pairs[..i]) && NoDuplicates(pairs[..i])
      invariant RankedSoFar(considered, trigger, pairs, resolve, analysisId, ranked)
    {
      var pair := pairs[i];
      if pair.upstream == pair.downstream
         || (pair.upstream != trigger && pair.downstream != trigger)
         || pair.upstream !in considered || pair.downstream !in considered
         || pair in seenPairs
      {
        assert PairFaultAt(considered, trigger, pairs, resolve, analysisId, LineageInputMismatch, i);
        MisplacedIsNotEligible(considered, trigger, pairs, resolve, analysisId, i);
        return Err(LineageInputMismatch);
      }
      seenPairs := seenPairs + {pair};
      ElementsStep(pairs, i);
      NoDuplicatesStep(pairs, i);
      var entry := RankPair(trigger, pair, resolve, analysisId);
      if entry.Err? {
        assert PairFaultAt(considered, trigger, pairs, resolve, analysisId, entry.error, i);
        assert !Eligible(considered, trigger, resolve, analysisId, pairs[i]);
        return Err(entry.error);
      }
      RankOneMore(considered, trigger, pairs, resolve, analysisId, ranked, entry.value);
      ranked := ranked + [entry.value];
    }
    assert pairs[..|pairs|] == pairs;
    forall p | p in pairs ensures exists k :: 0 <= k < |ranked| && ranked[k].item == p {
      var k :| 0 <= k < |pairs| && pairs[k] == p;
      assert ranked[k].item == p;
    }
    return Ok(ranked);
  }

  ghost predicate RanksPairs(resolve: Resolver, trigger: StoredDataRef, pairs: seq<SuccessfulMatchPair>,
                             ranked: seq<Ranked<SuccessfulMatchPair>>) {
    && NoDuplicates(ranked)
    && (forall k :: 0 <= k < |ranked| ==>
      ranked[k].rank == RankOf(resolve, trigger, ranked[k].item) && ranked[k].item in pairs)
    && forall p :: p in pairs ==> exists k :: 0 <= k < |ranked| && ranked[k].item == p
  }

  lemma {:induction false} SortKeepsRanksPairs(resolve: Resolver, trigger: StoredDataRef,
                                               pairs: seq<SuccessfulMatchPair>,
                                               ranked: seq<Ranked<SuccessfulMatchPair>>,
                                               sorted: seq<Ranked<SuccessfulMatchPair>>)
    requires RanksPairs(resolve, trigger, pairs, ranked)
    requires sorted == Sort(RankedLeq<SuccessfulMatchPair>(), ranked)
    ensures RanksPairs(resolve, trigger, pairs, sorted)
  {
    SortedByRank(ranked, sorted);
    forall p | p in pairs ensures exists m :: 0 <= m < |sorted| && sorted[m].item == p {
      var k :| 0 <= k < |ranked| && ranked[k].item == p;
      assert ranked[k] in sorted;
      var m :| 0 <= m < |sorted| && sorted[m] == ranked[k];
    }
  }

  // `sorted(ranked)`: fails when two entries tie on the whole key.
  method SortRanked(ghost resolve: Resolver, ghost trigger: StoredDataRef, ghost pairs: seq<SuccessfulMatchPair>,
                    ranked: seq<Ranked<SuccessfulMatchPair>>)
    returns (r: Result<seq<SuccessfulMatchPair>, ChainingError>)
    requires RanksPairs(resolve, trigger, pairs, ranked)
    ensures r.Ok? <==> Orderable(trigger, resolve, pairs)
    ensures r.Ok? ==> SortedBy(RanksBefore(resolve, trigger), r.value)
    ensures r.Ok? ==> forall p :: p in r.value <==> p in pairs
    ensures r.Err? ==> r.error == PairsNotOrderable
  {
    var sorted := Sort(RankedLeq<SuccessfulMatchPair>(), ranked);
    SortedByRank(ranked, sorted);
    SortKeepsRanksPairs(resolve, trigger, pairs, ranked, sorted);
    var tied := HasTies(sorted);
    if tied {
      return Err(PairsNotOrderable);
    }
    StrictRanksAreOrderable(resolve, trigger, pairs, sorted);
    return Ok(Items(sorted));
  }

  ghost predicate StrictlyRanked<T>(sorted: seq<Ranked<T>>) {
    forall j, k :: 0 <= j < k < |sorted| ==> RankLess(sorted[j].rank, sorted[k].rank)
  }

  function Items<T>(ranked: seq<Ranked<T>>): seq<T> {
    seq(|ranked|, k requires 0 <= k < |ranked| => ranked[k].item)
  }

  // Only neighbours can tie first, so comparing neighbours finds every tie.
  method HasTies<T>(sorted: seq<Ranked<T>>) returns (tied: bool)
    requires forall i, j :: 0 <= i < j < |sorted| ==> RankLeq(sorted[i].rank, sorted[j].rank)
    ensures !tied <==> StrictlyRanked(sorted)
  {
    if sorted == [] {
      return false;
    }
    for i := 1 to |sorted|
      invariant StrictlyRanked(sorted[..i])
    {
      if sorted[i - 1].rank == sorted[i].rank {
        assert !RankLess(sorted[i - 1].rank, sorted[i].rank);
        return true;
      }
      forall j | 0 <= j < i ensures RankLess(sorted[j].rank, sorted[i].rank) {
        assert j < i - 1 ==> RankLess(sorted[..i][j].rank, sorted[..i][i - 1].rank);
        RankLessOrder(sorted[j].rank, sorted[i - 1].rank, sorted[i].rank);
      }
      assert sorted[..i + 1] == sorted[..i] + [sorted[i]];
    }
    assert sorted[..|sorted|] == sorted;
    return false;
  }

  lemma StrictRanksAreOrderable(resolve: Resolver, trigger: StoredDataRef, pairs: seq<SuccessfulMatchPair>,
                                sorted: seq<Ranked<SuccessfulMatchPair>>)
    requires RanksPairs(resolve, trigger, pairs, sorted)
    requires StrictlyRanked(sorted)
    ensures Orderable(trigger, resolve, pairs)
    ensures SortedBy(RanksBefore(resolve, trigger), Items(sorted))
    ensures forall p :: p in Items(sorted) <==> p in pairs
  {
    forall p | p in pairs ensures p in Items(sorted) {
      var m :| 0 <= m < |sorted| && sorted[m].item == p;
      assert Items(sorted)[m] == p;
    }
    forall i, j | 0 <= i < j < |sorted| ensures RanksBefore(resolve, trigger)(Items(sorted)[i], Items(sorted)[j]) {
      RankLessIsAhead(sorted[i].rank, sorted[j].rank);
    }
    forall p, q | p in pairs && q in pairs && RankOf(resolve, trigger, p) == RankOf(resolve, trigger, q)
      ensures p == q
    {
      var m :| 0 <= m < |sorted| && sorted[m].item == p;
      var n :| 0 <= n < |sorted| && sorted[n].item == q;
      assert m == n;
    }
  }

  // ------------------------------------------------------------- greedy choice

  ghost predicate CoversRetained(resolve: Resolver, trigger: StoredDataRef, retained: seq<SuccessfulMatchPair>,
                                 excluded: set<StoredDataRef>) {
    && (forall p :: p in retained ==> AncestorSet(resolve, Candidate(p, trigger)) <= excluded)
    && (forall x :: x in excluded ==> exists p :: p in retained && x in AncestorSet(resolve, Candidate(p, trigger)))
  }

  // The step of the greedy argument: everything ranked before position `i` has been
  // decided as `Maximal` says, so the exclusion set decides position `i` the same way.
  lemma GreedyDecides(resolve: Resolver, analysisId: string, trigger: StoredDataRef, order: seq<SuccessfulMatchPair>,
                      i: nat, retained: seq<SuccessfulMatchPair>, excluded: set<StoredDataRef>)
    requires i < |order| && SortedBy(RanksBefore(resolve, trigger), order)
    requires forall p :: p in order ==> LineageDefined(resolve, analysisId, Candidate(p, trigger))
    requires forall p :: p in retained <==> p in order[..i] && Maximal(resolve, trigger, order, p)
    requires CoversRetained(resolve, trigger, retained, excluded)
    ensures Candidate(order[i], trigger) in excluded <==> !Maximal(resolve, trigger, order, order[i])
  {
    var x := Candidate(order[i], trigger);
    if !Maximal(resolve, trigger, order, order[i]) {
      var q := DeepestDescendant(resolve, analysisId, trigger, order, x);
      var k :| 0 <= k < |order| && order[k] == q;
      if k == i {
        AncestorSetIsComplete(resolve, analysisId, x);
        assert false;
      }
      if i < k {
        assert RanksBefore(resolve, trigger)(order[i], order[k]);
        AncestorIsShallower(resolve, analysisId, Candidate(q, trigger), x);
        assert false;
      }
      assert order[..i][k] == q;
    }
  }

  // Among the candidates that descend from `x`, one descends from no other candidate.
  lemma DeepestDescendant(resolve: Resolver, analysisId: string, trigger: StoredDataRef,
                          pairs: seq<SuccessfulMatchPair>, x: StoredDataRef)
    returns (q: SuccessfulMatchPair)
    requires forall p :: p in pairs ==> LineageDefined(resolve, analysisId, Candidate(p, trigger))
    requires exists p :: p in pairs && x in AncestorSet(resolve, Candidate(p, trigger))
    ensures q in pairs && x in AncestorSet(resolve, Candidate(q, trigger))
    ensures Maximal(resolve, trigger, pairs, q)
  {
    q :| q in pairs && x in AncestorSet(resolve, Candidate(q, trigger));
    while !Maximal(resolve, trigger, pairs, q)
      invariant q in pairs && x in AncestorSet(resolve, Candidate(q, trigger))
      decreases resolve.Keys - AncestorSet(resolve, Candidate(q, trigger))
    {
      var above :| above in pairs && Candidate(q, trigger) in AncestorSet(resolve, Candidate(above, trigger));
      AncestorIsShallower(resolve, analysisId, Candidate(above, trigger), Candidate(q, trigger));
      q := above;
    }
  }

  // A skipped candidate is an ancestor of a retained one, so its ancestors were checked there.
  lemma SkippedIsWellPinned(considered: seq<StoredDataRef>, trigger: StoredDataRef, resolve: Resolver,
                            analysisId: string, retained: seq<SuccessfulMatchPair>, excluded: set<StoredDataRef>,
                            pair: SuccessfulMatchPair)
    requires CoversRetained(resolve, trigger, retained, excluded) && Candidate(pair, trigger) in excluded
    requires forall p :: p in retained ==>
      LineageDefined(resolve, analysisId, Candidate(p, trigger)) && WellPinned(considered, trigger, resolve, p)
    ensures WellPinned(considered, trigger, resolve, pair)
  {
    var q :| q in retained && Candidate(pair, trigger) in AncestorSet(resolve, Candidate(q, trigger));
    AncestorIsShallower(resolve, analysisId, Candidate(q, trigger), Candidate(pair, trigger));
  }

  lemma KeptExtendsCover(resolve: Resolver, trigger: StoredDataRef, retained: seq<SuccessfulMatchPair>,
                         excluded: set<StoredDataRef>, pair: SuccessfulMatchPair)
    requires CoversRetained(resolve, trigger, retained, excluded)
    ensures CoversRetained(resolve, trigger, retained + [pair],
                           excluded + AncestorSet(resolve, Candidate(pair, trigger)))
  {
    var more := excluded + AncestorSet(resolve, Candidate(pair, trigger));
    forall x | x in more
      ensures exists p :: p in retained + [pair] && x in AncestorSet(resolve, Candidate(p, trigger))
    {
      if x in excluded {
        var p :| p in retained && x in AncestorSet(resolve, Candidate(p, trigger));
        assert p in retained + [pair];
      } else {
        assert pair in retained + [pair];
      }
    }
  }

  // Adds the ancestors of a retained candidate to the exclusion set.
  method ExcludeAncestors(considered: seq<StoredDataRef>, trigger: StoredDataRef, candidate: StoredDataRef,
                          excluded: set<StoredDataRef>, resolve: Resolver, analysisId: string)
    returns (r: Result<set<StoredDataRef>, ChainingError>)
    requires LineageDefined(resolve, analysisId, candidate)
    ensures r.Ok? <==> AncestorSet(resolve, candidate) <= Elements(considered) - {trigger}
    ensures r.Ok? ==> r.value == excluded + AncestorSet(resolve, candidate)
    ensures r.Err? ==> r.error == LineageInputMismatch
  {
    var line := LineageOf(candidate, resolve, analysisId);
    if line.Err? {
      assert false;
    }
    var ancestors := line.value.ancestors;
    var more := excluded;
    for j := 0 to |ancestors|
      invariant more == excluded + Elements(ancestors[..j])
      invariant Elements(ancestors[..j]) <= Elements(considered) - {trigger}
    {
      if ancestors[j] !in considered || ancestors[j] == trigger {
        assert ancestors[j] in Elements(ancestors);
        return Err(LineageInputMismatch);
      }
      more := more + {ancestors[j]};
      ElementsStep(ancestors, j);
    }
    assert ancestors[..|ancestors|] == ancestors;
    return Ok(more);
  }

  method RetainDeepestSuccessfulMatches(considered: seq<StoredDataRef>, trigger: StoredDataRef,
                                        pairs: seq<SuccessfulMatchPair>, resolve: Resolver, analysisId: string)
    returns (r: Result<seq<SuccessfulMatchPair>, ChainingError>)
    ensures r.Ok? <==> RetentionSucceeds(considered, trigger, pairs, resolve, analysisId)
    ensures r.Ok? ==> IsRetention(resolve, trigger, pairs, r.value)
    ensures r.Err? ==> SelectionFault(considered, trigger, pairs, resolve, analysisId, r.error)
  {
    if !NoDuplicates(considered) || trigger !in considered {
      return Err(LineageInputMismatch);
    }
    var ranked := RankPairs(considered, trigger, pairs, resolve, analysisId);
    if ranked.Err? {
      return Err(ranked.error);
    }
    var sorted := SortRanked(resolve, trigger, pairs, ranked.value);
    if sorted.Err? {
      return Err(sorted.error);
    }
    var chosen := ChooseGreedily(considered, trigger, pairs, sorted.value, resolve, analysisId);
    return chosen;
  }

  method ChooseGreedily(considered: seq<StoredDataRef>, trigger: StoredDataRef, ghost pairs: seq<SuccessfulMatchPair>,
                        order: seq<SuccessfulMatchPair>, resolve: Resolver, analysisId: string)
    returns (r: Result<seq<SuccessfulMatchPair>, ChainingError>)
    requires SortedBy(RanksBefore(resolve, trigger), order)
    requires forall p :: p in order <==> p in pairs
    requires forall p :: p in pairs ==> LineageDefined(resolve, analysisId, Candidate(p, trigger))
    ensures r.Ok? <==> forall p :: p in pairs ==> WellPinned(considered, trigger, resolve, p)
    ensures r.Ok? ==> IsRetention(resolve, trigger, pairs, r.value)
    ensures r.Err? ==> r.error == LineageInputMismatch
  {
    var excluded: set<StoredDataRef> := {};
    var retained: seq<SuccessfulMatchPair> := [];
    for i := 0 to |order|
      invariant SortedBy(RanksBefore(resolve, trigger), retained)
      invariant forall p :: p in retained <==> p in order[..i] && Maximal(resolve, trigger, order, p)
      invariant CoversRetained(resolve, trigger, retained, excluded)
      invariant forall p :: p in order[..i] ==> WellPinned(considered, trigger, resolve, p)
    {
      var pair := order[i];
      assert order[..i + 1] == order[..i] + [pair];
      GreedyDecides(resolve, analysisId, trigger, order, i, retained, excluded);
      var candidate := Candidate(pair, trigger);
      if candidate in excluded {
        SkippedIsWellPinned(considered, trigger, resolve, analysisId, retained, excluded, pair);
      } else {
        var more := ExcludeAncestors(considered, trigger, candidate, excluded, resolve, analysisId);
        if more.Err? {
          assert !WellPinned(considered, trigger, resolve, pair);
          return Err(more.error);
        }
        KeptExtendsCover(resolve, trigger, retained, excluded, pair);
        SortedExtends(resolve, trigger, order, i, retained);
        excluded := more.value;
        retained := retained + [pair];
      }
    }
    assert order[..|order|] == order;
    return Ok(retained);
  }

  lemma SortedExtends(resolve: Resolver, trigger: StoredDataRef, order: seq<SuccessfulMatchPair>, i: nat,
                      retained: seq<SuccessfulMatchPair>)
    requires i < |order| && SortedBy(RanksBefore(resolve, trigger), order)
    requires SortedBy(RanksBefore(resolve, trigger), retained)
    requires forall p :: p in retained ==> p in order[..i]
    ensures SortedBy(RanksBefore(resolve, trigger), retained + [order[i]])
  {
    forall k | 0 <= k < |retained| ensures RanksBefore(resolve, trigger)(retained[k], order[i]) {
      assert retained[k] in order[..i];
      var m :| 0 <= m < i && order[..i][m] == retained[k];
      assert RanksBefore(resolve, trigger)(order[m], order[i]);
    }
  }

  // Of two retained pairs with equally deep candidates the first has the smaller candidate id, then
  // the smaller upstream id, then the smaller downstream id.
  lemma RetainedById(resolve: Resolver, trigger: StoredDataRef, pairs: seq<SuccessfulMatchPair>,
                     retained: seq<SuccessfulMatchPair>, i: nat, j: nat)
    requires IsRetention(resolve, trigger, pairs, retained) && i < j < |retained|
    requires IsPrimitiveRecord(retained[i].upstream) && IsPrimitiveRecord(retained[i].downstream)
    requires IsPrimitiveRecord(retained[j].upstream) && IsPrimitiveRecord(retained[j].downstream)
    ensures var p, q := retained[i], retained[j];
      var x, y := Candidate(p, trigger), Candidate(q, trigger);
      Depth(resolve, x) >= Depth(resolve, y) &&
      (Depth(resolve, x) == Depth(resolve, y) ==>
         || Precedes(x.recordId.value, y.recordId.value)
         || (x.recordId == y.recordId && Precedes(p.upstream.recordId.value, q.upstream.recordId.value))
         || (x.recordId == y.recordId && p.upstream.recordId == q.upstream.recordId
             && Precedes(p.downstream.recordId.value, q.downstream.recordId.value)))
  {
    assert RanksBefore(resolve, trigger)(retained[i], retained[j]);
  }

  // Two root Primitives with the ids a and b are listed in this order, whatever the input order was.
  lemma RootsInIdOrder(resolve: Resolver, analysisId: string, x: StoredDataRef, y: StoredDataRef,
                       refs: seq<StoredDataRef>)
    requires IsRoot(resolve, analysisId, x) && IsRoot(resolve, analysisId, y)
    requires x.recordId == Some("a") && y.recordId == Some("b")
    requires NoDuplicates(refs) && DeepestFirst(resolve, refs) && forall ref :: ref in refs <==> ref == x || ref == y
    ensures refs == [x, y]
  {
    RootHasNoAncestors(resolve, analysisId, x);
    RootHasNoAncestors(resolve, analysisId, y);
    assert x in refs && y in refs;
    var i :| 0 <= i < |refs| && refs[i] == x;
    var j :| 0 <= j < |refs| && refs[j] == y;
    assert x != y && Elements(refs) == {x, y};
    ElementsCardinality(refs);
    LettersInOrder();
    if j < i {
      EqualDepthById(resolve, refs, j, i);
    }
  }

  // ---------------------------------------------------------------- when ties occur

  ghost predicate DistinctIds(refs: seq<StoredDataRef>) {
    forall a, b :: a in refs && b in refs && a.recordId == b.recordId ==> a == b
  }

  // With one reference for each record id no two pairs tie.
  lemma DistinctIdsAreOrderable(considered: seq<StoredDataRef>, trigger: StoredDataRef, pairs: seq<SuccessfulMatchPair>,
                                resolve: Resolver, analysisId: string)
    requires DistinctIds(considered) && AllEligible(considered, trigger, pairs, resolve, analysisId)
    ensures Orderable(trigger, resolve, pairs)
  {
    forall p, q | p in pairs && q in pairs && RankOf(resolve, trigger, p) == RankOf(resolve, trigger, q)
      ensures p == q
    {
      assert Eligible(considered, trigger, resolve, analysisId, p);
      assert Eligible(considered, trigger, resolve, analysisId, q);
    }
  }

  // A committed Primitive without parents.
  ghost predicate IsRoot(resolve: Resolver, analysisId: string, ref: StoredDataRef) {
    && IsPrimitiveRecord(ref) && ref in resolve
    && resolve[ref] == Ok(LineageNode(ref, [], analysisId, ref.workspaceId, ref.commitId, true))
  }

  lemma RootHasNoAncestors(resolve: Resolver, analysisId: string, ref: StoredDataRef)
    requires IsRoot(resolve, analysisId, ref)
    ensures LineageDefined(resolve, analysisId, ref) && AncestorSet(resolve, ref) == {}
  {
    forall y | Reaches(ParentsOf(resolve), ref, y) ensures y == ref {
      ReachesCases(ParentsOf(resolve), ref, y);
    }
  }

  // Two root Primitives under one record id: each pair passes every check of its own, and the
  // selection still raises.
  lemma SharedIdRaises(considered: seq<StoredDataRef>, t: StoredDataRef, x: StoredDataRef, y: StoredDataRef,
                       resolve: Resolver, analysisId: string)
    requires NoDuplicates(considered) && t in considered && x in considered && y in considered
    requires x != y && t != x && t != y && x.recordId == y.recordId && IsPrimitiveRecord(t)
    requires IsRoot(resolve, analysisId, x) && IsRoot(resolve, analysisId, y)
    ensures var pairs := [SuccessfulMatchPair(t, x), SuccessfulMatchPair(t, y)];
            && AllEligible(considered, t, pairs, resolve, analysisId)
            && (forall p :: p in pairs ==> WellPinned(considered, t, resolve, p))
            && !RetentionSucceeds(considered, t, pairs, resolve, analysisId)
            && (forall error :: SelectionFault(considered, t, pairs, resolve, analysisId, error) <==>
                                error == PairsNotOrderable)
  {
    var p, q := SuccessfulMatchPair(t, x), SuccessfulMatchPair(t, y);
    RootHasNoAncestors(resolve, analysisId, x);
    RootHasNoAncestors(resolve, analysisId, y);
    assert p in [p, q] && q in [p, q] && p != q;
    assert RankOf(resolve, t, p) == RankOf(resolve, t, q);
    assert !Orderable(t, resolve, [p, q]);
  }

  lemma SharedIdExample()
    ensures var t := StoredDataRef("s", PRIMITIVE, "h0", "w", "c", Some("t"));
            var x := StoredDataRef("s", PRIMITIVE, "h1", "w", "c", Some("id"));
            var y := StoredDataRef("s", PRIMITIVE, "h2", "w", "c", Some("id"));
            var resolve: Resolver := map[x := Ok(LineageNode(x, [], "a", "w", "c", true)),
                                         y := Ok(LineageNode(y, [], "a", "w", "c", true))];
            var pairs := [SuccessfulMatchPair(t, x), SuccessfulMatchPair(t, y)];
            !RetentionSucceeds([t, x, y], t, pairs, resolve, "a")
            && forall error :: SelectionFault([t, x, y], t, pairs, resolve, "a", error) <==> error == PairsNotOrderable
  {
    var t := StoredDataRef("s", PRIMITIVE, "h0", "w", "c", Some("t"));
    var x := StoredDataRef("s", PRIMITIVE, "h1", "w", "c", Some("id"));
    var y := StoredDataRef("s", PRIMITIVE, "h2", "w", "c", Some("id"));
    var resolve: Resolver := map[x := Ok(LineageNode(x, [], "a", "w", "c", true)),
                                 y := Ok(LineageNode(y, [], "a", "w", "c", true))];
    assert t.contentHash == "h0" && x.contentHash == "h1" && y.contentHash == "h2";
    assert "h0"[1] != "h1"[1] && "h1"[1] != "h2"[1] && "h0"[1] != "h2"[1];
    SharedIdRaises([t, x, y], t, x, y, resolve, "a");
  }
}
