/** Which work compares a pair, decided from frozen pools without communication
    (chaining/matching.py, chaining/service.py). */
module Ownership {
  import opened Basics
  import opened Refs
  import opened Ordering
  import opened Keys
  import opened Primitives
  import opened Matching

  function OwnsPair(trigger: StoredDataRef, other: StoredDataRef, triggerPool: seq<StoredDataRef>,
                    otherPool: seq<StoredDataRef>): Result<bool, MatchingError>
  {
    if trigger == other then Err(SelfPairForbidden)
    else if !IsPrimitiveRecord(trigger) || !IsPrimitiveRecord(other) then Err(RecordRefInvalid)
    else if !NoDuplicates(triggerPool) || !NoDuplicates(otherPool)
            || trigger !in triggerPool || other !in triggerPool || other !in otherPool
    then Err(PoolHistoryMismatch)
    else if trigger !in otherPool then Ok(true)
    else Ok(StringLess(RecordId(other), RecordId(trigger)))
  }

  // Both registration-time pools know what they must know about the pair.
  ghost predicate PairUsable(trigger: StoredDataRef, other: StoredDataRef, triggerPool: seq<StoredDataRef>,
                             otherPool: seq<StoredDataRef>) {
    && trigger != other && IsPrimitiveRecord(trigger) && IsPrimitiveRecord(other)
    && NoDuplicates(triggerPool) && NoDuplicates(otherPool)
    && trigger in triggerPool && other in triggerPool && other in otherPool
  }

  // The trigger is newer than the other pool, or both know each other and it has the later id.
  ghost predicate ComesLater(trigger: StoredDataRef, other: StoredDataRef, otherPool: seq<StoredDataRef>) {
    || trigger !in otherPool
    || (trigger.recordId.Some? && other.recordId.Some? && Precedes(other.recordId.value, trigger.recordId.value))
  }

  // What is raised for a pair: the pair itself first, then the references, then the pools.
  ghost function PairFault(trigger: StoredDataRef, other: StoredDataRef): MatchingError {
    if trigger == other then SelfPairForbidden
    else if IsPrimitiveRecord(trigger) && IsPrimitiveRecord(other) then PoolHistoryMismatch
    else RecordRefInvalid
  }

  lemma OwnsPairDecides(trigger: StoredDataRef, other: StoredDataRef, triggerPool: seq<StoredDataRef>,
                        otherPool: seq<StoredDataRef>)
    ensures OwnsPair(trigger, other, triggerPool, otherPool)
         == if PairUsable(trigger, other, triggerPool, otherPool) then Ok(ComesLater(trigger, other, otherPool))
            else Err(PairFault(trigger, other))
  {
    if IsPrimitiveRecord(trigger) && IsPrimitiveRecord(other) {
      LessPrecedes(RecordId(other), RecordId(trigger));
    }
  }

  // Every work's pool at registration time, by its trigger.
  type Pools = map<StoredDataRef, seq<StoredDataRef>>

  // Each pool holds its own trigger and only references that have a work of their own.
  ghost predicate Frozen(pools: Pools) {
    forall a :: a in pools ==>
      && IsPrimitiveRecord(a) && NoDuplicates(pools[a]) && a in pools[a]
      && forall b :: b in pools[a] ==> b in pools
  }

  // The work of `a` compares the pair {a, b}.
  ghost predicate Owns(pools: Pools, a: StoredDataRef, b: StoredDataRef)
    requires a in pools && b in pools
  {
    PairUsable(a, b, pools[a], pools[b]) && ComesLater(a, b, pools[b])
  }

  ghost predicate Meet(pools: Pools, a: StoredDataRef, b: StoredDataRef)
    requires a in pools && b in pools
  {
    b in pools[a] || a in pools[b]
  }

  // The one way two works that know each other both decline.
  ghost predicate SameIdStandoff(pools: Pools, a: StoredDataRef, b: StoredDataRef)
    requires a in pools && b in pools
    requires a.recordId.Some? && b.recordId.Some?
  {
    b in pools[a] && a in pools[b] && RecordId(a) == RecordId(b)
  }

  lemma ExactlyOneOwner(pools: Pools, a: StoredDataRef, b: StoredDataRef)
    requires Frozen(pools) && a in pools && b in pools && a != b
    ensures !(Owns(pools, a, b) && Owns(pools, b, a))
    ensures Owns(pools, a, b) || Owns(pools, b, a) <==> Meet(pools, a, b) && !SameIdStandoff(pools, a, b)
  {
    var x, y := RecordId(a), RecordId(b);
    LessPrecedes(x, y);
    LessPrecedes(y, x);
    StringLeqTotal(x, y);
    if StringLeq(x, y) && StringLeq(y, x) {
      StringLeqAntisymmetric(x, y);
    }
  }

  // Of two works that know each other, the one with the later record id compares the pair; a work
  // that the other does not know of compares it alone.
  lemma LaterIdOwns(pools: Pools, a: StoredDataRef, b: StoredDataRef)
    requires Frozen(pools) && a in pools && b in pools && a != b && b in pools[a]
    ensures OwnsPair(a, b, pools[a], pools[b]) == Ok(Owns(pools, a, b))
    ensures Owns(pools, a, b) <==> a !in pools[b] || Precedes(b.recordId.value, a.recordId.value)
    ensures a in pools[b] ==> (Owns(pools, b, a) <==> Precedes(a.recordId.value, b.recordId.value))
  {
    OwnsPairDecides(a, b, pools[a], pools[b]);
  }

  // Where the pools of "z-record" and "a-record" hold both, the work of "z-record" compares them.
  lemma LaterIdExample()
    ensures var z := StoredDataRef("s", PRIMITIVE, "h1", "w", "c", Some("z-record"));
            var a := StoredDataRef("s", PRIMITIVE, "h2", "w", "c", Some("a-record"));
            OwnsPair(z, a, [a, z], [a, z]) == Ok(true) && OwnsPair(a, z, [a, z], [a, z]) == Ok(false)
  {
    var z := StoredDataRef("s", PRIMITIVE, "h1", "w", "c", Some("z-record"));
    var a := StoredDataRef("s", PRIMITIVE, "h2", "w", "c", Some("a-record"));
    OwnsPairDecides(z, a, [a, z], [a, z]);
    OwnsPairDecides(a, z, [a, z], [a, z]);
    assert "z-record"[0] == 'z' && "a-record"[0] == 'a';
    assert PrecedesAt("a-record", "z-record", 0);
    assert !PrecedesAt("z-record", "a-record", 0);
    forall n: nat ensures !PrecedesAt("z-record", "a-record", n) {
      assert 0 < n <= 8 ==> "z-record"[..n][0] != "a-record"[..n][0];
    }
  }

  // -------------------------------------------------- one work's comparisons

  datatype PoolHistory = PoolHistory(trigger: StoredDataRef, considered: seq<StoredDataRef>)

  type HistoryPort = map<StoredDataRef, PoolHistory>

  function OtherOf(c: DirectionalComparison, trigger: StoredDataRef): StoredDataRef {
    if c.upstream == trigger then c.downstream else c.upstream
  }

  function Other(a: StoredDataRef, q: Question): StoredDataRef {
    if q.upstream == a then q.downstream else q.upstream
  }

  function KeepOwned(comparisons: seq<DirectionalComparison>, trigger: StoredDataRef, owned: set<StoredDataRef>)
    : (kept: seq<DirectionalComparison>)
    ensures forall c :: c in kept <==> c in comparisons && OtherOf(c, trigger) in owned
  {
    if comparisons == [] then []
    else (if OtherOf(comparisons[0], trigger) in owned then [comparisons[0]] else [])
         + KeepOwned(comparisons[1..], trigger, owned)
  }

  // `kept` stands at these rising positions of `all`.
  ghost predicate Picks(all: seq<DirectionalComparison>, at: seq<nat>, kept: seq<DirectionalComparison>) {
    && |at| == |kept| && (forall i, j :: 0 <= i < j < |at| ==> at[i] < at[j])
    && forall i :: 0 <= i < |at| ==> at[i] < |all| && all[at[i]] == kept[i]
  }

  lemma PicksLater(all: seq<DirectionalComparison>, at: seq<nat>, kept: seq<DirectionalComparison>)
    returns (shifted: seq<nat>)
    requires all != [] && Picks(all[1..], at, kept)
    ensures Picks(all, shifted, kept) && forall i :: 0 <= i < |shifted| ==> shifted[i] > 0
  {
    shifted := seq(|at|, i requires 0 <= i < |at| => at[i] + 1);
  }

  lemma PicksFirst(all: seq<DirectionalComparison>, at: seq<nat>, kept: seq<DirectionalComparison>)
    requires all != [] && Picks(all, at, kept) && forall i :: 0 <= i < |at| ==> at[i] > 0
    ensures Picks(all, [0] + at, [all[0]] + kept)
  {
  }

  // The filter keeps the order: it picks comparisons at rising positions.
  lemma {:induction false} KeepOwnedIsSubsequence(comparisons: seq<DirectionalComparison>, trigger: StoredDataRef,
                                                  owned: set<StoredDataRef>)
    returns (at: seq<nat>)
    ensures Picks(comparisons, at, KeepOwned(comparisons, trigger, owned))
  {
    if comparisons == [] {
      at := [];
    } else {
      var rest := KeepOwnedIsSubsequence(comparisons[1..], trigger, owned);
      at := PicksLater(comparisons, rest, KeepOwned(comparisons[1..], trigger, owned));
      if OtherOf(comparisons[0], trigger) in owned {
        PicksFirst(comparisons, at, KeepOwned(comparisons[1..], trigger, owned));
        at := [0] + at;
      }
    }
  }

  lemma {:induction false} KeepOwnedKeepsQuestionsApart(comparisons: seq<DirectionalComparison>, trigger: StoredDataRef,
                                                        owned: set<StoredDataRef>)
    requires NoRepeatedQuestion(comparisons)
    ensures NoRepeatedQuestion(KeepOwned(comparisons, trigger, owned))
  {
    var at := KeepOwnedIsSubsequence(comparisons, trigger, owned);
  }

  ghost predicate HistoryUsable(port: HistoryPort, trigger: StoredDataRef, pool: seq<StoredDataRef>,
                                e: PrimitiveEntry) {
    e.ref != trigger ==>
      && e.ref in port && port[e.ref].trigger == e.ref
      && PairUsable(trigger, e.ref, pool, port[e.ref].considered)
  }

  ghost predicate OwnsEntry(port: HistoryPort, trigger: StoredDataRef, pool: seq<StoredDataRef>, ref: StoredDataRef) {
    && ref in port && PairUsable(trigger, ref, pool, port[ref].considered)
    && ComesLater(trigger, ref, port[ref].considered)
  }

  // What the history of entry `e` makes the loop raise.
  ghost function HistoryFault(port: HistoryPort, trigger: StoredDataRef, pool: seq<StoredDataRef>, e: PrimitiveEntry)
    : Option<MatchingError>
  {
    if e.ref == trigger then None
    else if e.ref !in port || port[e.ref].trigger != e.ref then Some(PoolHistoryMismatch)
    else if PairUsable(trigger, e.ref, pool, port[e.ref].considered) then None
    else Some(PairFault(trigger, e.ref))
  }

  // The work can tell which comparisons it owns.
  ghost predicate Ownable(port: HistoryPort, trigger: StoredDataRef, pool: seq<StoredDataRef>,
                          entries: seq<PrimitiveEntry>) {
    (forall e :: e in entries ==> HistoryUsable(port, trigger, pool, e)) && Pinned(entries, trigger)
  }

  // The first entry without a usable history decides what is raised; the universe is checked last.
  ghost predicate OwnershipFault(port: HistoryPort, trigger: StoredDataRef, pool: seq<StoredDataRef>,
                                 entries: seq<PrimitiveEntry>, error: MatchingError) {
    if forall e :: e in entries ==> HistoryUsable(port, trigger, pool, e) then
      error == PinnedUniverseMismatch && !Pinned(entries, trigger)
    else exists i :: 0 <= i < |entries| && HistoryFault(port, trigger, pool, entries[i]) == Some(error)
                     && forall k :: 0 <= k < i ==> HistoryUsable(port, trigger, pool, entries[k])
  }

  // The list leaves out some of all questions; the rest keeps its order and its numbers.
  ghost predicate KeepsEnumeration(own: PrimitiveEntry, entries: seq<PrimitiveEntry>,
                                   kept: seq<DirectionalComparison>) {
    exists all, at :: Numbered(all) && QuestionsIn(all) == Enumeration(own, entries) && Picks(all, at, kept)
  }

  method OwnedComparisons(trigger: StoredDataRef, pool: seq<StoredDataRef>, entries: seq<PrimitiveEntry>,
                          port: HistoryPort)
    returns (r: Result<seq<DirectionalComparison>, MatchingError>)
    ensures r.Ok? <==> Ownable(port, trigger, pool, entries)
    ensures r.Err? ==> OwnershipFault(port, trigger, pool, entries, r.error)
    ensures r.Ok? ==> forall q :: Contains(r.value, q) <==>
      AskedInUniverse(EntryFor(entries, trigger), entries, q)
      && OwnsEntry(port, trigger, pool, Other(trigger, q))
    ensures r.Ok? && (forall e :: e in entries ==> WellFormed(e.primitive)) ==> NoRepeatedQuestion(r.value)
    ensures r.Ok? ==> forall i, j :: 0 <= i < j < |r.value| ==> r.value[i].comparisonKey != r.value[j].comparisonKey
    ensures r.Ok? ==> forall c :: c in r.value ==> IsComparisonKey(c.comparisonKey)
    ensures r.Ok? ==> KeepsEnumeration(EntryFor(entries, trigger), entries, r.value)
  {
    var owned: set<StoredDataRef> := {};
    for i := 0 to |entries|
      invariant forall e :: e in entries[..i] ==> HistoryUsable(port, trigger, pool, e)
      invariant forall ref :: ref in owned <==>
        ref != trigger && Lists(entries[..i], ref) && OwnsEntry(port, trigger, pool, ref)
    {
      var e := entries[i];
      assert entries[..i + 1] == entries[..i] + [e];
      forall ref ensures Lists(entries[..i + 1], ref) <==> Lists(entries[..i], ref) || ref == e.ref {
        ListsStep(entries, i, ref);
      }
      if e.ref != trigger {
        if e.ref !in port || port[e.ref].trigger != e.ref {
          assert !HistoryUsable(port, trigger, pool, e);
          return Err(PoolHistoryMismatch);
        }
        var owns := OwnsPair(trigger, e.ref, pool, port[e.ref].considered);
        OwnsPairDecides(trigger, e.ref, pool, port[e.ref].considered);
        if owns.Err? {
          assert !HistoryUsable(port, trigger, pool, e);
          return Err(owns.error);
        }
        if owns.value {
          owned := owned + {e.ref};
        }
      }
    }
    assert entries[..|entries|] == entries;
    var all := DirectionalComparisons(trigger, entries);
    if all.Err? {
      return Err(all.error);
    }
    var kept := KeepOwned(all.value, trigger, owned);
    forall q ensures Contains(kept, q) <==>
      AskedInUniverse(EntryFor(entries, trigger), entries, q)
      && OwnsEntry(port, trigger, pool, Other(trigger, q))
    {
      KeptQuestions(trigger, entries, all.value, owned, q);
    }
    var at := KeepOwnedIsSubsequence(all.value, trigger, owned);
    KeptKeysDiffer(all.value, trigger, owned);
    forall c | c in kept ensures IsComparisonKey(c.comparisonKey) {
      var k :| 0 <= k < |all.value| && all.value[k] == c;
      assert c.comparisonKey == Key("comparison", k + 1);
    }
    if forall e :: e in entries ==> WellFormed(e.primitive) {
      KeepOwnedKeepsQuestionsApart(all.value, trigger, owned);
    }
    return Ok(kept);
  }

  lemma ListsStep(entries: seq<PrimitiveEntry>, i: nat, ref: StoredDataRef)
    requires i < |entries|
    ensures Lists(entries[..i + 1], ref) <==> Lists(entries[..i], ref) || ref == entries[i].ref
  {
    if Lists(entries[..i], ref) {
      var k :| 0 <= k < i && entries[..i][k].ref == ref;
      assert entries[..i + 1][k].ref == ref;
    }
    if ref == entries[i].ref {
      assert entries[..i + 1][i].ref == ref;
    }
    if Lists(entries[..i + 1], ref) {
      var k :| 0 <= k < i + 1 && entries[..i + 1][k].ref == ref;
      assert k < i ==> entries[..i][k].ref == ref;
    }
  }

  lemma {:induction false} KeptQuestions(trigger: StoredDataRef, entries: seq<PrimitiveEntry>,
                                         all: seq<DirectionalComparison>, owned: set<StoredDataRef>, q: Question)
    requires Pinned(entries, trigger)
    requires Contains(all, q) <==> AskedInUniverse(EntryFor(entries, trigger), entries, q)
    ensures Contains(KeepOwned(all, trigger, owned), q) <==>
      AskedInUniverse(EntryFor(entries, trigger), entries, q)
      && Other(trigger, q) in owned
    ensures AskedInUniverse(EntryFor(entries, trigger), entries, q) ==>
      var other := Other(trigger, q);
      other != trigger && Lists(entries, other)
  {
    var kept := KeepOwned(all, trigger, owned);
    if Contains(kept, q) {
      var k :| 0 <= k < |kept| && QuestionOf(kept[k]) == q;
      assert kept[k] in all;
      var m :| 0 <= m < |all| && all[m] == kept[k];
      assert QuestionOf(all[m]) == q;
    }
    if Contains(all, q) && Other(trigger, q) in owned {
      var m :| 0 <= m < |all| && QuestionOf(all[m]) == q;
      assert all[m] in kept;
      var k :| 0 <= k < |kept| && kept[k] == all[m];
      assert QuestionOf(kept[k]) == q;
    }
    if AskedInUniverse(EntryFor(entries, trigger), entries, q) {
      var own := EntryFor(entries, trigger);
      var e :| e in entries && e.ref != own.ref && AskedBetween(own, e, q);
      var k :| 0 <= k < |entries| && entries[k] == e;
      assert entries[k].ref == e.ref;
    }
  }

  lemma {:induction false} KeptKeysDiffer(all: seq<DirectionalComparison>, trigger: StoredDataRef,
                                          owned: set<StoredDataRef>)
    requires Numbered(all)
    ensures forall i, j :: 0 <= i < j < |KeepOwned(all, trigger, owned)| ==>
      KeepOwned(all, trigger, owned)[i].comparisonKey != KeepOwned(all, trigger, owned)[j].comparisonKey
  {
    var kept := KeepOwned(all, trigger, owned);
    var at := KeepOwnedIsSubsequence(all, trigger, owned);
    forall i, j | 0 <= i < j < |kept| ensures kept[i].comparisonKey != kept[j].comparisonKey {
      if kept[i].comparisonKey == kept[j].comparisonKey {
        KeysIdentify(all, at[i], at[j]);
      }
    }
  }

  // --------------------------------------------------------- over all works

  type Records = map<StoredDataRef, Primitive>

  ghost predicate EntriesOf(records: Records, pool: seq<StoredDataRef>, entries: seq<PrimitiveEntry>)
  {
    && |entries| == |pool|
    && forall k :: 0 <= k < |pool| ==> pool[k] in records && entries[k] == PrimitiveEntry(pool[k], records[pool[k]])
  }

  ghost predicate HistoriesOf(pools: Pools, port: HistoryPort) {
    port.Keys == pools.Keys && forall a :: a in pools ==> port[a] == PoolHistory(a, pools[a])
  }

  // What the work of `a` lists, by the contract of `OwnedComparisons`.
  ghost predicate WorkLists(pools: Pools, records: Records, a: StoredDataRef, q: Question)
    requires a in pools
  {
    && (q.upstream == a || q.downstream == a) && q.upstream != q.downstream
    && q.upstream in pools[a] && q.downstream in pools[a] && q.upstream in records && q.downstream in records
    && records[q.upstream].result.Some? && AsksFor(records[q.downstream], q.inputId)
    && var b := Other(a, q);
       b in pools && Owns(pools, a, b)
  }

  lemma EntryIsPooled(pools: Pools, records: Records, a: StoredDataRef, entries: seq<PrimitiveEntry>, e: PrimitiveEntry)
    requires a in pools && EntriesOf(records, pools[a], entries)
    ensures e in entries <==> e.ref in pools[a] && e.ref in records && e.primitive == records[e.ref]
  {
    if e in entries {
      var k :| 0 <= k < |entries| && entries[k] == e;
      assert pools[a][k] == e.ref;
    }
    if e.ref in pools[a] && e.ref in records && e.primitive == records[e.ref] {
      var k :| 0 <= k < |pools[a]| && pools[a][k] == e.ref;
      assert entries[k] == e;
    }
  }

  lemma {:induction false} AskedByPool(pools: Pools, records: Records, a: StoredDataRef, entries: seq<PrimitiveEntry>,
                                       q: Question)
    requires a in pools && a in pools[a] && EntriesOf(records, pools[a], entries) && Pinned(entries, a)
    ensures AskedInUniverse(EntryFor(entries, a), entries, q) <==>
      (q.upstream == a || q.downstream == a) && q.upstream != q.downstream
      && q.upstream in pools[a] && q.downstream in pools[a]
      && q.upstream in records && q.downstream in records
      && records[q.upstream].result.Some? && AsksFor(records[q.downstream], q.inputId)
  {
    var own := EntryFor(entries, a);
    EntryIsPooled(pools, records, a, entries, own);
    if AskedInUniverse(own, entries, q) {
      var e :| e in entries && e.ref != own.ref && AskedBetween(own, e, q);
      EntryIsPooled(pools, records, a, entries, e);
    }
    var b := Other(a, q);
    if b in pools[a] && b in records {
      var e := PrimitiveEntry(b, records[b]);
      EntryIsPooled(pools, records, a, entries, e);
      assert e in entries && (b != a && AskedBetween(own, e, q) ==> AskedInUniverse(own, entries, q));
    }
  }

  lemma {:induction false} WorkListsItsComparisons(pools: Pools, records: Records, a: StoredDataRef,
                                                   entries: seq<PrimitiveEntry>, port: HistoryPort, q: Question)
    requires Frozen(pools) && a in pools
    requires EntriesOf(records, pools[a], entries) && HistoriesOf(pools, port) && Pinned(entries, a)
    ensures WorkLists(pools, records, a, q) <==>
      AskedInUniverse(EntryFor(entries, a), entries, q) && OwnsEntry(port, a, pools[a], Other(a, q))
  {
    AskedByPool(pools, records, a, entries, q);
  }

  // A question that makes sense between two Primitives, one of whose works knows the other.
  ghost predicate EligibleQuestion(pools: Pools, records: Records, q: Question) {
    && q.upstream in pools && q.downstream in pools && q.upstream != q.downstream
    && q.upstream in records && q.downstream in records
    && records[q.upstream].result.Some? && AsksFor(records[q.downstream], q.inputId)
    && Meet(pools, q.upstream, q.downstream)
  }

  // Over all works together every eligible question is listed by exactly one work,
  // unless both primitives carry the same record id and know each other.
  lemma EveryQuestionListedOnce(pools: Pools, records: Records, q: Question)
    requires Frozen(pools)
    requires q.upstream in pools && q.downstream in pools
    ensures (exists a :: a in pools && WorkLists(pools, records, a, q)) <==>
      EligibleQuestion(pools, records, q) && !SameIdStandoff(pools, q.upstream, q.downstream)
    ensures forall a, b :: a in pools && b in pools ==>
      WorkLists(pools, records, a, q) && WorkLists(pools, records, b, q) ==> a == b
  {
    var u, d := q.upstream, q.downstream;
    if u != d {
      ExactlyOneOwner(pools, u, d);
    }
    if EligibleQuestion(pools, records, q) && !SameIdStandoff(pools, u, d) {
      assert WorkLists(pools, records, u, q) || WorkLists(pools, records, d, q);
    }
  }

  // Question `q` stands at position `k` of the list of the work of `a`.
  ghost predicate StandsAt(lists: map<StoredDataRef, seq<DirectionalComparison>>, q: Question, a: StoredDataRef,
                           k: nat) {
    a in lists && k < |lists[a]| && QuestionOf(lists[a][k]) == q
  }

  // With the lists of all works side by side, every eligible question stands in exactly one place.
  lemma EveryQuestionHasOnePlace(pools: Pools, records: Records, lists: map<StoredDataRef, seq<DirectionalComparison>>,
                                 q: Question)
    requires Frozen(pools) && q.upstream in pools && q.downstream in pools
    requires lists.Keys == pools.Keys && forall a :: a in pools ==> NoRepeatedQuestion(lists[a])
    requires forall a :: a in pools ==> (Contains(lists[a], q) <==> WorkLists(pools, records, a, q))
    ensures (exists a, k: nat :: StandsAt(lists, q, a, k)) <==>
      EligibleQuestion(pools, records, q) && !SameIdStandoff(pools, q.upstream, q.downstream)
    ensures forall a, j: nat, b, k: nat :: StandsAt(lists, q, a, j) && StandsAt(lists, q, b, k) ==> a == b && j == k
  {
    EveryQuestionListedOnce(pools, records, q);
    if a :| a in pools && WorkLists(pools, records, a, q) {
      var k :| 0 <= k < |lists[a]| && QuestionOf(lists[a][k]) == q;
      assert StandsAt(lists, q, a, k);
    }
    forall a, j: nat | StandsAt(lists, q, a, j) ensures a in pools && WorkLists(pools, records, a, q) {
      assert Contains(lists[a], q);
    }
  }

  // ----------------------------------------------------------------- the standoff

  // Where record ids differ there is no standoff: the pair has an owner iff the pools meet.
  lemma DistinctIdsNeverStandOff(pools: Pools, a: StoredDataRef, b: StoredDataRef)
    requires Frozen(pools) && a in pools && b in pools && a != b && RecordId(a) != RecordId(b)
    ensures Owns(pools, a, b) || Owns(pools, b, a) <==> Meet(pools, a, b)
    ensures !(Owns(pools, a, b) && Owns(pools, b, a))
  {
    ExactlyOneOwner(pools, a, b);
  }

  // Two references to one record id that know each other: nobody compares them.
  lemma StandoffExample()
    ensures var a := StoredDataRef("s", PRIMITIVE, "h1", "w", "c", Some("id"));
            var b := StoredDataRef("s", PRIMITIVE, "h2", "w", "c", Some("id"));
            var pools: Pools := map[a := [a, b], b := [a, b]];
            && Frozen(pools) && Meet(pools, a, b) && !Owns(pools, a, b) && !Owns(pools, b, a)
  {
  }
}
