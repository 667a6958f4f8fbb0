/** The "current record" pointer over a chain of revisions
    (composition/production_filesystem_provisioner.py, storage/repositories.py). */
module CurrentRecord {
  import opened Basics

  datatype Revision = Revision(
    id: string, logicalId: string, number: nat, previous: Option<string>, scope: string, createdAt: nat,
    payload: string)

  // Record metadata is refused otherwise: only a first revision has no predecessor.
  type Record = r: Revision | ValidMeta(r) witness Revision("a", "a", 1, None, "", 0, "")

  ghost predicate ValidMeta(r: Revision) {
    && r.number >= 1
    && (r.number == 1 <==> r.previous.None?)
    && r.previous != Some(r.id)
  }

  datatype Pointer = Pointer(id: string, version: nat)

  datatype Tables = Tables(records: map<string, Record>, published: set<string>, pointers: map<string, Pointer>)

  datatype PublishError = ImmutableRecord | MissingPredecessor | RevisionMismatch | RevisionTaken | Stale

  const EMPTY: Tables := Tables(map[], {}, map[])

  // `validate_revision`
  ghost predicate Follows(previous: Record, next: Record) {
    && previous.logicalId == next.logicalId && previous.scope == next.scope
    && next.previous == Some(previous.id) && next.id != previous.id
    && next.number == previous.number + 1 && previous.createdAt <= next.createdAt
  }

  // `str(record.meta.previous_record_id)`: an absent predecessor reads as the text None.
  ghost function PreviousText(r: Record): string {
    if r.previous.None? then "None" else r.previous.value
  }

  ghost predicate Taken(t: Tables, r: Record) {
    exists id :: id in t.published && id in t.records
                 && t.records[id].logicalId == r.logicalId && t.records[id].number == r.number
  }

  // The three statements of one transaction.
  ghost function Stage(t: Tables, r: Record): Result<Tables, PublishError> {
    if r.id !in t.records then Ok(t.(records := t.records[r.id := r]))
    else if t.records[r.id] == r then Ok(t)
    else Err(ImmutableRecord)
  }

  ghost function PublishRevision(t: Tables, r: Record): Result<Tables, PublishError> {
    if r.id in t.published then Ok(t)
    else if r.previous.Some? && (r.previous.value !in t.published || r.previous.value !in t.records) then
      Err(MissingPredecessor)
    else if r.previous.Some? && !Follows(t.records[r.previous.value], r) then Err(RevisionMismatch)
    else if Taken(t, r) then Err(RevisionTaken)
    else Ok(t.(published := t.published + {r.id}))
  }

  ghost function Point(t: Tables, r: Record): Result<Tables, PublishError> {
    if r.logicalId !in t.pointers then Ok(t.(pointers := t.pointers[r.logicalId := Pointer(r.id, 1)]))
    else if t.pointers[r.logicalId].id == r.id then Ok(t)
    else if t.pointers[r.logicalId].id != PreviousText(r) then Err(Stale)
    else Ok(t.(pointers := t.pointers[r.logicalId := Pointer(r.id, t.pointers[r.logicalId].version + 1)]))
  }

  ghost function Publish(t: Tables, r: Record): Result<Tables, PublishError> {
    var staged := Stage(t, r);
    if staged.Err? then staged
    else
      var published := PublishRevision(staged.value, r);
      if published.Err? then published else Point(published.value, r)
  }

  // ------------------------------------------------------------------- the transaction

  class Database {
    var records: map<string, Record>
    var published: set<string>
    var pointers: map<string, Pointer>

    function Contents(): Tables
      reads this
    {
      Tables(records, published, pointers)
    }

    constructor ()
      ensures Contents() == EMPTY
    {
      records, published, pointers := map[], {}, map[];
    }

    method StageRecord(r: Record) returns (error: Option<PublishError>)
      modifies `records
      ensures match Stage(old(Contents()), r)
              case Ok(t) => error.None? && Contents() == t
              case Err(e) => error == Some(e) && Contents() == old(Contents())
    {
      if r.id in records {
        if records[r.id] != r {
          return Some(ImmutableRecord);
        }
        return None;
      }
      records := records[r.id := r];
      return None;
    }

    method PublishStaged(r: Record) returns (error: Option<PublishError>)
      modifies `published
      ensures match PublishRevision(old(Contents()), r)
              case Ok(t) => error.None? && Contents() == t
              case Err(e) => error == Some(e) && Contents() == old(Contents())
    {
      if r.id in published {
        return None;
      }
      if r.previous.Some? {
        if r.previous.value !in published || r.previous.value !in records {
          return Some(MissingPredecessor);
        }
        var previous := records[r.previous.value];
        if previous.logicalId != r.logicalId || previous.scope != r.scope || r.previous != Some(previous.id)
           || r.id == previous.id || r.number != previous.number + 1 || r.createdAt < previous.createdAt
        {
          return Some(RevisionMismatch);
        }
      }
      if exists id :: id in published && id in records
                      && records[id].logicalId == r.logicalId && records[id].number == r.number {
        return Some(RevisionTaken);
      }
      published := published + {r.id};
      return None;
    }

    // `update ... where state_version == version`; returns how many rows changed.
    method CompareAndSet(logicalId: string, version: nat, id: string) returns (changed: nat)
      modifies `pointers
      ensures changed == if logicalId in old(pointers) && old(pointers)[logicalId].version == version then 1 else 0
      ensures pointers == if changed == 1 then old(pointers)[logicalId := Pointer(id, version + 1)] else old(pointers)
    {
      if logicalId in pointers && pointers[logicalId].version == version {
        pointers := pointers[logicalId := Pointer(id, version + 1)];
        return 1;
      }
      return 0;
    }

    method PointAt(r: Record) returns (error: Option<PublishError>)
      modifies `pointers
      ensures match Point(old(Contents()), r)
              case Ok(t) => error.None? && Contents() == t
              case Err(e) => error == Some(e) && Contents() == old(Contents())
    {
      if r.logicalId !in pointers {
        pointers := pointers[r.logicalId := Pointer(r.id, 1)];
        return None;
      }
      var current := pointers[r.logicalId];
      if current.id != r.id {
        var previous := if r.previous.Some? then r.previous.value else "None";
        if current.id != previous {
          return Some(Stale);
        }
        var changed := CompareAndSet(r.logicalId, current.version, r.id);
        if changed != 1 {
          return Some(Stale);
        }
      }
      return None;
    }

    // Any error rolls the whole transaction back.
    method PublishCurrent(r: Record) returns (error: Option<PublishError>)
      modifies this
      ensures match Publish(old(Contents()), r)
              case Ok(t) => error.None? && Contents() == t
              case Err(e) => error == Some(e) && Contents() == old(Contents())
    {
      var records0, published0, pointers0 := records, published, pointers;
      error := StageRecord(r);
      if error.None? {
        error := PublishStaged(r);
      }
      if error.None? {
        error := PointAt(r);
      }
      if error.Some? {
        records, published, pointers := records0, published0, pointers0;
      }
    }
  }

  // ------------------------------------------------------------------ what every call keeps

  ghost predicate SameSlot(a: Record, b: Record) {
    a.logicalId == b.logicalId && a.number == b.number
  }

  // A published revision follows its published predecessor.
  ghost predicate LinkFits(t: Tables, id: string) {
    && id in t.records && t.records[id].id == id
    && (t.records[id].previous.Some? ==>
          t.records[id].previous.value in t.published && t.records[id].previous.value in t.records
          && Follows(t.records[t.records[id].previous.value], t.records[id]))
  }

  ghost predicate Chained(t: Tables) {
    && t.published <= t.records.Keys
    && (forall id {:trigger LinkFits(t, id)} :: id in t.published ==> LinkFits(t, id))
    && (forall a, b {:trigger SameSlot(t.records[a], t.records[b])} ::
          (a in t.published && b in t.published && SameSlot(t.records[a], t.records[b])) ==> a == b)
  }

  ghost predicate PointersFit(t: Tables) {
    forall l :: l in t.pointers ==>
      t.pointers[l].id in t.published && t.pointers[l].id in t.records
      && t.records[t.pointers[l].id].logicalId == l
  }

  // Every published logical record has a current revision, and only those have one.
  ghost predicate Pointed(t: Tables) {
    && PointersFit(t)
    && (forall id :: id in t.published && id in t.records ==> t.records[id].logicalId in t.pointers)
  }

  // The current revision is the newest one, and the version counts its revisions.
  ghost predicate Newest(t: Tables) {
    && Pointed(t)
    && (forall l :: l in t.pointers ==> t.pointers[l].version == t.records[t.pointers[l].id].number)
    && (forall id :: id in t.published && id in t.records ==>
          t.records[id].number <= t.records[t.pointers[t.records[id].logicalId].id].number)
  }

  ghost predicate RecordsKept(t: Tables, u: Tables) {
    && t.published <= u.published
    && (forall id :: id in t.records ==> id in u.records && u.records[id] == t.records[id])
  }

  lemma StageKeeps(t: Tables, r: Record)
    requires Chained(t) && PointersFit(t) && Stage(t, r).Ok?
    ensures var s := Stage(t, r).value;
            && Chained(s) && PointersFit(s) && RecordsKept(t, s)
            && s.published == t.published && s.pointers == t.pointers
            && r.id in s.records && s.records[r.id] == r
  {
    var s := Stage(t, r).value;
    forall id | id in s.published ensures LinkFits(s, id) {
      assert LinkFits(t, id);
    }
    forall a, b | a in s.published && b in s.published && SameSlot(s.records[a], s.records[b])
      ensures a == b
    {
      assert LinkFits(t, a) && LinkFits(t, b) && SameSlot(t.records[a], t.records[b]);
    }
  }

  lemma RevisionKeeps(s: Tables, r: Record)
    requires Chained(s) && PointersFit(s) && PublishRevision(s, r).Ok?
    requires r.id in s.records && s.records[r.id] == r
    ensures var u := PublishRevision(s, r).value;
            && Chained(u) && PointersFit(u) && RecordsKept(s, u)
            && u.records == s.records && u.pointers == s.pointers && u.published == s.published + {r.id}
            && LinkFits(u, r.id)
            && (r.previous.Some? ==> r.previous.value in s.published)
  {
    var u := PublishRevision(s, r).value;
    if r.id in s.published {
      assert LinkFits(s, r.id);
    }
    forall id | id in u.published ensures LinkFits(u, id) {
      if id in s.published {
        assert LinkFits(s, id);
      }
    }
    forall a, b | a in u.published && b in u.published && SameSlot(u.records[a], u.records[b])
      ensures a == b
    {
      assert SameSlot(s.records[a], s.records[b]);
    }
  }

  // What the pointer step starts from.
  lemma BeforePoint(t: Tables, r: Record) returns (u: Tables)
    requires Chained(t) && Pointed(t) && Publish(t, r).Ok?
    ensures Publish(t, r) == Point(u, r) && Chained(u) && PointersFit(u) && RecordsKept(t, u)
    ensures u.pointers == t.pointers && u.published == t.published + {r.id} && u.records[r.id] == r
    ensures r.previous.Some? ==>
              r.previous.value in t.published && r.previous.value in t.records
              && Follows(t.records[r.previous.value], r)
  {
    StageKeeps(t, r);
    var s := Stage(t, r).value;
    RevisionKeeps(s, r);
    u := PublishRevision(s, r).value;
    if r.previous.Some? {
      assert LinkFits(t, r.previous.value);
    }
  }

  lemma PointKeepsChained(u: Tables, r: Record)
    requires Chained(u) && Point(u, r).Ok?
    ensures Chained(Point(u, r).value)
  {
    var v := Point(u, r).value;
    forall id | id in v.published ensures LinkFits(v, id) {
      assert LinkFits(u, id);
    }
    forall a, b | a in v.published && b in v.published && SameSlot(v.records[a], v.records[b])
      ensures a == b
    {
      assert SameSlot(u.records[a], u.records[b]);
    }
  }

  lemma PublishKeepsChained(t: Tables, r: Record)
    requires Chained(t) && Pointed(t) && Publish(t, r).Ok?
    ensures var u := Publish(t, r).value;
            && Chained(u) && Pointed(u) && RecordsKept(t, u)
            && r.id in u.published && u.records[r.id] == r
  {
    var u := BeforePoint(t, r);
    PointKeepsChained(u, r);
    forall id | id in u.published ensures u.records[id].logicalId in Point(u, r).value.pointers {
      assert id in t.published || id == r.id;
    }
  }

  // The pointer of `l` before and after one successful call: it stays, is created, or moves to
  // the record that names it as its predecessor.
  lemma PointerMoves(t: Tables, r: Record)
    requires Chained(t) && Pointed(t) && Publish(t, r).Ok?
    ensures var u := Publish(t, r).value; var l := r.logicalId;
            && u.pointers == t.pointers[l := u.pointers[l]] && u.pointers[l].id == r.id
            && (l !in t.pointers ==> u.pointers[l].version == 1 && r.previous.None?)
            && (l in t.pointers && t.pointers[l].id == r.id ==> u.pointers[l] == t.pointers[l])
            && (l in t.pointers && t.pointers[l].id != r.id ==>
                  t.pointers[l].id == PreviousText(r) && u.pointers[l].version == t.pointers[l].version + 1)
  {
    var u := BeforePoint(t, r);
  }

  // A moved pointer goes to the next revision, except from a record that is called None back
  // to the first revision.
  lemma MoveIsForward(t: Tables, r: Record)
    requires Chained(t) && Pointed(t) && Publish(t, r).Ok?
    requires r.logicalId in t.pointers && t.pointers[r.logicalId].id != r.id
    ensures var held := t.records[t.pointers[r.logicalId].id];
            && (r.previous.Some? <==> r.number == held.number + 1)
            && (r.previous.None? <==> r.number < held.number)
            && (r.previous.None? ==> t.pointers[r.logicalId].id == "None")
  {
    var u := BeforePoint(t, r);
    var id := t.pointers[r.logicalId].id;
    assert LinkFits(t, id);
    if r.previous.None? {
      assert !SameSlot(u.records[id], u.records[r.id]);
    }
  }

  lemma PublishKeepsNewest(t: Tables, r: Record)
    requires Chained(t) && Newest(t) && Publish(t, r).Ok? && "None" !in t.published
    ensures Newest(Publish(t, r).value)
  {
    var u := Publish(t, r).value;
    PublishKeepsChained(t, r);
    PointerMoves(t, r);
    if r.logicalId in t.pointers && t.pointers[r.logicalId].id != r.id {
      MoveIsForward(t, r);
    }
    PointerIsNewest(t, r);
  }

  lemma PointerIsNewest(t: Tables, r: Record)
    requires Chained(t) && Newest(t) && Publish(t, r).Ok?
    requires r.logicalId in t.pointers && t.pointers[r.logicalId].id != r.id ==> r.previous.Some?
    ensures var u := Publish(t, r).value;
            forall id :: id in u.published && id in u.records && u.records[id].logicalId in u.pointers
                         && u.pointers[u.records[id].logicalId].id in u.records ==>
                           u.records[id].number <= u.records[u.pointers[u.records[id].logicalId].id].number
  {
    var u := Publish(t, r).value;
    var before := BeforePoint(t, r);
    PointerMoves(t, r);
    if r.logicalId in t.pointers && t.pointers[r.logicalId].id != r.id {
      MoveIsForward(t, r);
    }
    forall id | id in u.published && id in u.records && u.records[id].logicalId in u.pointers
                && u.pointers[u.records[id].logicalId].id in u.records
      ensures u.records[id].number <= u.records[u.pointers[u.records[id].logicalId].id].number
    {
      if id in t.published {
        assert u.records[id] == t.records[id];
      }
    }
  }

  // Republishing the current record changes nothing. Republishing a superseded one is refused
  // exactly when it is no first revision or the current record is not called None.
  lemma Republish(t: Tables, r: Record)
    requires Chained(t) && Newest(t) && r.id in t.published && r.id in t.records && t.records[r.id] == r
    ensures r.logicalId in t.pointers
    ensures var current := t.pointers[r.logicalId].id;
            && (current == r.id ==> Publish(t, r) == Ok(t))
            && (current != r.id ==> (Publish(t, r) == Err(Stale) <==> !(current == "None" && r.previous.None?)))
  {
    var current := t.pointers[r.logicalId].id;
    assert LinkFits(t, r.id);
    if current != r.id && r.previous.Some? {
      assert t.records[r.previous.value].number < r.number <= t.records[current].number;
    }
  }

  // Otherwise the pointer goes back to the first revision, under a higher version.
  lemma RepublishGoesBack(t: Tables, r: Record)
    requires Chained(t) && Newest(t) && r.id in t.published && r.id in t.records && t.records[r.id] == r
    requires r.previous.None? && r.logicalId in t.pointers && t.pointers[r.logicalId].id == "None" != r.id
    ensures var held := t.pointers[r.logicalId];
            && Publish(t, r) == Ok(t.(pointers := t.pointers[r.logicalId := Pointer(r.id, held.version + 1)]))
            && r.number == 1 < t.records[held.id].number
  {
    var held := t.pointers[r.logicalId];
    assert LinkFits(t, r.id) && LinkFits(t, held.id);
    assert !SameSlot(t.records[held.id], t.records[r.id]);
  }

  // ------------------------------------------------------------------------- whole runs

  // A failed call leaves the tables as they were.
  ghost function After(t: Tables, r: Record): Tables {
    if Publish(t, r).Ok? then Publish(t, r).value else t
  }

  ghost function Run(t: Tables, calls: seq<Record>): Tables
    decreases |calls|
  {
    if calls == [] then t else Run(After(t, calls[0]), calls[1..])
  }

  ghost predicate NoneIsNoName(calls: seq<Record>) {
    forall i :: 0 <= i < |calls| ==> calls[i].id != "None"
  }

  ghost predicate Good(t: Tables) {
    Chained(t) && Newest(t) && "None" !in t.published
  }

  lemma AfterKeepsGood(t: Tables, r: Record)
    requires Good(t) && r.id != "None"
    ensures Good(After(t, r)) && RecordsKept(t, After(t, r))
    ensures forall l :: l in t.pointers ==>
              l in After(t, r).pointers
              && (After(t, r).pointers[l] == t.pointers[l]
                  || After(t, r).pointers[l].version == t.pointers[l].version + 1)
  {
    if Publish(t, r).Ok? {
      var u := BeforePoint(t, r);
      PublishKeepsChained(t, r);
      PublishKeepsNewest(t, r);
      PointerMoves(t, r);
    }
  }

  // Versions only rise, and a version stands for one record.
  lemma {:induction false} RunKeepsGood(t: Tables, calls: seq<Record>)
    requires Good(t) && NoneIsNoName(calls)
    ensures Good(Run(t, calls)) && RecordsKept(t, Run(t, calls))
    ensures forall l :: l in t.pointers ==>
              l in Run(t, calls).pointers
              && (Run(t, calls).pointers[l] == t.pointers[l]
                  || Run(t, calls).pointers[l].version > t.pointers[l].version)
    decreases |calls|
  {
    if calls != [] {
      AfterKeepsGood(t, calls[0]);
      RunKeepsGood(After(t, calls[0]), calls[1..]);
    }
  }

  lemma {:induction false} RunAppend(t: Tables, a: seq<Record>, b: seq<Record>)
    ensures Run(t, a + b) == Run(Run(t, a), b)
    decreases |a|
  {
    if a == [] {
      assert a + b == b;
    } else {
      assert (a + b)[0] == a[0] && (a + b)[1..] == a[1..] + b;
      RunAppend(After(t, a[0]), a[1..], b);
    }
  }

  // Once another revision has become current, the old one never is again.
  lemma {:induction false} SupersededForGood(a: seq<Record>, b: seq<Record>, c: seq<Record>, l: string)
    requires NoneIsNoName(a) && NoneIsNoName(b) && NoneIsNoName(c)
    requires l in Run(EMPTY, a).pointers && l in Run(EMPTY, a + b).pointers
    requires Run(EMPTY, a + b).pointers[l].id != Run(EMPTY, a).pointers[l].id
    ensures l in Run(EMPTY, a + b + c).pointers
    ensures Run(EMPTY, a + b + c).pointers[l].id != Run(EMPTY, a).pointers[l].id
    ensures Run(EMPTY, a + b + c).pointers[l].version > Run(EMPTY, a).pointers[l].version
  {
    var first := Run(EMPTY, a);
    RunAppend(EMPTY, a, b);
    RunAppend(EMPTY, a + b, c);
    RunKeepsGood(EMPTY, a);
    RunKeepsGood(first, b);
    RunKeepsGood(Run(first, b), c);
  }

  // The version of a pointer is the revision number of the record it names, which is the
  // newest published one.
  lemma {:induction false} VersionIsRevision(calls: seq<Record>, l: string)
    requires NoneIsNoName(calls) && l in Run(EMPTY, calls).pointers
    ensures var t := Run(EMPTY, calls); var current := t.pointers[l];
            && current.id in t.published && current.id in t.records
            && t.records[current.id].logicalId == l && current.version == t.records[current.id].number
            && (forall id :: id in t.published && id in t.records && t.records[id].logicalId == l ==>
                               t.records[id].number <= current.version)
  {
    RunKeepsGood(EMPTY, calls);
  }

  // A record whose identifier is the text None lets the first revision come back.
  lemma NoneReturns()
    ensures var first := Revision("a", "log", 1, None, "", 0, "");
            var second := Revision("None", "log", 2, Some("a"), "", 0, "");
            && Run(EMPTY, [first]).pointers == map["log" := Pointer("a", 1)]
            && Run(EMPTY, [first, second]).pointers == map["log" := Pointer("None", 2)]
            && Run(EMPTY, [first, second, first]).pointers == map["log" := Pointer("a", 3)]
  {
    var first: Record := Revision("a", "log", 1, None, "", 0, "");
    var second: Record := Revision("None", "log", 2, Some("a"), "", 0, "");
    var one := Tables(map["a" := first], {"a"}, map["log" := Pointer("a", 1)]);
    var two := Tables(map["a" := first, "None" := second], {"a", "None"}, map["log" := Pointer("None", 2)]);
    var three := two.(pointers := map["log" := Pointer("a", 3)]);
    assert After(EMPTY, first) == one by {
      var staged := Tables(map["a" := first], {}, map[]);
      assert Stage(EMPTY, first) == Ok(staged);
      assert staged.published + {first.id} == {"a"} && !Taken(staged, first);
      assert PublishRevision(staged, first) == Ok(staged.(published := {"a"}));
      assert Publish(EMPTY, first) == Ok(one);
    }
    assert After(one, second) == two by {
      var staged := one.(records := map["a" := first, "None" := second]);
      assert Stage(one, second) == Ok(staged);
      assert "None" != "a" && Follows(first, second);
      assert staged.published + {second.id} == {"a", "None"} && !Taken(staged, second);
      assert PublishRevision(staged, second) == Ok(staged.(published := {"a", "None"}));
      var revised := staged.(published := {"a", "None"});
      assert revised.pointers["log"] == Pointer("a", 1) && PreviousText(second) == "a";
      assert revised.pointers["log" := Pointer("None", 2)] == two.pointers;
      assert Point(revised, second) == Ok(two);
    }
    assert After(two, first) == three by {
      assert Publish(two, first) == Point(two, first);
    }
    RunAppend(EMPTY, [first], [second]);
    RunAppend(EMPTY, [first, second], [first]);
    assert [first] + [second] == [first, second] && [first, second] + [first] == [first, second, first];
    assert Run(EMPTY, [first]) == one && Run(one, [second]) == two && Run(two, [first]) == three;
  }
}
