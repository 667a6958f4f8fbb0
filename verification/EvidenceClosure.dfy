/** The evidence worklists of verification (agents/verification.py). */
module EvidenceClosure {
  import opened Basics
  import opened Refs
  import opened Reachability
  import opened Worklists

  datatype Entity = Entity(symbolId: string, name: string, location: string, workspaceId: string, commitId: string)

  // A record body as `walk` sees it. A model may carry `evidence_refs`; a code context
  // response also carries `code_fragment_refs`.
  datatype Value =
    | Leaf
    | EntityValue(entity: Entity)
    | Items(items: seq<Value>)
    | Model(evidenceRefs: Option<seq<StoredDataRef>>, fragmentRefs: Option<seq<StoredDataRef>>, fields: seq<Value>)

  datatype AuthFact = AuthFact(kind: string, symbolId: string, location: string)

  datatype FactBundle = FactBundle(entities: seq<Entity>, authChecks: seq<AuthFact>)

  // `selfRef` is `reference(record)`; `bundle` is present on static fact bundles.
  datatype DomainRecord = DomainRecord(
    selfRef: StoredDataRef, analysisId: string, workspaceId: string, commitId: string, body: Value,
    bundle: Option<FactBundle>)

  type RecordStore = map<StoredDataRef, DomainRecord>

  datatype EvidenceError = ClosureMismatch | RecordMissing | RevisionMismatch

  // All values inside a value, outermost first.
  function Walk(v: Value): seq<Value> {
    match v
    case Items(items) => [v] + WalkAll(items)
    case Model(_, _, fields) => [v] + WalkAll(fields)
    case _ => [v]
  }

  function WalkAll(vs: seq<Value>): seq<Value> {
    if vs == [] then [] else Walk(vs[0]) + WalkAll(vs[1..])
  }

  function OwnEvidence(v: Value): seq<StoredDataRef> {
    if v.Model? && v.evidenceRefs.Some? then v.evidenceRefs.value else []
  }

  function OwnFragments(v: Value): seq<StoredDataRef> {
    if v.Model? && v.fragmentRefs.Some? then v.fragmentRefs.value else []
  }

  function EvidenceOf(values: seq<Value>): seq<StoredDataRef> {
    if values == [] then [] else OwnEvidence(values[0]) + EvidenceOf(values[1..])
  }

  function CitationsOf(values: seq<Value>): seq<StoredDataRef> {
    if values == [] then [] else OwnEvidence(values[0]) + OwnFragments(values[0]) + CitationsOf(values[1..])
  }

  // `inner` occurs in `outer`, at any depth.
  ghost predicate Holds(outer: Value, inner: Value) {
    || inner == outer
    || (outer.Items? && exists v :: v in outer.items && Holds(v, inner))
    || (outer.Model? && exists v :: v in outer.fields && Holds(v, inner))
  }

  ghost predicate NamesEvidence(v: Value, x: StoredDataRef) {
    exists m :: Holds(v, m) && m.Model? && m.evidenceRefs.Some? && x in m.evidenceRefs.value
  }

  ghost predicate NamesFragment(v: Value, x: StoredDataRef) {
    exists m :: Holds(v, m) && m.Model? && m.fragmentRefs.Some? && x in m.fragmentRefs.value
  }

  lemma {:induction false} WalkFindsAll(v: Value, inner: Value)
    ensures inner in Walk(v) <==> Holds(v, inner)
    decreases v
  {
    match v
    case Items(items) => WalkAllFindsAll(items, inner);
    case Model(_, _, fields) => WalkAllFindsAll(fields, inner);
    case _ =>
  }

  lemma {:induction false} WalkAllFindsAll(vs: seq<Value>, inner: Value)
    ensures inner in WalkAll(vs) <==> exists v :: v in vs && Holds(v, inner)
    decreases vs
  {
    if vs != [] {
      WalkFindsAll(vs[0], inner);
      WalkAllFindsAll(vs[1..], inner);
      assert forall v :: v in vs <==> v == vs[0] || v in vs[1..];
    }
  }

  // Some value of the list is a model that carries the reference as evidence.
  ghost predicate CarriesEvidence(values: seq<Value>, x: StoredDataRef) {
    exists m :: m in values && m.Model? && m.evidenceRefs.Some? && x in m.evidenceRefs.value
  }

  ghost predicate CarriesFragment(values: seq<Value>, x: StoredDataRef) {
    exists m :: m in values && m.Model? && m.fragmentRefs.Some? && x in m.fragmentRefs.value
  }

  lemma {:induction false} CarriedIsCited(values: seq<Value>, x: StoredDataRef)
    ensures x in EvidenceOf(values) <==> CarriesEvidence(values, x)
    ensures x in CitationsOf(values) <==> CarriesEvidence(values, x) || CarriesFragment(values, x)
  {
    if values != [] {
      CarriedIsCited(values[1..], x);
      assert forall m :: m in values <==> m == values[0] || m in values[1..];
    }
  }

  // A record cites what a model anywhere inside it names as evidence or as a code fragment.
  lemma {:induction false} BodyCites(v: Value, x: StoredDataRef)
    ensures x in EvidenceOf(Walk(v)) <==> NamesEvidence(v, x)
    ensures x in CitationsOf(Walk(v)) <==> NamesEvidence(v, x) || NamesFragment(v, x)
  {
    CarriedIsCited(Walk(v), x);
    forall m ensures m in Walk(v) <==> Holds(v, m) {
      WalkFindsAll(v, m);
    }
  }

  // The edges of the two worklists.
  ghost function Citations(store: RecordStore): StoredDataRef -> seq<StoredDataRef> {
    (ref: StoredDataRef) =>
      if ref.recordId.Some? && ref in store then CitationsOf(Walk(store[ref].body)) else []
  }

  ghost function EvidenceEdges(store: RecordStore): StoredDataRef -> seq<StoredDataRef> {
    (ref: StoredDataRef) =>
      if ref.recordId.Some? && ref in store then EvidenceOf(Walk(store[ref].body)) else []
  }

  lemma {:induction false} EvidenceIsCited(values: seq<Value>)
    ensures forall x :: x in EvidenceOf(values) ==> x in CitationsOf(values)
  {
    if values != [] {
      EvidenceIsCited(values[1..]);
    }
  }

  // `_exact`: the stored record must refer back to the reference.
  function Exact(store: RecordStore, ref: StoredDataRef): Result<DomainRecord, EvidenceError> {
    if ref !in store then Err(RecordMissing)
    else if store[ref].selfRef != ref then Err(RevisionMismatch)
    else Ok(store[ref])
  }

  // Why a reference cannot be resolved to its record.
  ghost function ExactFault(store: RecordStore, ref: StoredDataRef): Option<EvidenceError> {
    if ref !in store then Some(RecordMissing)
    else if store[ref].selfRef != ref then Some(RevisionMismatch)
    else None
  }

  // Why the closure refuses a new reference: its scope, then its record, then the record's scope.
  ghost function Admit(store: RecordStore, scope: Scope, ref: StoredDataRef): Option<EvidenceError> {
    if !InWorkspace(ref, scope) then Some(ClosureMismatch)
    else if ref.recordId.None? then None
    else if ExactFault(store, ref).Some? then ExactFault(store, ref)
    else if Scope(store[ref].analysisId, store[ref].workspaceId, store[ref].commitId) != scope then
      Some(ClosureMismatch)
    else None
  }

  // The reference has a stored record that cites `x`.
  ghost predicate Cites(store: RecordStore, ref: StoredDataRef, x: StoredDataRef) {
    && ref.recordId.Some? && ref in store
    && (NamesEvidence(store[ref].body, x) || NamesFragment(store[ref].body, x))
  }

  ghost predicate CitesEvidence(store: RecordStore, ref: StoredDataRef, x: StoredDataRef) {
    ref.recordId.Some? && ref in store && NamesEvidence(store[ref].body, x)
  }

  lemma EdgesCite(store: RecordStore, ref: StoredDataRef, x: StoredDataRef)
    ensures x in Citations(store)(ref) <==> Cites(store, ref, x)
    ensures x in EvidenceEdges(store)(ref) <==> CitesEvidence(store, ref, x)
  {
    if ref in store {
      BodyCites(store[ref].body, x);
    }
  }

  ghost predicate CitedFrom(store: RecordStore, roots: seq<StoredDataRef>, ref: StoredDataRef) {
    From(Citations(store), roots, ref)
  }

  // Only finitely many references can be cited.
  lemma FindCited(store: RecordStore, roots: seq<StoredDataRef>, next: StoredDataRef -> seq<StoredDataRef>)
    returns (reach: set<StoredDataRef>)
    requires forall r :: r !in store ==> next(r) == []
    ensures IsReach(next, roots, reach) && Elements(roots) <= reach && Saturated(next, reach, reach)
  {
    var universe := Elements(roots) + (set r, x | r in store.Keys && x in Elements(next(r)) :: x);
    forall r | r in universe ensures Elements(next(r)) <= universe {
      if r !in store {
        assert Elements(next(r)) == {};
      }
    }
    reach := FindReach(next, roots, universe);
  }

  // ------------------------------------------------------- any order of popping

  // How a worklist chooses the next reference.
  type Choice = (seq<StoredDataRef>, set<StoredDataRef>) -> nat

  ghost predicate Chooses(pick: Choice) {
    forall pending: seq<StoredDataRef>, allowed: set<StoredDataRef> ::
      pending != [] ==> pick(pending, allowed) < |pending|
  }

  datatype Closure = Closure(allowed: set<StoredDataRef>, resolved: seq<StoredDataRef>)

  ghost predicate Holdable(store: RecordStore, universe: set<StoredDataRef>, pending: seq<StoredDataRef>) {
    Elements(pending) <= universe && Saturated(Citations(store), universe, universe)
  }

  // The worklist loop with an arbitrary rule for which pending reference comes next.
  ghost function Drain(store: RecordStore, scope: Scope, pick: Choice, universe: set<StoredDataRef>,
                       pending: seq<StoredDataRef>, allowed: set<StoredDataRef>, resolved: seq<StoredDataRef>)
    : Result<Closure, EvidenceError>
    requires Chooses(pick) && Holdable(store, universe, pending)
    decreases universe - allowed, |pending|
  {
    if pending == [] then Ok(Closure(allowed, resolved))
    else
      var i := pick(pending, allowed);
      var ref, rest := pending[i], Remove(pending, i);
      RemoveElements(pending, i);
      if ref in allowed then Drain(store, scope, pick, universe, rest, allowed, resolved)
      else if Admit(store, scope, ref).Some? then Err(Admit(store, scope, ref).value)
      else
        assert Elements(rest + Citations(store)(ref)) == Elements(rest) + Elements(Citations(store)(ref));
        Drain(store, scope, pick, universe, rest + Citations(store)(ref), allowed + {ref},
              if ref.recordId.Some? then resolved + [ref] else resolved)
  }

  ghost predicate AllAdmitted(store: RecordStore, scope: Scope, roots: seq<StoredDataRef>) {
    forall x :: CitedFrom(store, roots, x) ==> Admit(store, scope, x).None?
  }

  function RecordRefs(refs: set<StoredDataRef>): set<StoredDataRef> {
    set x | x in refs && x.recordId.Some?
  }

  // Exactly the references cited from the roots, with every record among them once.
  ghost predicate IsClosure(store: RecordStore, roots: seq<StoredDataRef>, c: Closure) {
    && IsReach(Citations(store), roots, c.allowed)
    && NoDuplicates(c.resolved) && Elements(c.resolved) == RecordRefs(c.allowed)
  }

  // Between pops.
  ghost predicate Collecting(store: RecordStore, scope: Scope, reach: set<StoredDataRef>, roots: seq<StoredDataRef>,
                             pending: seq<StoredDataRef>, allowed: set<StoredDataRef>, resolved: seq<StoredDataRef>) {
    && Progress(Citations(store), reach, roots, pending, allowed)
    && (forall x :: x in allowed ==> Admit(store, scope, x).None?)
    && NoDuplicates(resolved) && Elements(resolved) == RecordRefs(allowed)
  }

  lemma CollectNew(store: RecordStore, scope: Scope, reach: set<StoredDataRef>, roots: seq<StoredDataRef>,
                   pending: seq<StoredDataRef>, i: nat, allowed: set<StoredDataRef>, resolved: seq<StoredDataRef>)
    requires Collecting(store, scope, reach, roots, pending, allowed, resolved)
    requires i < |pending| && pending[i] !in allowed && Admit(store, scope, pending[i]).None?
    ensures pending[i] in reach
    ensures Collecting(store, scope, reach, roots, Remove(pending, i) + Citations(store)(pending[i]),
                       allowed + {pending[i]},
                       if pending[i].recordId.Some? then resolved + [pending[i]] else resolved)
  {
    var ref := pending[i];
    PopNew(Citations(store), reach, roots, pending, allowed, i);
    if ref.recordId.Some? {
      assert ref !in Elements(resolved);
      AppendKeepsNoDuplicates(resolved, ref);
      assert RecordRefs(allowed + {ref}) == RecordRefs(allowed) + {ref};
    } else {
      assert RecordRefs(allowed + {ref}) == RecordRefs(allowed);
    }
  }

  lemma CollectDone(store: RecordStore, scope: Scope, reach: set<StoredDataRef>, roots: seq<StoredDataRef>,
                    allowed: set<StoredDataRef>, resolved: seq<StoredDataRef>)
    requires IsReach(Citations(store), roots, reach)
    requires Collecting(store, scope, reach, roots, [], allowed, resolved)
    ensures AllAdmitted(store, scope, roots) && IsClosure(store, roots, Closure(allowed, resolved))
  {
    Finished(Citations(store), reach, roots, allowed);
  }

  // Whatever the order of popping, the loop succeeds on the same inputs with the same set.
  lemma {:induction false} DrainOutcome(store: RecordStore, scope: Scope, pick: Choice, reach: set<StoredDataRef>,
                                        roots: seq<StoredDataRef>, pending: seq<StoredDataRef>,
                                        allowed: set<StoredDataRef>, resolved: seq<StoredDataRef>)
    requires Chooses(pick) && IsReach(Citations(store), roots, reach)
    requires Collecting(store, scope, reach, roots, pending, allowed, resolved)
    ensures var out := Drain(store, scope, pick, reach, pending, allowed, resolved);
      (out.Ok? <==> AllAdmitted(store, scope, roots)) && (out.Ok? ==> IsClosure(store, roots, out.value))
    decreases reach - allowed, |pending|
  {
    if pending == [] {
      CollectDone(store, scope, reach, roots, allowed, resolved);
    } else {
      var i := pick(pending, allowed);
      var ref, rest := pending[i], Remove(pending, i);
      RemoveElements(pending, i);
      if ref in allowed {
        PopKnown(Citations(store), reach, roots, pending, allowed, i);
        DrainOutcome(store, scope, pick, reach, roots, rest, allowed, resolved);
      } else if Admit(store, scope, ref).Some? {
        assert CitedFrom(store, roots, ref);
      } else {
        CollectNew(store, scope, reach, roots, pending, i, allowed, resolved);
        DrainOutcome(store, scope, pick, reach, roots, rest + Citations(store)(ref), allowed + {ref},
                     if ref.recordId.Some? then resolved + [ref] else resolved);
      }
    }
  }

  // Two runs with different popping rules agree on success and on the closure.
  lemma {:induction false} PopOrderDoesNotMatter(store: RecordStore, scope: Scope, roots: seq<StoredDataRef>,
                                                 pick: Choice, other: Choice, reach: set<StoredDataRef>)
    requires Chooses(pick) && Chooses(other)
    requires IsReach(Citations(store), roots, reach) && Holdable(store, reach, roots)
    ensures var a := Drain(store, scope, pick, reach, roots, {}, []);
      var b := Drain(store, scope, other, reach, roots, {}, []);
      && (a.Ok? <==> b.Ok?)
      && (a.Ok? ==> a.value.allowed == b.value.allowed && Elements(a.value.resolved) == Elements(b.value.resolved))
  {
    DrainOutcome(store, scope, pick, reach, roots, roots, {}, []);
    DrainOutcome(store, scope, other, reach, roots, roots, {}, []);
    var a := Drain(store, scope, pick, reach, roots, {}, []);
    var b := Drain(store, scope, other, reach, roots, {}, []);
    if a.Ok? {
      assert forall x :: x in a.value.allowed <==> x in b.value.allowed;
    }
  }

  // Holds the roots, and everything that one of its records cites.
  ghost predicate HoldsCited(roots: seq<StoredDataRef>, s: set<StoredDataRef>,
                             cites: (StoredDataRef, StoredDataRef) -> bool) {
    && (forall r :: r in roots ==> r in s)
    && forall ref, x :: ref in s && cites(ref, x) ==> x in s
  }

  // Holds the roots and what its records cite, nothing else, and lies in every other such set.
  ghost predicate IsLeast(roots: seq<StoredDataRef>, s: set<StoredDataRef>,
                          cites: (StoredDataRef, StoredDataRef) -> bool) {
    && HoldsCited(roots, s, cites)
    && (forall x :: x in s ==> x in roots || exists ref :: ref in s && cites(ref, x))
    && forall other :: HoldsCited(roots, other, cites) ==> s <= other
  }

  lemma ReachIsLeast(next: StoredDataRef -> seq<StoredDataRef>, roots: seq<StoredDataRef>, s: set<StoredDataRef>,
                     cites: (StoredDataRef, StoredDataRef) -> bool)
    requires IsReach(next, roots, s) && forall ref, x :: x in next(ref) <==> cites(ref, x)
    ensures IsLeast(roots, s, cites)
  {
    forall r | r in roots ensures r in s {
      ReachesSelf(next, r);
    }
    forall ref, x | ref in s && cites(ref, x) ensures x in s {
      var r :| r in roots && Reaches(next, r, ref);
      StepReaches(next, ref, x);
      ReachesTransitive(next, r, ref, x);
    }
    forall x | x in s ensures x in roots || exists ref :: ref in s && cites(ref, x) {
      var r :| r in roots && Reaches(next, r, x);
      if r != x {
        var ref := LastStep(next, r, x);
        assert From(next, roots, ref);
      }
    }
    forall other | HoldsCited(roots, other, cites) ensures s <= other {
      forall x | x in s ensures x in other {
        var r :| r in roots && Reaches(next, r, x);
        ClosedKeepsReachable(next, other, r, x);
      }
    }
  }

  lemma LastStep(next: StoredDataRef -> seq<StoredDataRef>, r: StoredDataRef, x: StoredDataRef)
    returns (ref: StoredDataRef)
    requires Reaches(next, r, x) && r != x
    ensures Reaches(next, r, ref) && x in next(ref)
  {
    var p :| IsPath(next, p) && p[0] == r && p[|p| - 1] == x;
    ref := p[|p| - 2];
    assert IsPath(next, p[..|p| - 1]);
  }

  ghost function CitesIn(store: RecordStore): (StoredDataRef, StoredDataRef) -> bool {
    (ref, x) => Cites(store, ref, x)
  }

  ghost function CitesEvidenceIn(store: RecordStore): (StoredDataRef, StoredDataRef) -> bool {
    (ref, x) => CitesEvidence(store, ref, x)
  }

  // The closure is the least set that holds the roots and whatever a model inside one of its
  // records names as evidence or as a code fragment.
  lemma ClosureIsLeast(store: RecordStore, roots: seq<StoredDataRef>, c: Closure)
    requires IsClosure(store, roots, c)
    ensures IsLeast(roots, c.allowed, CitesIn(store))
  {
    forall ref, x ensures x in Citations(store)(ref) <==> CitesIn(store)(ref, x) {
      EdgesCite(store, ref, x);
    }
    ReachIsLeast(Citations(store), roots, c.allowed, CitesIn(store));
  }

  // ------------------------------------------------------------------ the loops

  ghost predicate RecordsOf(store: RecordStore, refs: seq<StoredDataRef>, records: seq<DomainRecord>) {
    && |records| == |refs|
    && forall k :: 0 <= k < |refs| ==> refs[k] in store && records[k] == store[refs[k]] && records[k].selfRef == refs[k]
  }

  lemma RecordsGrow(store: RecordStore, scope: Scope, refs: seq<StoredDataRef>, records: seq<DomainRecord>,
                    ref: StoredDataRef)
    requires RecordsOf(store, refs, records) && Admit(store, scope, ref).None? && ref.recordId.Some?
    ensures ref in store && RecordsOf(store, refs + [ref], records + [store[ref]])
  {
  }

  method CloseEvidence(roots: seq<StoredDataRef>, scope: Scope, store: RecordStore)
    returns (r: Result<(set<StoredDataRef>, seq<DomainRecord>), EvidenceError>, ghost refs: seq<StoredDataRef>)
    ensures r.Ok? <==> AllAdmitted(store, scope, roots)
    ensures r.Ok? ==> IsClosure(store, roots, Closure(r.value.0, refs)) && RecordsOf(store, refs, r.value.1)
    ensures r.Ok? ==> IsLeast(roots, r.value.0, CitesIn(store))
    ensures r.Err? ==> exists x :: CitedFrom(store, roots, x) && Admit(store, scope, x) == Some(r.error)
  {
    ghost var reach := FindCited(store, roots, Citations(store));
    var allowed: set<StoredDataRef> := {};
    var resolved: seq<DomainRecord> := [];
    var pending := roots;
    refs := [];
    while pending != []
      invariant Collecting(store, scope, reach, roots, pending, allowed, refs)
      invariant RecordsOf(store, refs, resolved)
      decreases reach - allowed, |pending|
    {
      var top := |pending| - 1;
      var ref := pending[top];
      var rest := pending[..top];
      RemoveElements(pending, top);
      if ref in allowed {
        PopKnown(Citations(store), reach, roots, pending, allowed, top);
        pending := rest;
      } else {
        assert CitedFrom(store, roots, ref);
        if ref.workspaceId != scope.workspaceId || ref.commitId != scope.commitId {
          r := Err(ClosureMismatch);
          return;
        }
        var cited: seq<StoredDataRef> := [];
        if ref.recordId.Some? {
          var record := Exact(store, ref);
          if record.Err? {
            r := Err(record.error);
            return;
          }
          if record.value.analysisId != scope.analysisId || record.value.workspaceId != scope.workspaceId
             || record.value.commitId != scope.commitId
          {
            r := Err(ClosureMismatch);
            return;
          }
          RecordsGrow(store, scope, refs, resolved, ref);
          resolved := resolved + [record.value];
          cited := CitationsOf(Walk(record.value.body));
        }
        CollectNew(store, scope, reach, roots, pending, top, allowed, refs);
        allowed := allowed + {ref};
        refs := if ref.recordId.Some? then refs + [ref] else refs;
        pending := rest + cited;
      }
    }
    CollectDone(store, scope, reach, roots, allowed, refs);
    ClosureIsLeast(store, roots, Closure(allowed, refs));
    r := Ok((allowed, resolved));
  }

  // ----------------------------------------------- the second, unscoped worklist

  ghost predicate ResolvedFrom(store: RecordStore, roots: seq<StoredDataRef>, ref: StoredDataRef) {
    ref.recordId.Some? && From(EvidenceEdges(store), roots, ref)
  }

  // Between pops; `seen` also counts the skipped references without a record.
  ghost predicate Resolving(store: RecordStore, reach: set<StoredDataRef>, roots: seq<StoredDataRef>,
                            pending: seq<StoredDataRef>, seen: set<StoredDataRef>,
                            resolved: map<StoredDataRef, DomainRecord>) {
    && Progress(EvidenceEdges(store), reach, roots, pending, seen)
    && resolved.Keys == RecordRefs(seen)
    && forall x :: x in resolved ==> ExactFault(store, x).None? && resolved[x] == store[x]
  }

  lemma ResolveSkip(store: RecordStore, reach: set<StoredDataRef>, roots: seq<StoredDataRef>,
                    pending: seq<StoredDataRef>, seen: set<StoredDataRef>, resolved: map<StoredDataRef, DomainRecord>)
    requires Resolving(store, reach, roots, pending, seen, resolved) && pending != []
    requires var ref := pending[|pending| - 1]; ref.recordId.None? || ref in resolved
    ensures pending[|pending| - 1] in reach
    ensures Resolving(store, reach, roots, pending[..|pending| - 1], seen + {pending[|pending| - 1]}, resolved)
  {
    var top := |pending| - 1;
    var ref, rest := pending[top], pending[..top];
    RemoveElements(pending, top);
    if ref in seen {
      PopKnown(EvidenceEdges(store), reach, roots, pending, seen, top);
      assert seen + {ref} == seen;
    } else {
      PopNew(EvidenceEdges(store), reach, roots, pending, seen, top);
      assert rest + EvidenceEdges(store)(ref) == rest;
      assert RecordRefs(seen + {ref}) == RecordRefs(seen);
    }
  }

  lemma ResolveNew(store: RecordStore, reach: set<StoredDataRef>, roots: seq<StoredDataRef>,
                   pending: seq<StoredDataRef>, seen: set<StoredDataRef>, resolved: map<StoredDataRef, DomainRecord>)
    requires Resolving(store, reach, roots, pending, seen, resolved) && pending != []
    requires var ref := pending[|pending| - 1]; ref.recordId.Some? && ref !in resolved && ExactFault(store, ref).None?
    ensures var ref := pending[|pending| - 1];
      ref in reach && ref !in seen
      && Resolving(store, reach, roots, pending[..|pending| - 1] + EvidenceEdges(store)(ref), seen + {ref},
                   resolved[ref := store[ref]])
  {
    var top := |pending| - 1;
    var ref := pending[top];
    var more := resolved[ref := store[ref]];
    assert ref !in seen by {
      assert ref in seen ==> ref in RecordRefs(seen);
    }
    RemoveElements(pending, top);
    PopNew(EvidenceEdges(store), reach, roots, pending, seen, top);
    assert RecordRefs(seen + {ref}) == RecordRefs(seen) + {ref};
    assert more.Keys == resolved.Keys + {ref};
    forall x | x in more ensures ExactFault(store, x).None? && more[x] == store[x] {
      if x != ref {
        assert x in resolved;
      }
    }
  }

  // The record references of the least set that holds the roots and is closed under evidence alone.
  ghost predicate AreLeastRecords(store: RecordStore, roots: seq<StoredDataRef>, refs: set<StoredDataRef>) {
    exists s :: IsLeast(roots, s, CitesEvidenceIn(store)) && refs == RecordRefs(s)
  }

  lemma EvidenceReachIsLeast(store: RecordStore, roots: seq<StoredDataRef>, reach: set<StoredDataRef>)
    requires IsReach(EvidenceEdges(store), roots, reach)
    ensures AreLeastRecords(store, roots, RecordRefs(reach))
  {
    forall ref, x ensures x in EvidenceEdges(store)(ref) <==> CitesEvidenceIn(store)(ref, x) {
      EdgesCite(store, ref, x);
    }
    ReachIsLeast(EvidenceEdges(store), roots, reach, CitesEvidenceIn(store));
  }

  method ResolveEvidence(roots: seq<StoredDataRef>, store: RecordStore)
    returns (r: Result<map<StoredDataRef, DomainRecord>, EvidenceError>)
    ensures r.Ok? <==> forall x :: ResolvedFrom(store, roots, x) ==> ExactFault(store, x).None?
    ensures r.Ok? ==> forall x :: x in r.value <==> ResolvedFrom(store, roots, x)
    ensures r.Ok? ==> forall x :: x in r.value ==> x in store && r.value[x] == store[x] && store[x].selfRef == x
    ensures r.Err? ==> exists x :: ResolvedFrom(store, roots, x) && ExactFault(store, x) == Some(r.error)
    ensures r.Ok? ==> AreLeastRecords(store, roots, r.value.Keys)
  {
    ghost var reach := FindCited(store, roots, EvidenceEdges(store));
    var resolved: map<StoredDataRef, DomainRecord> := map[];
    var pending := roots;
    ghost var seen: set<StoredDataRef> := {};
    while pending != []
      invariant Resolving(store, reach, roots, pending, seen, resolved)
      decreases reach - seen, |pending|
    {
      var top := |pending| - 1;
      var ref := pending[top];
      var rest := pending[..top];
      RemoveElements(pending, top);
      if ref.recordId.None? || ref in resolved {
        ResolveSkip(store, reach, roots, pending, seen, resolved);
        seen := seen + {ref};
        pending := rest;
      } else {
        var record := Exact(store, ref);
        if record.Err? {
          assert ResolvedFrom(store, roots, ref);
          return Err(record.error);
        }
        ResolveNew(store, reach, roots, pending, seen, resolved);
        seen := seen + {ref};
        resolved := resolved[ref := record.value];
        pending := rest + EvidenceOf(Walk(record.value.body));
      }
    }
    Finished(EvidenceEdges(store), reach, roots, seen);
    EvidenceReachIsLeast(store, roots, reach);
    return Ok(resolved);
  }

  // What the dynamic closure resolves from the same roots lies inside the closure.
  lemma ResolvedIsInsideClosure(store: RecordStore, scope: Scope, roots: seq<StoredDataRef>, c: Closure)
    requires AllAdmitted(store, scope, roots) && IsClosure(store, roots, c)
    ensures forall x :: ResolvedFrom(store, roots, x) ==>
      x in c.allowed && x in c.resolved && ExactFault(store, x).None?
  {
    forall x | ResolvedFrom(store, roots, x)
      ensures x in c.allowed && x in c.resolved && ExactFault(store, x).None?
    {
      var r :| r in roots && Reaches(EvidenceEdges(store), r, x);
      EvidencePathIsCited(store, r, x);
      assert CitedFrom(store, roots, x);
      assert x in Elements(c.resolved);
    }
  }

  lemma EvidencePathIsCited(store: RecordStore, a: StoredDataRef, b: StoredDataRef)
    requires Reaches(EvidenceEdges(store), a, b)
    ensures Reaches(Citations(store), a, b)
  {
    var p :| IsPath(EvidenceEdges(store), p) && p[0] == a && p[|p| - 1] == b;
    forall i | 0 <= i < |p| - 1 ensures p[i + 1] in Citations(store)(p[i]) {
      assert p[i + 1] in EvidenceEdges(store)(p[i]);
      EvidenceIsCited(Walk(store[p[i]].body));
    }
    assert IsPath(Citations(store), p);
  }
}
