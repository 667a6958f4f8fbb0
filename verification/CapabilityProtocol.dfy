/** Any number of approvers over one store and registry (capabilities/service.py). */
module CapabilityProtocol {
  import opened Basics
  import opened CapabilityStore

  // ------------------------------------------------------------------ derived records

  ghost function Mint(receipt: Receipt, approver: string, freshId: string, now: nat): Approval {
    Approval(freshId, "approval-" + receipt.probeId, receipt.hostId, receipt.identity,
             TargetHash(receipt.hostId, receipt.kind, receipt.identity), now, approver)
  }

  // The approval is minted from this receipt of a passed probe, and not dated before the probe.
  ghost predicate MintedFor(receipt: Receipt, a: Approval) {
    && a == Mint(receipt, a.approvedBy, a.recordId, a.approvedAt) && receipt.checkedAt <= a.approvedAt
    && receipt.passed && receipt.activationSupported
  }

  ghost function ApprovalRef(a: Approval): HostRef {
    HostRef(a.hostId, a.recordId, OfApproval(a))
  }

  // The published profile depends on the receipt and the stored approval only.
  ghost function ProfileRef(receipt: Receipt, a: Approval): HostRef {
    var id := "profile-" + receipt.probeId;
    HostRef(receipt.hostId, id,
            OfProfile(Profile(id, receipt.hostId, receipt.kind, receipt.identity, ApprovalRef(a), a.approvedAt)))
  }

  ghost predicate NamesApproval(ref: HostRef) {
    ref.digest.OfProfile? && ref.digest.profile.evidence.digest.OfApproval?
  }

  ghost function ApprovalBehind(ref: HostRef): Approval
    requires NamesApproval(ref)
  {
    ref.digest.profile.evidence.digest.approval
  }

  lemma ProfileRefIsInjective(r: Receipt, a: Approval, s: Receipt, b: Approval)
    requires ProfileRef(r, a) == ProfileRef(s, b)
    ensures r.probeId == s.probeId && a == b
  {
    assert ("profile-" + r.probeId)[|"profile-"|..] == r.probeId;
    assert ("profile-" + s.probeId)[|"profile-"|..] == s.probeId;
  }

  // ---------------------------------------------------------------------- the machine

  // Where one running `approve` call stands; each phase ends with one statement on shared state.
  datatype Phase =
    | Called
    | Reading(receipt: Receipt)
    | Resolving(ref: HostRef)
    | Pending(receipt: Receipt, approver: string)
    | Authorizing(receipt: Receipt, approval: Approval)
    | Registering(receipt: Receipt, approval: Approval)
    | Profiling(receipt: Receipt, approval: Approval)
    | Publishing(receipt: Receipt, approval: Approval)
    | Inserting(receipt: Receipt, approval: Approval)

  datatype Worker = Worker(hostId: string, probe: string, expected: TargetHash, phase: Phase)

  datatype World = World(
    tables: Tables, registry: set<HostRef>, workers: map<nat, Worker>, returned: seq<(string, HostRef)>)

  // What the surroundings decide for one step: whether its checks and its I/O succeed, who
  // is logged in, the clock and the next random identifier.
  datatype Choice = Choice(ok: bool, approver: Option<string>, now: nat, freshId: string)

  datatype Action =
    | Add(host: string, receipt: Receipt)
    | Call(w: nat, host: string, probe: string, expected: TargetHash)
    | Advance(w: nat, choice: Choice)
    | Crash(w: nat)
    | Revoke(host: string, digest: Digest)
    | Unpublish(probe: string)

  ghost function Raise(s: World, w: nat): World {
    s.(workers := s.workers - {w})
  }

  ghost function Move(s: World, w: nat, phase: Phase): World
    requires w in s.workers
  {
    s.(workers := s.workers[w := s.workers[w].(phase := phase)])
  }

  ghost function Return(s: World, w: nat, ref: HostRef): World
    requires w in s.workers
  {
    s.(returned := s.returned + [(s.workers[w].probe, ref)], workers := s.workers - {w})
  }

  // `resolve_pinned_active_profile`: the profile is registered and its approval still stands.
  ghost predicate Resolves(s: World, host: string, ref: HostRef) {
    && ref in s.registry && NamesApproval(ref)
    && ref.digest.profile.evidence in s.registry
    && Authorized(s.tables, host, ApprovalBehind(ref))
  }

  ghost predicate MayRegisterProfile(s: World, host: string, receipt: Receipt, a: Approval) {
    && ApprovalRef(a) in s.registry && Authorized(s.tables, host, a)
    && a.target == TargetHash(receipt.hostId, receipt.kind, receipt.identity)
  }

  ghost function Check(s: World, w: nat, receipt: Receipt, choice: Choice): World
    requires w in s.workers
  {
    var probe := s.workers[w].probe;
    if probe in s.tables.published then Move(s, w, Resolving(s.tables.published[probe]))
    else if !Activatable(receipt) || receipt.target != Some(s.workers[w].expected) then Raise(s, w)
    else if choice.approver.None? || !choice.ok then Raise(s, w)
    else Move(s, w, Pending(receipt, choice.approver.value))
  }

  ghost function LookForApproval(s: World, w: nat, receipt: Receipt, approver: string, choice: Choice): World
    requires w in s.workers
  {
    var me := s.workers[w];
    if exists a :: Stores(s.tables, me.hostId, me.probe, a) then
      var a :| Stores(s.tables, me.hostId, me.probe, a);
      if a.approvedBy != approver then Raise(s, w) else Move(s, w, Registering(receipt, a))
    else if !choice.ok || choice.now < receipt.checkedAt then Raise(s, w)
    else Move(s, w, Authorizing(receipt, Mint(receipt, approver, choice.freshId, choice.now)))
  }

  ghost function Publish(s: World, w: nat, receipt: Receipt, a: Approval): World
    requires w in s.workers
  {
    var probe := s.workers[w].probe;
    if probe !in s.tables.published then Move(s, w, Inserting(receipt, a))
    else if s.tables.published[probe] != ProfileRef(receipt, a) then Raise(s, w)
    else Return(s, w, ProfileRef(receipt, a))
  }

  ghost function Insert(s: World, w: nat, receipt: Receipt, a: Approval): World
    requires w in s.workers
  {
    var probe, ref := s.workers[w].probe, ProfileRef(receipt, a);
    if probe in s.tables.published then Raise(s, w)
    else Return(s.(tables := s.tables.(published := s.tables.published[probe := ref])), w, ref)
  }

  // The next statement of worker `w`.
  ghost function Next(s: World, w: nat, choice: Choice): World
    requires w in s.workers
  {
    var me := s.workers[w];
    match me.phase
    case Called =>
      var read := ReadReceipt(s.tables, me.hostId, me.probe);
      if read.Err? then Raise(s, w) else Move(s, w, Reading(read.value))
    case Reading(receipt) => Check(s, w, receipt, choice)
    case Resolving(ref) => if choice.ok && Resolves(s, me.hostId, ref) then Return(s, w, ref) else Raise(s, w)
    case Pending(receipt, approver) => LookForApproval(s, w, receipt, approver, choice)
    case Authorizing(receipt, a) =>
      if choice.ok && Activatable(receipt) && CanInsert(s.tables, me.probe, a)
      then Move(s.(tables := InsertApproval(s.tables, me.hostId, me.probe, a)), w, Registering(receipt, a))
      else Raise(s, w)
    case Registering(receipt, a) =>
      if choice.ok && Authorized(s.tables, me.hostId, a)
      then Move(s.(registry := s.registry + {ApprovalRef(a)}), w, Profiling(receipt, a))
      else Raise(s, w)
    case Profiling(receipt, a) =>
      if choice.ok && MayRegisterProfile(s, me.hostId, receipt, a)
      then Move(s.(registry := s.registry + {ProfileRef(receipt, a)}), w, Publishing(receipt, a))
      else Raise(s, w)
    case Publishing(receipt, a) => if choice.ok then Publish(s, w, receipt, a) else Raise(s, w)
    case Inserting(receipt, a) => if choice.ok then Insert(s, w, receipt, a) else Raise(s, w)
  }

  ghost function Apply(s: World, action: Action): World {
    match action
    case Add(host, receipt) =>
      if receipt.hostId == host && receipt.approvedRef.None? && receipt.probeId !in s.tables.receipts
      then s.(tables := s.tables.(receipts := s.tables.receipts[receipt.probeId := ReceiptRow(host, receipt)]))
      else s
    case Call(w, host, probe, expected) => s.(workers := s.workers[w := Worker(host, probe, expected, Called)])
    case Advance(w, choice) => if w in s.workers then Next(s, w, choice) else s
    case Crash(w) => Raise(s, w)
    case Revoke(host, digest) =>
      if digest in s.tables.approvals && s.tables.approvals[digest].hostId == host
      then s.(tables := s.tables.(approvals := s.tables.approvals - {digest}))
      else s
    case Unpublish(probe) => s.(tables := s.tables.(published := s.tables.published - {probe}))
  }

  ghost function Run(s: World, actions: seq<Action>): World
    decreases |actions|
  {
    if actions == [] then s else Run(Apply(s, actions[0]), actions[1..])
  }

  const START: World := World(Tables(map[], map[], map[]), {}, map[], [])

  // ------------------------------------------------------------------------ invariants

  // The receipt a worker remembers is the stored one.
  ghost predicate Knows(t: Tables, me: Worker, receipt: Receipt) {
    && me.probe in t.receipts
    && t.receipts[me.probe] == ReceiptRow(me.hostId, receipt)
  }

  ghost predicate HoldsApproval(phase: Phase) {
    phase.Registering? || phase.Profiling? || phase.Publishing? || phase.Inserting?
  }

  ghost predicate WorkerFits(s: World, me: Worker) {
    match me.phase
    case Called => true
    case Reading(receipt) => Knows(s.tables, me, receipt)
    case Resolving(ref) => me.probe in s.tables.published && s.tables.published[me.probe] == ref
    case Pending(receipt, _) => Knows(s.tables, me, receipt) && receipt.passed && receipt.activationSupported
    case Authorizing(receipt, a) => Knows(s.tables, me, receipt) && MintedFor(receipt, a)
    case Registering(receipt, a) => Knows(s.tables, me, receipt) && MintedFor(receipt, a)
    case Profiling(receipt, a) =>
      Knows(s.tables, me, receipt) && MintedFor(receipt, a) && Covers(receipt, a) && ApprovalRef(a) in s.registry
    case Publishing(receipt, a) => MayPublish(s, me, receipt, a)
    case Inserting(receipt, a) => MayPublish(s, me, receipt, a)
  }

  ghost predicate MayPublish(s: World, me: Worker, receipt: Receipt, a: Approval) {
    && Knows(s.tables, me, receipt) && MintedFor(receipt, a) && Covers(receipt, a)
    && ApprovalRef(a) in s.registry && ProfileRef(receipt, a) in s.registry
  }

  // A published reference is the profile of the probe's receipt under some approval minted
  // for that receipt, and the registry holds both.
  ghost predicate IsPublication(s: World, probe: string, ref: HostRef) {
    && probe in s.tables.receipts && NamesApproval(ref)
    && MintedFor(s.tables.receipts[probe].payload, ApprovalBehind(ref))
    && Covers(s.tables.receipts[probe].payload, ApprovalBehind(ref))
    && ref == ProfileRef(s.tables.receipts[probe].payload, ApprovalBehind(ref))
    && ref in s.registry && ApprovalRef(ApprovalBehind(ref)) in s.registry
  }

  ghost predicate ApprovalsMinted(t: Tables) {
    forall h :: h in t.approvals ==>
      t.approvals[h].probeId in t.receipts
      && MintedFor(t.receipts[t.approvals[h].probeId].payload, t.approvals[h].payload)
  }

  ghost predicate Safe(s: World) {
    && WellFormed(s.tables) && ApprovalsMinted(s.tables)
    && (forall p :: p in s.tables.published ==> IsPublication(s, p, s.tables.published[p]))
    && (forall w :: w in s.workers ==> WorkerFits(s, s.workers[w]))
    && (forall r :: r in s.returned ==> r.0 in s.tables.published && s.tables.published[r.0] == r.1)
  }

  // Receipts, publications and registered records only accumulate.
  ghost predicate Grows(s: World, t: World) {
    && (forall p :: p in s.tables.receipts ==>
          p in t.tables.receipts && t.tables.receipts[p] == s.tables.receipts[p])
    && (forall p :: p in s.tables.published ==>
          p in t.tables.published && t.tables.published[p] == s.tables.published[p])
    && s.registry <= t.registry
  }

  // What one step adds fits by itself.
  ghost predicate AdditionsFit(s: World, t: World) {
    && WellFormed(t.tables) && ApprovalsMinted(t.tables)
    && (forall p :: p in t.tables.published ==>
          p in s.tables.published || IsPublication(t, p, t.tables.published[p]))
    && (forall w :: w in t.workers ==>
          (w in s.workers && s.workers[w] == t.workers[w]) || WorkerFits(t, t.workers[w]))
    && (forall r :: r in t.returned ==>
          r in s.returned || (r.0 in t.tables.published && t.tables.published[r.0] == r.1))
  }

  lemma GrowthKeepsWorker(s: World, t: World, me: Worker)
    requires Grows(s, t) && WorkerFits(s, me)
    ensures WorkerFits(t, me)
  {
  }

  lemma GrowthKeepsSafe(s: World, t: World)
    requires Safe(s) && Grows(s, t) && AdditionsFit(s, t)
    ensures Safe(t)
  {
    forall w | w in t.workers ensures WorkerFits(t, t.workers[w]) {
      if w in s.workers && s.workers[w] == t.workers[w] {
        GrowthKeepsWorker(s, t, t.workers[w]);
      }
    }
  }

  lemma RaiseFits(s: World, w: nat)
    requires Safe(s)
    ensures Grows(s, Raise(s, w)) && AdditionsFit(s, Raise(s, w))
  {
  }

  // A worker moves on after the registry took `added`.
  lemma MoveFits(s: World, w: nat, phase: Phase, added: set<HostRef>)
    requires Safe(s) && w in s.workers
    requires WorkerFits(s.(registry := s.registry + added), s.workers[w].(phase := phase))
    ensures var t := Move(s.(registry := s.registry + added), w, phase); Grows(s, t) && AdditionsFit(s, t)
    ensures added == {} ==> Move(s.(registry := s.registry + added), w, phase) == Move(s, w, phase)
  {
    var t := Move(s.(registry := s.registry + added), w, phase);
    GrowthKeepsWorker(s.(registry := s.registry + added), t, t.workers[w]);
    assert added == {} ==> s.registry + added == s.registry;
  }

  lemma ReturnFits(s: World, w: nat, ref: HostRef)
    requires Safe(s) && w in s.workers
    requires s.workers[w].probe in s.tables.published && s.tables.published[s.workers[w].probe] == ref
    ensures Grows(s, Return(s, w, ref)) && AdditionsFit(s, Return(s, w, ref))
  {
  }

  lemma LookFits(s: World, w: nat, receipt: Receipt, approver: string, choice: Choice)
    requires Safe(s) && w in s.workers && Knows(s.tables, s.workers[w], receipt)
    requires receipt.passed && receipt.activationSupported
    ensures Grows(s, LookForApproval(s, w, receipt, approver, choice))
    ensures AdditionsFit(s, LookForApproval(s, w, receipt, approver, choice))
  {
    var me := s.workers[w];
    RaiseFits(s, w);
    forall a | Stores(s.tables, me.hostId, me.probe, a) ensures WorkerFits(s, me.(phase := Registering(receipt, a))) {
    }
    if a :| Stores(s.tables, me.hostId, me.probe, a) {
      forall b | Stores(s.tables, me.hostId, me.probe, b) ensures b == a {
        StoredApprovalIsUnique(s.tables, me.hostId, me.probe, a, b);
      }
      MoveFits(s, w, Registering(receipt, a), {});
    } else if choice.ok && receipt.checkedAt <= choice.now {
      MoveFits(s, w, Authorizing(receipt, Mint(receipt, approver, choice.freshId, choice.now)), {});
    }
  }

  lemma InsertedFits(t: Tables, host: string, probe: string, receipt: Receipt, a: Approval)
    requires WellFormed(t) && ApprovalsMinted(t) && MintedFor(receipt, a) && CanInsert(t, probe, a)
    requires probe in t.receipts && t.receipts[probe] == ReceiptRow(host, receipt)
    ensures WellFormed(InsertApproval(t, host, probe, a)) && ApprovalsMinted(InsertApproval(t, host, probe, a))
  {
  }

  lemma AuthorizeFits(s: World, w: nat, receipt: Receipt, a: Approval)
    requires Safe(s) && w in s.workers && Knows(s.tables, s.workers[w], receipt) && MintedFor(receipt, a)
    requires CanInsert(s.tables, s.workers[w].probe, a)
    ensures var me := s.workers[w];
            var t := Move(s.(tables := InsertApproval(s.tables, me.hostId, me.probe, a)), w, Registering(receipt, a));
            Grows(s, t) && AdditionsFit(s, t)
  {
    var me := s.workers[w];
    InsertedFits(s.tables, me.hostId, me.probe, receipt, a);
  }

  lemma InsertFits(s: World, w: nat, receipt: Receipt, a: Approval)
    requires Safe(s) && w in s.workers && MayPublish(s, s.workers[w], receipt, a)
    requires s.workers[w].probe !in s.tables.published
    ensures Grows(s, Insert(s, w, receipt, a)) && AdditionsFit(s, Insert(s, w, receipt, a))
  {
    var t := Insert(s, w, receipt, a);
    assert IsPublication(t, s.workers[w].probe, ProfileRef(receipt, a));
    assert WellFormed(t.tables);
  }

  lemma CheckFits(s: World, w: nat, receipt: Receipt, choice: Choice)
    requires Safe(s) && w in s.workers && Knows(s.tables, s.workers[w], receipt)
    ensures Grows(s, Check(s, w, receipt, choice)) && AdditionsFit(s, Check(s, w, receipt, choice))
  {
    var me := s.workers[w];
    RaiseFits(s, w);
    if me.probe in s.tables.published {
      MoveFits(s, w, Resolving(s.tables.published[me.probe]), {});
    } else if choice.approver.Some? && receipt.passed && receipt.activationSupported {
      MoveFits(s, w, Pending(receipt, choice.approver.value), {});
    }
  }

  lemma PublishFits(s: World, w: nat, receipt: Receipt, a: Approval)
    requires Safe(s) && w in s.workers && MayPublish(s, s.workers[w], receipt, a)
    ensures Grows(s, Publish(s, w, receipt, a)) && AdditionsFit(s, Publish(s, w, receipt, a))
  {
    var me := s.workers[w];
    RaiseFits(s, w);
    if me.probe !in s.tables.published {
      MoveFits(s, w, Inserting(receipt, a), {});
    } else if s.tables.published[me.probe] == ProfileRef(receipt, a) {
      ReturnFits(s, w, ProfileRef(receipt, a));
    }
  }

  lemma NextFits(s: World, w: nat, choice: Choice)
    requires Safe(s) && w in s.workers
    ensures Grows(s, Next(s, w, choice)) && AdditionsFit(s, Next(s, w, choice))
  {
    var me := s.workers[w];
    assert WorkerFits(s, me);
    match me.phase
    case Called =>
      RaiseFits(s, w);
      var read := ReadReceipt(s.tables, me.hostId, me.probe);
      if read.Ok? {
        MoveFits(s, w, Reading(read.value), {});
      }
    case Reading(receipt) => CheckFits(s, w, receipt, choice);
    case Resolving(ref) => RaiseFits(s, w); ReturnFits(s, w, ref);
    case Pending(receipt, approver) => LookFits(s, w, receipt, approver, choice);
    case _ => WriteFits(s, w, choice);
  }

  // Approvals minted for different probes differ, so an authorized one covers its own receipt.
  lemma AuthorizedCovers(s: World, host: string, receipt: Receipt, a: Approval)
    requires Safe(s) && MintedFor(receipt, a) && Authorized(s.tables, host, a)
    requires receipt.probeId in s.tables.receipts && s.tables.receipts[receipt.probeId].payload == receipt
    ensures Covers(receipt, a)
    ensures Stores(s.tables, host, receipt.probeId, a)
  {
    var row := s.tables.approvals[OfApproval(a)];
    assert ("approval-" + receipt.probeId)[|"approval-"|..] == receipt.probeId;
    assert ("approval-" + row.probeId)[|"approval-"|..] == row.probeId;
  }

  lemma RegisteredFits(s: World, w: nat, receipt: Receipt, a: Approval)
    requires Safe(s) && w in s.workers && s.workers[w].phase == Registering(receipt, a)
    requires Authorized(s.tables, s.workers[w].hostId, a)
    ensures var t := Move(s.(registry := s.registry + {ApprovalRef(a)}), w, Profiling(receipt, a));
            Grows(s, t) && AdditionsFit(s, t)
  {
    assert WorkerFits(s, s.workers[w]);
    AuthorizedCovers(s, s.workers[w].hostId, receipt, a);
    MoveFits(s, w, Profiling(receipt, a), {ApprovalRef(a)});
  }

  lemma ProfiledFits(s: World, w: nat, receipt: Receipt, a: Approval)
    requires Safe(s) && w in s.workers && s.workers[w].phase == Profiling(receipt, a)
    ensures var t := Move(s.(registry := s.registry + {ProfileRef(receipt, a)}), w, Publishing(receipt, a));
            Grows(s, t) && AdditionsFit(s, t)
  {
    assert WorkerFits(s, s.workers[w]);
    MoveFits(s, w, Publishing(receipt, a), {ProfileRef(receipt, a)});
  }

  lemma WriteFits(s: World, w: nat, choice: Choice)
    requires Safe(s) && w in s.workers
    requires s.workers[w].phase.Authorizing? || HoldsApproval(s.workers[w].phase)
    ensures Grows(s, Next(s, w, choice)) && AdditionsFit(s, Next(s, w, choice))
  {
    var me := s.workers[w];
    assert WorkerFits(s, me);
    RaiseFits(s, w);
    match me.phase
    case Authorizing(receipt, a) =>
      if CanInsert(s.tables, me.probe, a) {
        AuthorizeFits(s, w, receipt, a);
      }
    case Registering(receipt, a) =>
      if Authorized(s.tables, me.hostId, a) {
        RegisteredFits(s, w, receipt, a);
      }
    case Profiling(receipt, a) => ProfiledFits(s, w, receipt, a);
    case Publishing(receipt, a) => PublishFits(s, w, receipt, a);
    case Inserting(receipt, a) =>
      if me.probe !in s.tables.published {
        InsertFits(s, w, receipt, a);
      }
  }

  lemma AddedFits(t: Tables, host: string, receipt: Receipt)
    requires WellFormed(t) && ApprovalsMinted(t)
    requires receipt.hostId == host && receipt.approvedRef.None? && receipt.probeId !in t.receipts
    ensures var u := t.(receipts := t.receipts[receipt.probeId := ReceiptRow(host, receipt)]);
            WellFormed(u) && ApprovalsMinted(u)
  {
    var u := t.(receipts := t.receipts[receipt.probeId := ReceiptRow(host, receipt)]);
    assert ReceiptsFit(u) && ApprovalsFit(u);
  }

  lemma AddFits(s: World, host: string, receipt: Receipt)
    requires Safe(s)
    ensures Grows(s, Apply(s, Add(host, receipt))) && AdditionsFit(s, Apply(s, Add(host, receipt)))
  {
    if receipt.hostId == host && receipt.approvedRef.None? && receipt.probeId !in s.tables.receipts {
      AddedFits(s.tables, host, receipt);
    }
  }

  lemma RevokeFits(s: World, host: string, digest: Digest)
    requires Safe(s)
    ensures Grows(s, Apply(s, Revoke(host, digest))) && AdditionsFit(s, Apply(s, Revoke(host, digest)))
  {
    assert WellFormed(Apply(s, Revoke(host, digest)).tables);
  }

  // One step of anybody, crashes and revocations included.
  lemma ApplyFits(s: World, action: Action)
    requires Safe(s) && !action.Unpublish?
    ensures Grows(s, Apply(s, action)) && AdditionsFit(s, Apply(s, action))
  {
    match action
    case Advance(w, choice) =>
      if w in s.workers {
        NextFits(s, w, choice);
      }
    case Add(host, receipt) => AddFits(s, host, receipt);
    case Revoke(host, digest) => RevokeFits(s, host, digest);
    case _ =>
  }

  ghost predicate NeverUnpublishes(actions: seq<Action>) {
    forall i :: 0 <= i < |actions| ==> !actions[i].Unpublish?
  }

  ghost predicate NeverRevokes(actions: seq<Action>) {
    forall i :: 0 <= i < |actions| ==> !actions[i].Revoke?
  }

  // A published reference never changes, under any interleaving, crashes and revocations.
  lemma {:induction false} RunKeepsSafe(s: World, actions: seq<Action>)
    requires Safe(s) && NeverUnpublishes(actions)
    ensures Safe(Run(s, actions)) && Grows(s, Run(s, actions))
    decreases |actions|
  {
    if actions != [] {
      var t := Apply(s, actions[0]);
      ApplyFits(s, actions[0]);
      GrowthKeepsSafe(s, t);
      RunKeepsSafe(t, actions[1..]);
      assert Grows(t, Run(t, actions[1..]));
    }
  }
}
