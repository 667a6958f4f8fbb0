/** What holds over whole runs of the approval protocol, and when a retry succeeds. */
module CapabilityRuns {
  import opened Basics
  import opened CapabilityStore
  import opened CapabilityProtocol

  lemma StartIsSafe()
    ensures Safe(START)
  {
  }

  // All successful calls agree, whatever was interleaved, crashed or revoked.
  lemma {:induction false} ReturnsAgree(actions: seq<Action>)
    requires NeverUnpublishes(actions)
    ensures var s := Run(START, actions);
            && OneApprovalPerProbe(s.tables)
            && (forall r :: r in s.returned ==> IsPublication(s, r.0, r.1))
            && (forall q, r :: q in s.returned && r in s.returned ==> (q.0 == r.0 <==> q.1 == r.1))
  {
    var s := Run(START, actions);
    StartIsSafe();
    RunKeepsSafe(START, actions);
    forall q, r | q in s.returned && r in s.returned && q.1 == r.1 ensures q.0 == r.0 {
      ProfileRefIsInjective(s.tables.receipts[q.0].payload, ApprovalBehind(q.1),
                            s.tables.receipts[r.0].payload, ApprovalBehind(r.1));
    }
  }

  // What is returned for a probe was approved by somebody, after the probe passed, for exactly the
  // target and the identity that the probe found.
  lemma {:induction false} ReturnsAreApproved(actions: seq<Action>, probe: string, ref: HostRef)
    requires NeverUnpublishes(actions) && (probe, ref) in Run(START, actions).returned
    ensures var t := Run(START, actions).tables;
      probe in t.receipts && NamesApproval(ref)
      && var receipt, a := t.receipts[probe].payload, ApprovalBehind(ref);
      && receipt.passed && receipt.activationSupported && receipt.checkedAt <= a.approvedAt
      && receipt.target == Some(a.target) && receipt.identity == a.identity
      && a.logicalId == "approval-" + probe
      && var profile := ref.digest.profile;
      && profile.hostId == receipt.hostId && profile.kind == receipt.kind && profile.identity == receipt.identity
      && profile.recordId == "profile-" + probe && profile.createdAt == a.approvedAt
      && profile.evidence.hostId == a.hostId == receipt.hostId && profile.evidence.recordId == a.recordId
      && ref.hostId == receipt.hostId && ref.recordId == profile.recordId
  {
    StartIsSafe();
    RunKeepsSafe(START, actions);
  }

  // An approval disappears only when its own host revokes it.
  lemma OnlyItsHostRevokes(s: World, action: Action, digest: Digest)
    requires digest in s.tables.approvals && digest !in Apply(s, action).tables.approvals
    ensures action == Revoke(s.tables.approvals[digest].hostId, digest)
  {
  }

  // The next statement needs nothing from its surroundings: it only reads the store.
  ghost predicate OnlyReads(s: World, me: Worker) {
    match me.phase
    case Called => true
    case Reading(_) => me.probe in s.tables.published
    case Pending(_, _) => exists a :: Stores(s.tables, me.hostId, me.probe, a)
    case _ => false
  }

  // Any other statement whose checks or I/O fail ends the call with nothing changed and nothing
  // returned, and so does a missing approver.
  lemma FailureRaises(s: World, w: nat, choice: Choice)
    requires w in s.workers && !OnlyReads(s, s.workers[w])
    requires !choice.ok || (s.workers[w].phase.Reading? && choice.approver.None?)
    ensures Apply(s, Advance(w, choice)) == s.(workers := s.workers - {w})
  {
  }

  // ------------------------------------------------------------- with nothing revoked

  ghost predicate PublicationBacked(t: Tables, probe: string)
    requires probe in t.published
  {
    && probe in t.receipts && NamesApproval(t.published[probe])
    && Stores(t, t.receipts[probe].hostId, probe, ApprovalBehind(t.published[probe]))
  }

  ghost predicate WorkerBacked(t: Tables, me: Worker) {
    HoldsApproval(me.phase) ==> Stores(t, me.hostId, me.probe, me.phase.approval)
  }

  // The approval behind every publication and every later phase is stored.
  ghost predicate Backed(s: World) {
    && (forall p :: p in s.tables.published ==> PublicationBacked(s.tables, p))
    && (forall w :: w in s.workers ==> WorkerBacked(s.tables, s.workers[w]))
  }

  ghost predicate ApprovalsGrow(t: Tables, u: Tables) {
    forall h :: h in t.approvals ==> h in u.approvals && u.approvals[h] == t.approvals[h]
  }

  // A step moves one worker and publishes at most what that worker inserts.
  lemma NextLeavesOthers(s: World, w: nat, choice: Choice)
    requires w in s.workers
    ensures forall v :: v in Next(s, w, choice).workers && v != w ==>
              v in s.workers && Next(s, w, choice).workers[v] == s.workers[v]
  {
  }

  lemma NextTables(s: World, w: nat, choice: Choice)
    requires w in s.workers
    ensures var t, me := Next(s, w, choice).tables, s.workers[w];
            || t == s.tables
            || (me.phase.Authorizing? && CanInsert(s.tables, me.probe, me.phase.approval)
                && t == InsertApproval(s.tables, me.hostId, me.probe, me.phase.approval))
            || (me.phase.Inserting?
                && t == s.tables.(published :=
                      s.tables.published[me.probe := ProfileRef(me.phase.receipt, me.phase.approval)]))
  {
  }

  lemma NextPhaseBacked(s: World, w: nat, choice: Choice)
    requires w in s.workers && WorkerBacked(s.tables, s.workers[w])
    ensures w in Next(s, w, choice).workers ==>
              WorkerBacked(Next(s, w, choice).tables, Next(s, w, choice).workers[w])
  {
  }

  lemma NextKeepsApprovals(s: World, w: nat, choice: Choice)
    requires w in s.workers
    ensures ApprovalsGrow(s.tables, Next(s, w, choice).tables)
  {
    NextTables(s, w, choice);
  }

  lemma BackedStays(t: Tables, u: Tables, probe: string)
    requires probe in t.published && PublicationBacked(t, probe) && ApprovalsGrow(t, u)
    requires u.receipts == t.receipts && probe in u.published && u.published[probe] == t.published[probe]
    ensures PublicationBacked(u, probe)
  {
  }

  lemma NextPublicationsBacked(s: World, w: nat, choice: Choice)
    requires Safe(s) && Backed(s) && w in s.workers
    ensures var t := Next(s, w, choice).tables; forall p :: p in t.published ==> PublicationBacked(t, p)
  {
    var t, me := Next(s, w, choice).tables, s.workers[w];
    NextTables(s, w, choice);
    NextKeepsApprovals(s, w, choice);
    assert WorkerFits(s, me) && WorkerBacked(s.tables, me);
    forall p | p in t.published ensures PublicationBacked(t, p) {
      if p in s.tables.published && t.published[p] == s.tables.published[p] {
        BackedStays(s.tables, t, p);
      }
    }
  }

  lemma NextKeepsBacked(s: World, w: nat, choice: Choice)
    requires Safe(s) && Backed(s) && w in s.workers
    ensures Backed(Next(s, w, choice))
  {
    var t := Next(s, w, choice);
    NextLeavesOthers(s, w, choice);
    NextKeepsApprovals(s, w, choice);
    NextPublicationsBacked(s, w, choice);
    assert WorkerBacked(s.tables, s.workers[w]);
    NextPhaseBacked(s, w, choice);
    forall v | v in t.workers && v != w ensures WorkerBacked(t.tables, t.workers[v]) {
      assert WorkerBacked(s.tables, s.workers[v]);
    }
  }

  lemma {:induction false} RunKeepsBacked(s: World, actions: seq<Action>)
    requires Safe(s) && Backed(s) && NeverUnpublishes(actions) && NeverRevokes(actions)
    ensures Safe(Run(s, actions)) && Backed(Run(s, actions))
    decreases |actions|
  {
    RunKeepsSafe(s, actions);
    if actions != [] {
      ApplyFits(s, actions[0]);
      GrowthKeepsSafe(s, Apply(s, actions[0]));
      if actions[0].Advance? && actions[0].w in s.workers {
        NextKeepsBacked(s, actions[0].w, actions[0].choice);
      }
      RunKeepsBacked(Apply(s, actions[0]), actions[1..]);
    }
  }

  // Every returned reference is the profile of the receipt under the one stored approval.
  lemma {:induction false} ReturnsFollowStoredApproval(actions: seq<Action>, probe: string, ref: HostRef)
    requires NeverUnpublishes(actions) && NeverRevokes(actions)
    requires (probe, ref) in Run(START, actions).returned
    ensures var t := Run(START, actions).tables;
            && probe in t.receipts
            && (exists a :: Stores(t, t.receipts[probe].hostId, probe, a))
            && (forall a :: Stores(t, t.receipts[probe].hostId, probe, a) ==>
                              ref == ProfileRef(t.receipts[probe].payload, a))
  {
    StartIsSafe();
    RunKeepsBacked(START, actions);
    var t := Run(START, actions).tables;
    assert PublicationBacked(t, probe);
    forall a | Stores(t, t.receipts[probe].hostId, probe, a) ensures a == ApprovalBehind(ref) {
      StoredApprovalIsUnique(t, t.receipts[probe].hostId, probe, a, ApprovalBehind(ref));
    }
  }

  // -------------------------------------------------------------------- resuming a call

  // `n` uninterrupted steps of one worker.
  ghost function Alone(s: World, w: nat, choice: Choice, n: nat): World
    decreases n
  {
    if n == 0 || w !in s.workers then s else Alone(Next(s, w, choice), w, choice, n - 1)
  }

  lemma {:induction false} AloneIsRun(s: World, w: nat, choice: Choice, n: nat)
    ensures Alone(s, w, choice, n) == Run(s, seq(n, _ => Advance(w, choice)))
    decreases n
  {
    if n != 0 {
      var steps := seq(n, _ => Advance(w, choice));
      assert steps[1..] == seq(n - 1, _ => Advance(w, choice));
      AloneIsRun(Apply(s, steps[0]), w, choice, n - 1);
      if w !in s.workers {
        assert Alone(s, w, choice, n - 1) == s;
      }
    }
  }

  ghost predicate Succeeds(s: World, t: World, w: nat, probe: string) {
    && w !in t.workers && probe in t.tables.published
    && t.returned == s.returned + [(probe, t.tables.published[probe])]
  }

  ghost predicate Raises(s: World, t: World, w: nat) {
    w !in t.workers && t.returned == s.returned
  }

  lemma AloneStep(s: World, w: nat, choice: Choice, n: nat)
    requires w in s.workers && n > 0
    ensures Alone(s, w, choice, n) == Alone(Next(s, w, choice), w, choice, n - 1)
    ensures w !in Next(s, w, choice).workers ==> Alone(s, w, choice, n) == Next(s, w, choice)
  {
  }

  lemma {:induction false} AlonePublishing(s: World, w: nat, choice: Choice, n: nat)
    requires Safe(s) && Backed(s) && w in s.workers && s.workers[w].phase.Publishing? && choice.ok && n >= 2
    ensures Succeeds(s, Alone(s, w, choice, n), w, s.workers[w].probe)
  {
    var me := s.workers[w];
    assert WorkerFits(s, me) && WorkerBacked(s.tables, me);
    if me.probe in s.tables.published {
      assert PublicationBacked(s.tables, me.probe);
      StoredApprovalIsUnique(s.tables, me.hostId, me.probe, me.phase.approval,
                             ApprovalBehind(s.tables.published[me.probe]));
    } else {
      var t := Next(s, w, choice);
      AloneStep(s, w, choice, n);
      AloneStep(t, w, choice, n - 1);
    }
  }

  lemma {:induction false} AloneProfiling(s: World, w: nat, choice: Choice, n: nat)
    requires Safe(s) && Backed(s) && w in s.workers && s.workers[w].phase.Profiling? && choice.ok && n >= 3
    ensures Succeeds(s, Alone(s, w, choice, n), w, s.workers[w].probe)
  {
    var me, t := s.workers[w], Next(s, w, choice);
    assert WorkerFits(s, me) && WorkerBacked(s.tables, me);
    assert MayRegisterProfile(s, me.hostId, me.phase.receipt, me.phase.approval);
    NextKeeps(s, w, choice);
    AlonePublishing(t, w, choice, n - 1);
  }

  lemma NextKeeps(s: World, w: nat, choice: Choice)
    requires Safe(s) && Backed(s) && w in s.workers
    ensures Safe(Next(s, w, choice)) && Backed(Next(s, w, choice))
  {
    NextFits(s, w, choice);
    GrowthKeepsSafe(s, Next(s, w, choice));
    NextKeepsBacked(s, w, choice);
  }

  lemma {:induction false} AloneRegistering(s: World, w: nat, choice: Choice, n: nat)
    requires Safe(s) && Backed(s) && w in s.workers && s.workers[w].phase.Registering? && choice.ok && n >= 4
    ensures var me, t := s.workers[w], Alone(s, w, choice, n);
            if Covers(me.phase.receipt, me.phase.approval) then Succeeds(s, t, w, me.probe) else Raises(s, t, w)
  {
    var me, t := s.workers[w], Next(s, w, choice);
    assert WorkerFits(s, me) && WorkerBacked(s.tables, me);
    assert Authorized(s.tables, me.hostId, me.phase.approval) <==> Covers(me.phase.receipt, me.phase.approval);
    if Covers(me.phase.receipt, me.phase.approval) {
      NextKeeps(s, w, choice);
      AloneProfiling(t, w, choice, n - 1);
    }
  }

  // The stored approval is the one that is found.
  lemma LookFinds(s: World, w: nat, choice: Choice, a: Approval)
    requires Safe(s) && w in s.workers && s.workers[w].phase.Pending?
    requires Stores(s.tables, s.workers[w].hostId, s.workers[w].probe, a)
    ensures var receipt := s.workers[w].phase.receipt;
            Next(s, w, choice) == if a.approvedBy != s.workers[w].phase.approver then Raise(s, w)
                                  else Move(s, w, Registering(receipt, a))
  {
    var me := s.workers[w];
    forall b | Stores(s.tables, me.hostId, me.probe, b) ensures b == a {
      StoredApprovalIsUnique(s.tables, me.hostId, me.probe, a, b);
    }
  }

  lemma {:induction false} AloneFound(s: World, w: nat, choice: Choice, n: nat, a: Approval)
    requires Safe(s) && Backed(s) && w in s.workers && s.workers[w].phase.Pending? && choice.ok && n >= 6
    requires Stores(s.tables, s.workers[w].hostId, s.workers[w].probe, a)
    ensures var me, t := s.workers[w], Alone(s, w, choice, n);
            if a.approvedBy == me.phase.approver && Covers(me.phase.receipt, a)
            then Succeeds(s, t, w, me.probe) else Raises(s, t, w)
  {
    var me, t := s.workers[w], Next(s, w, choice);
    NextKeeps(s, w, choice);
    LookFinds(s, w, choice, a);
    if a.approvedBy == me.phase.approver {
      assert t == Move(s, w, Registering(me.phase.receipt, a));
      assert t.workers[w].phase == Registering(me.phase.receipt, a) && t.workers[w].probe == me.probe;
      AloneRegistering(t, w, choice, n - 1);
    }
  }

  lemma {:induction false} AloneMinted(s: World, w: nat, choice: Choice, n: nat)
    requires Safe(s) && Backed(s) && w in s.workers && s.workers[w].phase.Pending? && choice.ok && n >= 6
    requires Activatable(s.workers[w].phase.receipt) && s.workers[w].phase.receipt.checkedAt <= choice.now
    requires forall a :: !Stores(s.tables, s.workers[w].hostId, s.workers[w].probe, a)
    ensures var me, t := s.workers[w], Alone(s, w, choice, n); var receipt := me.phase.receipt;
            if receipt.target == Some(TargetHash(receipt.hostId, receipt.kind, receipt.identity))
            then Succeeds(s, t, w, me.probe) else Raises(s, t, w)
  {
    var me, t := s.workers[w], Next(s, w, choice);
    assert WorkerFits(s, me);
    NextKeeps(s, w, choice);
    NextKeeps(t, w, choice);
    MintedCanInsert(s, me, t.workers[w].phase.approval);
    AloneRegistering(Next(t, w, choice), w, choice, n - 2);
  }

  // A pending approval is taken up by the same approver only; with none, one is minted unless
  // the clock is behind the probe.
  lemma {:induction false} AlonePending(s: World, w: nat, choice: Choice, n: nat)
    requires Safe(s) && Backed(s) && w in s.workers && s.workers[w].phase.Pending? && choice.ok && n >= 6
    requires Activatable(s.workers[w].phase.receipt)
    ensures var me, t := s.workers[w], Alone(s, w, choice, n);
            if Agreed(s.tables, me, me.phase.receipt, me.phase.approver, choice.now)
            then Succeeds(s, t, w, me.probe) else Raises(s, t, w)
  {
    var me := s.workers[w];
    assert WorkerFits(s, me);
    if a :| Stores(s.tables, me.hostId, me.probe, a) {
      forall b | Stores(s.tables, me.hostId, me.probe, b) ensures b == a {
        StoredApprovalIsUnique(s.tables, me.hostId, me.probe, a, b);
      }
      AloneFound(s, w, choice, n, a);
    } else if me.phase.receipt.checkedAt <= choice.now {
      AloneMinted(s, w, choice, n);
    }
  }

  ghost predicate Agreed(t: Tables, me: Worker, receipt: Receipt, approver: string, now: nat) {
    && receipt.target == Some(TargetHash(receipt.hostId, receipt.kind, receipt.identity))
    && Approvable(t, me.hostId, me.probe, receipt, approver, now)
  }

  // The stored approval is this approver's, or there is none and the clock is not behind the probe.
  ghost predicate Approvable(t: Tables, host: string, probe: string, receipt: Receipt, approver: string, now: nat) {
    if exists a :: Stores(t, host, probe, a) then forall a :: Stores(t, host, probe, a) ==> a.approvedBy == approver
    else receipt.checkedAt <= now
  }

  lemma PrefixedDiffer(p: string, q: string)
    ensures "approval-" + p == "approval-" + q <==> p == q
  {
    assert ("approval-" + p)[|"approval-"|..] == p;
    assert ("approval-" + q)[|"approval-"|..] == q;
  }

  lemma MintedCanInsert(s: World, me: Worker, a: Approval)
    requires Safe(s) && me.phase.Pending? && WorkerFits(s, me) && MintedFor(me.phase.receipt, a)
    requires forall b :: !Stores(s.tables, me.hostId, me.probe, b)
    ensures CanInsert(s.tables, me.probe, a)
  {
    if h :| h in s.tables.approvals && s.tables.approvals[h].probeId == me.probe {
      assert Stores(s.tables, me.hostId, me.probe, s.tables.approvals[h].payload);
    }
    if h :| h in s.tables.approvals && h == OfApproval(a) {
      var p := s.tables.approvals[h].probeId;
      PrefixedDiffer(p, me.probe);
      assert false;
    }
  }

  // What lets an undisturbed call through, read off the tables.
  ghost predicate Accepts(t: Tables, host: string, probe: string, expected: TargetHash, approver: string, now: nat) {
    ReadReceipt(t, host, probe).Ok? &&
    (probe in t.published || MayActivate(t, host, ReadReceipt(t, host, probe).value, expected, approver, now))
  }

  ghost predicate MayActivate(t: Tables, host: string, receipt: Receipt, expected: TargetHash, approver: string,
                              now: nat) {
    && receipt.passed && receipt.activationSupported && receipt.target == Some(expected)
    && expected == TargetHash(receipt.hostId, receipt.kind, receipt.identity)
    && Approvable(t, host, receipt.probeId, receipt, approver, now)
  }

  // A published probe needs no approver: its profile still resolves.
  lemma {:induction false} AloneResolving(s: World, w: nat, choice: Choice, n: nat)
    requires Safe(s) && Backed(s) && w in s.workers && s.workers[w].phase.Resolving? && choice.ok && n >= 1
    requires s.workers[w].probe in s.tables.receipts
    requires s.tables.receipts[s.workers[w].probe].hostId == s.workers[w].hostId
    ensures Succeeds(s, Alone(s, w, choice, n), w, s.workers[w].probe)
  {
    var me := s.workers[w];
    assert WorkerFits(s, me) && PublicationBacked(s.tables, me.probe);
    assert Resolves(s, me.hostId, me.phase.ref);
    AloneStep(s, w, choice, n);
  }

  lemma {:induction false} AloneChecked(s: World, w: nat, choice: Choice, n: nat)
    requires Safe(s) && Backed(s) && w in s.workers && s.workers[w].phase.Reading?
    requires s.workers[w].probe !in s.tables.published
    requires choice.ok && choice.approver.Some? && n >= 7
    ensures var me, t := s.workers[w], Alone(s, w, choice, n);
            if MayActivate(s.tables, me.hostId, me.phase.receipt, me.expected, choice.approver.value, choice.now)
            then Succeeds(s, t, w, me.probe) else Raises(s, t, w)
  {
    var me := s.workers[w];
    assert WorkerFits(s, me);
    NextKeeps(s, w, choice);
    AloneStep(s, w, choice, n);
    if Activatable(me.phase.receipt) && me.phase.receipt.target == Some(me.expected) {
      var t := Move(s, w, Pending(me.phase.receipt, choice.approver.value));
      assert Next(s, w, choice) == t;
      AlonePending(t, w, choice, n - 1);
      assert me.probe == me.phase.receipt.probeId;
    } else {
      assert Next(s, w, choice) == Raise(s, w);
    }
  }

  lemma {:induction false} AloneReading(s: World, w: nat, choice: Choice, n: nat)
    requires Safe(s) && Backed(s) && w in s.workers && s.workers[w].phase.Reading?
    requires choice.ok && choice.approver.Some? && n >= 7
    ensures var me, t := s.workers[w], Alone(s, w, choice, n);
            if me.probe in s.tables.published
               || MayActivate(s.tables, me.hostId, me.phase.receipt, me.expected, choice.approver.value, choice.now)
            then Succeeds(s, t, w, me.probe) else Raises(s, t, w)
  {
    var me := s.workers[w];
    if me.probe in s.tables.published {
      var t := Move(s, w, Resolving(s.tables.published[me.probe]));
      assert WorkerFits(s, me);
      assert Next(s, w, choice) == t;
      NextKeeps(s, w, choice);
      AloneStep(s, w, choice, n);
      AloneResolving(t, w, choice, n - 1);
    } else {
      AloneChecked(s, w, choice, n);
    }
  }

  lemma {:induction false} AloneCalled(s: World, w: nat, choice: Choice)
    requires Safe(s) && Backed(s) && w in s.workers && s.workers[w].phase.Called?
    requires choice.ok && choice.approver.Some?
    ensures var me, t := s.workers[w], Alone(s, w, choice, 8);
            if Accepts(s.tables, me.hostId, me.probe, me.expected, choice.approver.value, choice.now)
            then Succeeds(s, t, w, me.probe) else Raises(s, t, w)
  {
    var t := Next(s, w, choice);
    NextKeeps(s, w, choice);
    AloneStep(s, w, choice, 8);
    if w in t.workers {
      AloneReading(t, w, choice, 7);
    }
  }

  // After any run of crashes and interleavings, a call that is left alone while its checks
  // succeed returns exactly when the tables allow it, and it returns the published reference.
  lemma {:induction false} RetryOutcome(actions: seq<Action>, w: nat, host: string, probe: string, expected: TargetHash,
                                        choice: Choice)
    requires NeverUnpublishes(actions) && NeverRevokes(actions) && choice.ok && choice.approver.Some?
    ensures var s := Run(START, actions);
            var t := Alone(Apply(s, Call(w, host, probe, expected)), w, choice, 8);
            if Accepts(s.tables, host, probe, expected, choice.approver.value, choice.now)
            then Succeeds(s, t, w, probe) else Raises(s, t, w)
  {
    var s := Run(START, actions);
    var call := Call(w, host, probe, expected);
    StartIsSafe();
    RunKeepsBacked(START, actions);
    ApplyFits(s, call);
    GrowthKeepsSafe(s, Apply(s, call));
    AloneCalled(Apply(s, call), w, choice);
  }

  lemma {:induction false} UnauthorizedRaises(s: World, w: nat, choice: Choice, n: nat)
    requires w in s.workers && s.workers[w].phase.Reading? && n >= 2
    requires s.workers[w].probe in s.tables.published
    requires !Resolves(s, s.workers[w].hostId, s.tables.published[s.workers[w].probe])
    ensures Raises(s, Alone(s, w, choice, n), w)
  {
    var t := Next(s, w, choice);
    AloneStep(s, w, choice, n);
    AloneStep(t, w, choice, n - 1);
  }

  lemma RevokedDoesNotResolve(s: World, probe: string)
    requires Safe(s) && Backed(s) && probe in s.tables.published
    ensures NamesApproval(s.tables.published[probe])
    ensures var a := ApprovalBehind(s.tables.published[probe]);
            var revoked := Apply(s, Revoke(a.hostId, OfApproval(a)));
            && revoked == s.(tables := revoked.tables) && revoked.tables.published == s.tables.published
            && forall host :: !Authorized(revoked.tables, host, a)
  {
    assert PublicationBacked(s.tables, probe);
  }

  lemma {:induction false} UnresolvedRaises(s: World, w: nat, host: string, probe: string, expected: TargetHash,
                                            choice: Choice, n: nat)
    requires probe in s.tables.published && NamesApproval(s.tables.published[probe]) && n >= 3
    requires forall h :: !Authorized(s.tables, h, ApprovalBehind(s.tables.published[probe]))
    ensures Raises(s, Alone(Apply(s, Call(w, host, probe, expected)), w, choice, n), w)
  {
    var called := Apply(s, Call(w, host, probe, expected));
    AloneStep(called, w, choice, n);
    if w in Next(called, w, choice).workers {
      UnauthorizedRaises(Next(called, w, choice), w, choice, n - 1);
    }
  }

  // Once the approval of a published probe is revoked, a new call returns nothing.
  lemma {:induction false} RevokedIsRefused(s: World, w: nat, host: string, probe: string, expected: TargetHash,
                                            choice: Choice, n: nat)
    requires Safe(s) && Backed(s) && probe in s.tables.published && n >= 3
    ensures NamesApproval(s.tables.published[probe])
    ensures var a := ApprovalBehind(s.tables.published[probe]);
            var revoked := Apply(s, Revoke(a.hostId, OfApproval(a)));
            && revoked.tables.published == s.tables.published
            && Raises(revoked, Alone(Apply(revoked, Call(w, host, probe, expected)), w, choice, n), w)
  {
    RevokedDoesNotResolve(s, probe);
    var a := ApprovalBehind(s.tables.published[probe]);
    UnresolvedRaises(Apply(s, Revoke(a.hostId, OfApproval(a))), w, host, probe, expected, choice, n);
  }
}
