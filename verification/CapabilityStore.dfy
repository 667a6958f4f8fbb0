/** The durable capability store: three keyed tables (capabilities/store.py). */
module CapabilityStore {
  import opened Basics

  datatype Identity = Identity(
    profileKey: string, subjectKey: string, version: string, digest: string,
    executionTargetHash: Option<string>, buildCapability: Option<string>)

  // `canonical_bytes` and `content_hash` are taken as injective: a digest is its content.
  datatype Digest = OfApproval(approval: Approval) | OfProfile(profile: Profile)

  // What a human confirms: the digest of the probed target without its metadata.
  datatype TargetHash = TargetHash(hostId: string, kind: string, identity: Identity)

  datatype HostRef = HostRef(hostId: string, recordId: string, digest: Digest)

  datatype Approval = Approval(
    recordId: string, logicalId: string, hostId: string, identity: Identity, target: TargetHash,
    approvedAt: nat, approvedBy: string)

  datatype Profile = Profile(
    recordId: string, hostId: string, kind: string, identity: Identity, evidence: HostRef, createdAt: nat)

  datatype Receipt = Receipt(
    probeId: string, hostId: string, kind: string, passed: bool, activationSupported: bool, checkedAt: nat,
    identity: Identity, target: Option<TargetHash>, approvedRef: Option<HostRef>)

  datatype ReceiptRow = ReceiptRow(hostId: string, payload: Receipt)

  datatype ApprovalRow = ApprovalRow(probeId: string, hostId: string, payload: Approval)

  datatype Tables = Tables(
    receipts: map<string, ReceiptRow>, approvals: map<Digest, ApprovalRow>, published: map<string, HostRef>)

  datatype StoreError =
    | ProbeNotFound
    | ProbeHostMismatch
    | ProbeNotActivatable
    | RowExists
    | PublicationRefMismatch

  // ------------------------------------------------------------- single statements

  ghost function ReadReceipt(t: Tables, host: string, probe: string): Result<Receipt, StoreError> {
    if probe !in t.receipts then Err(ProbeNotFound)
    else if t.receipts[probe].hostId != host || t.receipts[probe].payload.hostId != host then Err(ProbeHostMismatch)
    else Ok(t.receipts[probe].payload)
  }

  ghost function ReadPublished(t: Tables, probe: string, receipt: Receipt): Receipt {
    if probe in t.published then receipt.(approvedRef := Some(t.published[probe])) else receipt
  }

  ghost predicate Activatable(receipt: Receipt) {
    receipt.activationSupported && receipt.passed
  }

  ghost predicate HasApproval(t: Tables, probe: string) {
    exists h :: h in t.approvals && t.approvals[h].probeId == probe
  }

  ghost predicate CanInsert(t: Tables, probe: string, approval: Approval) {
    OfApproval(approval) !in t.approvals && !HasApproval(t, probe)
  }

  ghost function InsertApproval(t: Tables, host: string, probe: string, approval: Approval): Tables {
    t.(approvals := t.approvals[OfApproval(approval) := ApprovalRow(probe, host, approval)])
  }

  // `row` is the approval row of `probe` that `pending_approval` selects.
  ghost predicate Stores(t: Tables, host: string, probe: string, approval: Approval) {
    && OfApproval(approval) in t.approvals
    && t.approvals[OfApproval(approval)] == ApprovalRow(probe, host, approval)
  }

  // The stored receipt of the probe has the target and the identity that were approved.
  ghost predicate GivenFor(t: Tables, probe: string, approval: Approval) {
    && probe in t.receipts && t.receipts[probe].payload.target == Some(approval.target)
    && t.receipts[probe].payload.identity == approval.identity
  }

  // The receipt still carries what the approval was given for.
  ghost predicate Covers(receipt: Receipt, approval: Approval) {
    receipt.target == Some(approval.target) && receipt.identity == approval.identity
  }

  ghost predicate Authorized(t: Tables, host: string, approval: Approval) {
    && approval.hostId == host
    && OfApproval(approval) in t.approvals
    && t.approvals[OfApproval(approval)].hostId == host
    && ReadReceipt(t, host, t.approvals[OfApproval(approval)].probeId).Ok?
    && Covers(ReadReceipt(t, host, t.approvals[OfApproval(approval)].probeId).value, approval)
  }

  // ------------------------------------------------------------------ what is kept

  ghost predicate ReceiptsFit(t: Tables) {
    forall p :: p in t.receipts ==>
      t.receipts[p].payload.probeId == p && t.receipts[p].payload.hostId == t.receipts[p].hostId
      && t.receipts[p].payload.approvedRef.None?
  }

  // Rows are filed under their own digest, for a known probe of the same host.
  ghost predicate ApprovalsFit(t: Tables) {
    forall h :: h in t.approvals ==>
      h == OfApproval(t.approvals[h].payload) && t.approvals[h].probeId in t.receipts
      && t.receipts[t.approvals[h].probeId].hostId == t.approvals[h].hostId
  }

  ghost predicate OneApprovalPerProbe(t: Tables) {
    forall g, h :: g in t.approvals && h in t.approvals && t.approvals[g].probeId == t.approvals[h].probeId ==> g == h
  }

  ghost predicate PublishedFit(t: Tables) {
    forall p :: p in t.published ==> p in t.receipts && t.published[p].hostId == t.receipts[p].hostId
  }

  ghost predicate WellFormed(t: Tables) {
    ReceiptsFit(t) && ApprovalsFit(t) && OneApprovalPerProbe(t) && PublishedFit(t)
  }

  lemma StoredApprovalIsUnique(t: Tables, host: string, probe: string, a: Approval, b: Approval)
    requires WellFormed(t) && Stores(t, host, probe, a) && Stores(t, host, probe, b)
    ensures a == b
  {
    assert OfApproval(a) == OfApproval(b);
  }

  class ProbeStore {
    const hostId: string
    var receipts: map<string, ReceiptRow>
    var approvals: map<Digest, ApprovalRow>
    var published: map<string, HostRef>

    function Contents(): Tables
      reads this
    {
      Tables(receipts, approvals, published)
    }

    ghost predicate Valid()
      reads this
    {
      WellFormed(Contents())
    }

    constructor (hostId: string)
      ensures Valid() && this.hostId == hostId && Contents() == Tables(map[], map[], map[])
    {
      this.hostId := hostId;
      receipts, approvals, published := map[], map[], map[];
    }

    // A receipt is stored once and never replaced.
    method Add(receipt: Receipt) returns (refused: Option<StoreError>)
      requires Valid()
      modifies this
      ensures Valid()
      ensures refused.None? <==>
        receipt.hostId == hostId && receipt.approvedRef.None? && receipt.probeId !in old(receipts)
      ensures refused.Some? ==>
        refused.value == if receipt.hostId == hostId && receipt.approvedRef.None? then RowExists else ProbeHostMismatch
      ensures published == old(published) && approvals == old(approvals)
      ensures receipts == if refused.None? then old(receipts)[receipt.probeId := ReceiptRow(hostId, receipt)]
                          else old(receipts)
    {
      if receipt.hostId != hostId || receipt.approvedRef.Some? {
        return Some(ProbeHostMismatch);
      }
      if receipt.probeId in receipts {
        return Some(RowExists);
      }
      receipts := receipts[receipt.probeId := ReceiptRow(hostId, receipt)];
      return None;
    }

    method Get(probe: string) returns (read: Result<Receipt, StoreError>)
      requires Valid()
      ensures read.Ok? <==> probe in receipts && receipts[probe].hostId == hostId
      ensures read.Ok? ==> read.value.(approvedRef := None) == receipts[probe].payload
      ensures read.Ok? ==> read.value.approvedRef == if probe in published then Some(published[probe]) else None
      ensures read == match ReadReceipt(Contents(), hostId, probe)
                      case Err(e) => Err(e)
                      case Ok(receipt) => Ok(ReadPublished(Contents(), probe, receipt))
    {
      if probe !in receipts {
        return Err(ProbeNotFound);
      }
      var row := receipts[probe];
      if row.hostId != hostId || row.payload.hostId != hostId {
        return Err(ProbeHostMismatch);
      }
      if probe in published {
        return Ok(row.payload.(approvedRef := Some(published[probe])));
      }
      return Ok(row.payload);
    }

    // A second approval of a probe is refused by the table, whoever minted it.
    method Authorize(approval: Approval, probe: string) returns (refused: Option<StoreError>)
      requires Valid()
      modifies this
      ensures Valid()
      ensures refused.None? <==>
        && old(ReadReceipt(Contents(), hostId, probe)).Ok?
        && old(receipts)[probe].payload.passed && old(receipts)[probe].payload.activationSupported
        && old(CanInsert(Contents(), probe, approval))
      ensures refused.Some? ==> refused.value == match old(ReadReceipt(Contents(), hostId, probe))
                                                 case Err(e) => e
                                                 case Ok(r) => if r.passed && r.activationSupported then RowExists
                                                               else ProbeNotActivatable
      ensures Contents() ==
        if refused.None? then InsertApproval(old(Contents()), hostId, probe, approval) else old(Contents())
    {
      var read := Get(probe);
      if read.Err? {
        return Some(read.error);
      }
      if !read.value.passed || !read.value.activationSupported {
        return Some(ProbeNotActivatable);
      }
      if OfApproval(approval) in approvals || exists h :: h in approvals && approvals[h].probeId == probe {
        return Some(RowExists);
      }
      approvals := approvals[OfApproval(approval) := ApprovalRow(probe, hostId, approval)];
      return None;
    }

    method PendingApproval(probe: string) returns (found: Option<Approval>)
      requires Valid()
      ensures found.Some? ==> Stores(Contents(), hostId, probe, found.value)
      ensures found.None? ==> forall a :: !Stores(Contents(), hostId, probe, a)
    {
      if h :| h in approvals && approvals[h].probeId == probe && approvals[h].hostId == hostId {
        return Some(approvals[h].payload);
      }
      return None;
    }

    method Revoke(digest: Digest)
      requires Valid()
      modifies this
      ensures Valid()
      ensures receipts == old(receipts) && published == old(published)
      ensures approvals == old(approvals) - (if digest in old(approvals) && old(approvals)[digest].hostId == hostId
                                             then {digest} else {})
    {
      if digest in approvals && approvals[digest].hostId == hostId {
        approvals := approvals - {digest};
      }
    }

    method IsAuthorized(approval: Approval) returns (yes: bool)
      requires Valid()
      ensures yes == Authorized(Contents(), hostId, approval)
      ensures yes ==> exists p :: Stores(Contents(), hostId, p, approval) && GivenFor(Contents(), p, approval)
    {
      if approval.hostId != hostId {
        return false;
      }
      if OfApproval(approval) !in approvals || approvals[OfApproval(approval)].hostId != hostId {
        return false;
      }
      var row := approvals[OfApproval(approval)];
      var read := Get(row.probeId);
      if read.Err? {
        return false;
      }
      assert Stores(Contents(), hostId, row.probeId, approval);
      return read.value.target == Some(approval.target) && read.value.identity == approval.identity;
    }

    // A published reference is never replaced: the same one is accepted again, any other
    // is refused.
    method Publish(probe: string, ref: HostRef) returns (refused: Option<StoreError>)
      requires Valid()
      modifies this
      ensures Valid()
      ensures receipts == old(receipts) && approvals == old(approvals)
      ensures refused.None? <==>
        && probe in receipts && receipts[probe].hostId == hostId && ref.hostId == hostId
        && (probe in old(published) ==> old(published)[probe] == ref)
      ensures refused.Some? ==> refused.value == match old(ReadReceipt(Contents(), hostId, probe))
                                                 case Err(e) => e
                                                 case Ok(r) => if r.hostId == ref.hostId then PublicationRefMismatch
                                                               else ProbeHostMismatch
      ensures published == if refused.None? then old(published)[probe := ref] else old(published)
      ensures forall p :: p in old(published) ==> p in published && published[p] == old(published)[p]
    {
      var read := Get(probe);
      if read.Err? {
        return Some(read.error);
      }
      if read.value.hostId != ref.hostId {
        return Some(ProbeHostMismatch);
      }
      if probe in published {
        if published[probe] != ref {
          return Some(PublicationRefMismatch);
        }
        return None;
      }
      published := published[probe := ref];
      return None;
    }

    method Unpublish(probe: string)
      requires Valid()
      modifies this
      ensures Valid()
      ensures receipts == old(receipts) && approvals == old(approvals)
      ensures published == old(published) - {probe}
    {
      published := published - {probe};
    }
  }
}
