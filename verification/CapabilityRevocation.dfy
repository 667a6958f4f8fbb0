/** What a revocation stops, over all later runs (capabilities/service.py, capabilities/store.py). */
module CapabilityRevocation {
  import opened Basics
  import opened CapabilityStore
  import opened CapabilityProtocol
  import opened CapabilityRuns

  // ------------------------------------------------------------------ fresh record ids

  // The approval is stored, held by a later phase, or behind a publication.
  ghost predicate Settled(s: World, a: Approval) {
    || OfApproval(a) in s.tables.approvals
    || (exists w :: w in s.workers && HoldsApproval(s.workers[w].phase) && s.workers[w].phase.approval == a)
    || (exists p :: p in s.tables.published && StandsFor(s.tables.published[p], a))
  }

  ghost predicate StandsFor(ref: HostRef, a: Approval) {
    NamesApproval(ref) && ApprovalBehind(ref) == a
  }

  // Worker `w` is about to store `a`.
  ghost predicate AboutToStore(s: World, w: nat, a: Approval) {
    w in s.workers && s.workers[w].phase.Authorizing? && s.workers[w].phase.approval == a
  }

  // Every approval has its record id, out of `used`, to itself.
  ghost predicate IdsApart(s: World, used: set<string>) {
    && (forall a :: Settled(s, a) ==> a.recordId in used)
    && (forall w, a :: AboutToStore(s, w, a) ==> a.recordId in used)
    && (forall w, a, b :: AboutToStore(s, w, a) && Settled(s, b) ==> a.recordId != b.recordId)
    && (forall v, w, a, b :: AboutToStore(s, v, a) && AboutToStore(s, w, b) && v != w ==> a.recordId != b.recordId)
  }

  // A step settles at most the approval that its worker was about to store.
  lemma NextSettles(s: World, w: nat, choice: Choice, a: Approval)
    requires w in s.workers && Settled(Next(s, w, choice), a)
    ensures Settled(s, a) || AboutToStore(s, w, a)
  {
  }

  // A step brings up at most one approval, under the fresh record id.
  lemma NextMints(s: World, w: nat, choice: Choice, v: nat, a: Approval)
    requires w in s.workers && AboutToStore(Next(s, w, choice), v, a)
    ensures if v == w then a.recordId == choice.freshId && !s.workers[w].phase.Authorizing? else AboutToStore(s, v, a)
    ensures v == w ==> s.workers[w].phase.Pending? && a.approvedBy == s.workers[w].phase.approver
  {
  }

  lemma NextKeepsIdsApart(s: World, used: set<string>, w: nat, choice: Choice)
    requires IdsApart(s, used) && w in s.workers && choice.freshId !in used
    ensures IdsApart(Next(s, w, choice), used + {choice.freshId})
  {
    var t := Next(s, w, choice);
    forall a | Settled(t, a) ensures a.recordId in used && (Settled(s, a) || AboutToStore(s, w, a)) {
      NextSettles(s, w, choice, a);
    }
    forall v, a | AboutToStore(t, v, a)
      ensures if v == w then a.recordId == choice.freshId && !s.workers[w].phase.Authorizing? else AboutToStore(s, v, a)
    {
      NextMints(s, w, choice, v, a);
    }
  }

  ghost function IdsIn(action: Action): set<string> {
    if action.Advance? then {action.choice.freshId} else {}
  }

  ghost function IdsOf(actions: seq<Action>): set<string> {
    if actions == [] then {} else IdsIn(actions[0]) + IdsOf(actions[1..])
  }

  // No random identifier comes up twice, and none of `used` comes up again.
  ghost predicate FreshIds(actions: seq<Action>, used: set<string>) {
    actions == [] || (IdsIn(actions[0]) !! used && FreshIds(actions[1..], used + IdsIn(actions[0])))
  }

  lemma ApplyKeepsIdsApart(s: World, used: set<string>, action: Action)
    requires IdsApart(s, used) && IdsIn(action) !! used
    ensures IdsApart(Apply(s, action), used + IdsIn(action))
  {
    if action.Advance? && action.w in s.workers {
      NextKeepsIdsApart(s, used, action.w, action.choice);
    } else {
      var t := Apply(s, action);
      forall a | Settled(t, a) ensures Settled(s, a) {
      }
      forall v, a | AboutToStore(t, v, a) ensures AboutToStore(s, v, a) {
      }
    }
  }

  lemma {:induction false} RunKeepsIdsApart(s: World, used: set<string>, actions: seq<Action>)
    requires IdsApart(s, used) && FreshIds(actions, used)
    ensures IdsApart(Run(s, actions), used + IdsOf(actions))
    decreases |actions|
  {
    if actions == [] {
      assert used + IdsOf(actions) == used;
    } else {
      ApplyKeepsIdsApart(s, used, actions[0]);
      RunKeepsIdsApart(Apply(s, actions[0]), used + IdsIn(actions[0]), actions[1..]);
      assert used + IdsOf(actions) == used + IdsIn(actions[0]) + IdsOf(actions[1..]);
    }
  }

  // ------------------------------------------------------------------------ who approved

  // Every approval, stored or on its way, names one of these people.
  ghost predicate NamesOnly(s: World, people: set<string>) {
    && (forall a :: Settled(s, a) ==> a.approvedBy in people)
    && (forall w, a :: AboutToStore(s, w, a) ==> a.approvedBy in people)
    && (forall w :: w in s.workers && s.workers[w].phase.Pending? ==> s.workers[w].phase.approver in people)
  }

  // Who is logged in when the action happens.
  ghost function LoggedIn(action: Action): set<string> {
    if action.Advance? && action.choice.approver.Some? then {action.choice.approver.value} else {}
  }

  ghost function PeopleIn(actions: seq<Action>): set<string> {
    if actions == [] then {} else LoggedIn(actions[0]) + PeopleIn(actions[1..])
  }

  lemma NextAsks(s: World, w: nat, choice: Choice, v: nat)
    requires w in s.workers && v in Next(s, w, choice).workers && Next(s, w, choice).workers[v].phase.Pending?
    ensures if v == w then choice.approver == Some(Next(s, w, choice).workers[v].phase.approver)
            else v in s.workers && s.workers[v] == Next(s, w, choice).workers[v]
  {
  }

  lemma NextNamesOnly(s: World, people: set<string>, w: nat, choice: Choice)
    requires NamesOnly(s, people) && w in s.workers
    ensures NamesOnly(Next(s, w, choice), people + LoggedIn(Advance(w, choice)))
  {
    var t := Next(s, w, choice);
    forall a | Settled(t, a) ensures a.approvedBy in people {
      NextSettles(s, w, choice, a);
    }
    forall v, a | AboutToStore(t, v, a) ensures a.approvedBy in people {
      NextMints(s, w, choice, v, a);
    }
    forall v | v in t.workers && t.workers[v].phase.Pending?
      ensures t.workers[v].phase.approver in people + LoggedIn(Advance(w, choice))
    {
      NextAsks(s, w, choice, v);
    }
  }

  lemma ApplyNamesOnly(s: World, people: set<string>, action: Action)
    requires NamesOnly(s, people)
    ensures NamesOnly(Apply(s, action), people + LoggedIn(action))
  {
    if action.Advance? && action.w in s.workers {
      NextNamesOnly(s, people, action.w, action.choice);
    } else {
      var t := Apply(s, action);
      forall a | Settled(t, a) ensures Settled(s, a) {
      }
      forall v, a | AboutToStore(t, v, a) ensures AboutToStore(s, v, a) {
      }
    }
  }

  lemma {:induction false} RunNamesOnly(s: World, people: set<string>, actions: seq<Action>)
    requires NamesOnly(s, people)
    ensures NamesOnly(Run(s, actions), people + PeopleIn(actions))
    decreases |actions|
  {
    if actions == [] {
      assert people + PeopleIn(actions) == people;
    } else {
      ApplyNamesOnly(s, people, actions[0]);
      RunNamesOnly(Apply(s, actions[0]), people + LoggedIn(actions[0]), actions[1..]);
      assert people + PeopleIn(actions) == people + LoggedIn(actions[0]) + PeopleIn(actions[1..]);
    }
  }

  lemma {:induction false} PersonHasStep(actions: seq<Action>, person: string) returns (i: nat)
    requires person in PeopleIn(actions)
    ensures i < |actions| && actions[i].Advance? && actions[i].choice.approver == Some(person)
  {
    if person in LoggedIn(actions[0]) {
      i := 0;
    } else {
      i := PersonHasStep(actions[1..], person);
      i := i + 1;
    }
  }

  // Nobody's name stands on an approval, stored or behind a publication, who was not logged in
  // at some step of the run.
  lemma ApproverWasLoggedIn(actions: seq<Action>, a: Approval) returns (i: nat)
    requires Settled(Run(START, actions), a)
    ensures i < |actions| && actions[i].Advance? && actions[i].choice.approver == Some(a.approvedBy)
  {
    assert NamesOnly(START, {});
    RunNamesOnly(START, {}, actions);
    i := PersonHasStep(actions, a.approvedBy);
  }

  // ------------------------------------------------------------------ after a revocation

  // The probe is published under an approval that is not stored any more.
  ghost predicate Revoked(s: World, probe: string, a: Approval) {
    && probe in s.tables.published && StandsFor(s.tables.published[probe], a)
    && OfApproval(a) !in s.tables.approvals
  }

  // A call for the probe that passed its checks under `a` before the revocation.
  ghost predicate InFlight(s: World, w: nat, probe: string, a: Approval) {
    w in s.workers && s.workers[w].probe == probe && s.workers[w].phase.Publishing? && s.workers[w].phase.approval == a
  }

  ghost predicate Barred(s: World, probe: string, a: Approval) {
    && Revoked(s, probe, a)
    && forall w :: !InFlight(s, w, probe, a) && !AboutToStore(s, w, a)
  }

  // `t` has returned what `s` had, and since then nothing for the probe.
  ghost predicate NothingNew(s: World, t: World, probe: string) {
    s.returned <= t.returned && forall k :: |s.returned| <= k < |t.returned| ==> t.returned[k].0 != probe
  }

  lemma NextStaysRevoked(s: World, w: nat, choice: Choice, probe: string, a: Approval)
    requires w in s.workers && Revoked(s, probe, a) && !AboutToStore(s, w, a)
    requires WorkerFits(s, s.workers[w])
    ensures Revoked(Next(s, w, choice), probe, a)
  {
    NextTables(s, w, choice);
  }

  // Neither the published reference nor any other approval gets a call to return.
  lemma NextReturnsNothing(s: World, w: nat, choice: Choice, probe: string, a: Approval)
    requires w in s.workers && Revoked(s, probe, a) && !InFlight(s, w, probe, a)
    requires WorkerFits(s, s.workers[w])
    ensures NothingNew(s, Next(s, w, choice), probe)
  {
  }

  // The check on the stored approval stops the worker before it publishes.
  lemma NextIsStopped(s: World, w: nat, choice: Choice, probe: string, a: Approval)
    requires w in s.workers && Revoked(s, probe, a) && choice.freshId != a.recordId
    ensures !InFlight(Next(s, w, choice), w, probe, a) && !AboutToStore(Next(s, w, choice), w, a)
  {
  }

  lemma NextStaysBarred(s: World, w: nat, choice: Choice, probe: string, a: Approval)
    requires Safe(s) && Barred(s, probe, a) && w in s.workers && choice.freshId != a.recordId
    ensures Barred(Next(s, w, choice), probe, a) && NothingNew(s, Next(s, w, choice), probe)
  {
    var t := Next(s, w, choice);
    assert !InFlight(s, w, probe, a) && !AboutToStore(s, w, a) && WorkerFits(s, s.workers[w]);
    NextStaysRevoked(s, w, choice, probe, a);
    NextReturnsNothing(s, w, choice, probe, a);
    NextLeavesOthers(s, w, choice);
    forall v ensures !InFlight(t, v, probe, a) && !AboutToStore(t, v, a) {
      if v == w {
        NextIsStopped(s, w, choice, probe, a);
      } else {
        assert !InFlight(s, v, probe, a) && !AboutToStore(s, v, a);
      }
    }
  }

  lemma OthersStayBarred(s: World, action: Action, probe: string, a: Approval)
    requires Barred(s, probe, a) && !action.Unpublish? && !action.Advance?
    ensures Barred(Apply(s, action), probe, a) && NothingNew(s, Apply(s, action), probe)
  {
    var t := Apply(s, action);
    forall w ensures !InFlight(t, w, probe, a) && !AboutToStore(t, w, a) {
      assert !InFlight(s, w, probe, a) && !AboutToStore(s, w, a);
    }
  }

  lemma ApplyStaysBarred(s: World, action: Action, probe: string, a: Approval)
    requires Safe(s) && Barred(s, probe, a) && !action.Unpublish? && a.recordId !in IdsIn(action)
    ensures Barred(Apply(s, action), probe, a) && NothingNew(s, Apply(s, action), probe)
    ensures Safe(Apply(s, action))
  {
    ApplyFits(s, action);
    GrowthKeepsSafe(s, Apply(s, action));
    if !action.Advance? {
      OthersStayBarred(s, action, probe, a);
    } else if action.w in s.workers {
      NextStaysBarred(s, action.w, action.choice, probe, a);
    }
  }

  lemma NothingNewTwice(s: World, t: World, u: World, probe: string)
    requires NothingNew(s, t, probe) && NothingNew(t, u, probe)
    ensures NothingNew(s, u, probe)
  {
    forall k | |s.returned| <= k < |u.returned| ensures u.returned[k].0 != probe {
      assert k < |t.returned| ==> u.returned[k] == t.returned[k];
    }
  }

  lemma {:induction false} RunStaysBarred(s: World, actions: seq<Action>, probe: string, a: Approval)
    requires Safe(s) && Barred(s, probe, a) && NeverUnpublishes(actions) && a.recordId !in IdsOf(actions)
    ensures NothingNew(s, Run(s, actions), probe)
    decreases |actions|
  {
    if actions != [] {
      var t := Apply(s, actions[0]);
      ApplyStaysBarred(s, actions[0], probe, a);
      RunStaysBarred(t, actions[1..], probe, a);
      NothingNewTwice(s, t, Run(s, actions), probe);
    }
  }

  // A call in flight still returns: it reads the publication and nothing else.
  lemma InFlightReturns(s: World, w: nat, probe: string, a: Approval) returns (step: Action)
    requires Safe(s) && Revoked(s, probe, a) && InFlight(s, w, probe, a)
    ensures step.Advance? && step.choice.freshId != a.recordId
    ensures Run(s, [step]) == Return(s, w, s.tables.published[probe]) && !NothingNew(s, Run(s, [step]), probe)
  {
    step := Advance(w, Choice(true, None, 0, a.recordId + "x"));
    assert WorkerFits(s, s.workers[w]) && IsPublication(s, probe, s.tables.published[probe]);
    assert Run(s, [step]) == Apply(s, step);
    var t := Return(s, w, s.tables.published[probe]);
    assert t.returned[|s.returned|].0 == probe;
  }

  // The run leaves the publication alone and never draws the record id of `a` again.
  ghost predicate Later(actions: seq<Action>, a: Approval) {
    NeverUnpublishes(actions) && a.recordId !in IdsOf(actions)
  }

  // No worker can store `a` again: its record id was drawn once.
  lemma {:induction false} NobodyStoresAgain(before: seq<Action>, probe: string, a: Approval)
    requires NeverUnpublishes(before) && FreshIds(before, {}) && Revoked(Run(START, before), probe, a)
    ensures Safe(Run(START, before)) && forall w :: !AboutToStore(Run(START, before), w, a)
  {
    assert Safe(START) && IdsApart(START, {});
    RunKeepsSafe(START, before);
    RunKeepsIdsApart(START, {}, before);
    assert Settled(Run(START, before), a);
  }

  // Once the approval of a published probe is revoked, no later run returns anything for the
  // probe, unless a call stands between its last check and its return at that moment.
  lemma {:induction false} RevocationHolds(before: seq<Action>, probe: string, a: Approval)
    requires NeverUnpublishes(before) && FreshIds(before, {}) && Revoked(Run(START, before), probe, a)
    ensures var s := Run(START, before);
      (forall after :: Later(after, a) ==> NothingNew(s, Run(s, after), probe)) <==>
      forall w :: !InFlight(s, w, probe, a)
  {
    var s := Run(START, before);
    NobodyStoresAgain(before, probe, a);
    if forall w :: !InFlight(s, w, probe, a) {
      assert Barred(s, probe, a);
      forall after | Later(after, a) ensures NothingNew(s, Run(s, after), probe) {
        RunStaysBarred(s, after, probe, a);
      }
    }
    if w :| InFlight(s, w, probe, a) {
      var step := InFlightReturns(s, w, probe, a);
      assert Later([step], a);
    }
  }
}
