/** Covering decisions, and what becomes of each of them (chaining/service.py, agents/chaining.py). */
module Decisions {
  import opened Basics
  import opened Refs
  import opened Primitives
  import opened Matching
  import opened Lineage
  import opened Retention
  import opened Exclusions
  import opened Prompt
  import opened Proposals

  datatype NoMatchReason = NoMatchReason(
    upstream: StoredDataRef, downstream: StoredDataRef, inputId: string, reasonCode: string, detail: string)

  datatype FinalizeError =
    | DecisionCoverageMismatch
    | SelectionFailed(error: ChainingError)
    | ProposalFailed(fault: ProposalError)
    | NoMatchReasonRequired
    | NoMatchReasonRefused
    | ResultRecordInvalid
    | ClosureInvalid

  // ---------------------------------------------------------------- decisions

  type ByKey = map<string, DirectionalComparison>

  ghost predicate DistinctKeys(comparisons: seq<DirectionalComparison>) {
    forall i, j :: 0 <= i < j < |comparisons| ==> comparisons[i].comparisonKey != comparisons[j].comparisonKey
  }

  function IndexByKey(comparisons: seq<DirectionalComparison>): (byKey: ByKey)
    ensures DistinctKeys(comparisons) ==> forall c :: c in comparisons ==>
      c.comparisonKey in byKey && byKey[c.comparisonKey] == c
    ensures forall key :: key in byKey ==> byKey[key] in comparisons && byKey[key].comparisonKey == key
  {
    if comparisons == [] then map[]
    else
      var last := comparisons[|comparisons| - 1];
      assert comparisons == comparisons[..|comparisons| - 1] + [last];
      IndexByKey(comparisons[..|comparisons| - 1])[last.comparisonKey := last]
  }

  function DecisionKeys(decisions: seq<ChainingDecision>): seq<string> {
    seq(|decisions|, k requires 0 <= k < |decisions| => decisions[k].comparisonKey)
  }

  // Every comparison is decided once (also what `parse_chaining_output` lets through).
  ghost predicate Covers(decisions: seq<ChainingDecision>, byKey: ByKey) {
    NoDuplicates(DecisionKeys(decisions)) && Elements(DecisionKeys(decisions)) == byKey.Keys
  }

  method CheckCoverage(decisions: seq<ChainingDecision>, byKey: ByKey) returns (covered: bool)
    ensures covered <==> Covers(decisions, byKey)
  {
    var keys := DecisionKeys(decisions);
    DistinctByCount(keys);
    covered := |keys| == |Elements(keys)| && Elements(keys) == byKey.Keys;
  }

  // Every key has exactly one decision, and every decision a key.
  lemma CoversEachOnce(decisions: seq<ChainingDecision>, byKey: ByKey)
    ensures Covers(decisions, byKey) <==>
      && (forall key :: key in byKey ==> exists k :: 0 <= k < |decisions| && decisions[k].comparisonKey == key)
      && (forall k :: 0 <= k < |decisions| ==> decisions[k].comparisonKey in byKey)
      && forall i, j :: 0 <= i < j < |decisions| ==> decisions[i].comparisonKey != decisions[j].comparisonKey
  {
    var keys := DecisionKeys(decisions);
    forall key
      ensures key in Elements(keys) <==> exists k :: 0 <= k < |decisions| && decisions[k].comparisonKey == key
    {
      if k :| 0 <= k < |decisions| && decisions[k].comparisonKey == key {
        assert keys[k] == key;
      }
    }
    assert Elements(keys) == byKey.Keys <==> forall key :: key in Elements(keys) <==> key in byKey;
    if forall i, j :: 0 <= i < j < |decisions| ==> decisions[i].comparisonKey != decisions[j].comparisonKey {
      assert NoDuplicates(keys);
    }
    forall i, j | NoDuplicates(keys) && 0 <= i < j < |decisions|
      ensures decisions[i].comparisonKey != decisions[j].comparisonKey
    {
      assert keys[i] != keys[j];
    }
  }

  lemma CoveredKey(decisions: seq<ChainingDecision>, byKey: ByKey, k: nat)
    requires Covers(decisions, byKey) && k < |decisions|
    ensures decisions[k].comparisonKey in byKey
  {
    assert DecisionKeys(decisions)[k] in Elements(DecisionKeys(decisions));
  }

  function PairOf(c: DirectionalComparison): SuccessfulMatchPair {
    SuccessfulMatchPair(c.upstream, c.downstream)
  }

  ghost predicate Succeeded(decisions: seq<ChainingDecision>, byKey: ByKey, p: SuccessfulMatchPair) {
    exists k :: 0 <= k < |decisions| && decisions[k].outcome == Match
      && decisions[k].comparisonKey in byKey && PairOf(byKey[decisions[k].comparisonKey]) == p
  }

  // The pairs with a MATCH, each once, in the order of the decisions.
  ghost function Successes(decisions: seq<ChainingDecision>, byKey: ByKey): (pairs: seq<SuccessfulMatchPair>)
    ensures NoDuplicates(pairs)
    ensures forall p :: p in pairs <==> Succeeded(decisions, byKey, p)
  {
    if decisions == [] then []
    else
      var init, d := decisions[..|decisions| - 1], decisions[|decisions| - 1];
      assert decisions == init + [d];
      var pairs := Successes(init, byKey);
      SucceededStep(init, d, byKey);
      if d.outcome == Match && d.comparisonKey in byKey && PairOf(byKey[d.comparisonKey]) !in pairs then
        AppendKeepsNoDuplicates(pairs, PairOf(byKey[d.comparisonKey]));
        pairs + [PairOf(byKey[d.comparisonKey])]
      else pairs
  }

  lemma SucceededStep(init: seq<ChainingDecision>, d: ChainingDecision, byKey: ByKey)
    ensures forall p ::
      Succeeded(init + [d], byKey, p) <==>
      (Succeeded(init, byKey, p)
       || (d.outcome == Match && d.comparisonKey in byKey && PairOf(byKey[d.comparisonKey]) == p))
  {
    var all := init + [d];
    forall p | Succeeded(init, byKey, p) ensures Succeeded(all, byKey, p) {
      var k :| 0 <= k < |init| && init[k].outcome == Match
        && init[k].comparisonKey in byKey && PairOf(byKey[init[k].comparisonKey]) == p;
      assert all[k] == init[k];
    }
    assert all[|init|] == d;
    forall p | Succeeded(all, byKey, p)
      ensures Succeeded(init, byKey, p)
        || (d.outcome == Match && d.comparisonKey in byKey && PairOf(byKey[d.comparisonKey]) == p)
    {
      var k :| 0 <= k < |all| && all[k].outcome == Match
        && all[k].comparisonKey in byKey && PairOf(byKey[all[k].comparisonKey]) == p;
      assert k < |init| ==> all[k] == init[k];
    }
  }

  method SuccessfulPairs(decisions: seq<ChainingDecision>, byKey: ByKey)
    returns (pairs: seq<SuccessfulMatchPair>)
    requires Covers(decisions, byKey)
    ensures pairs == Successes(decisions, byKey)
    ensures NoDuplicates(pairs)
    ensures forall p :: p in pairs <==> Succeeded(decisions, byKey, p)
  {
    pairs := [];
    for i := 0 to |decisions|
      invariant pairs == Successes(decisions[..i], byKey)
    {
      CoveredKey(decisions, byKey, i);
      assert decisions[..i + 1][..i] == decisions[..i];
      var pair := PairOf(byKey[decisions[i].comparisonKey]);
      if decisions[i].outcome == Match && pair !in pairs {
        pairs := pairs + [pair];
      }
    }
    assert decisions[..|decisions|] == decisions;
  }

  // ------------------------------------------------------------ kept decisions

  ghost predicate OnExcluded(d: ChainingDecision, byKey: ByKey, trigger: StoredDataRef, excluded: set<StoredDataRef>) {
    d.comparisonKey in byKey && Candidate(PairOf(byKey[d.comparisonKey]), trigger) in excluded
  }

  // The decisions with this outcome whose candidate is not excluded, in order.
  ghost function Kept(decisions: seq<ChainingDecision>, byKey: ByKey, trigger: StoredDataRef,
                      excluded: set<StoredDataRef>, outcome: Outcome): seq<ChainingDecision>
  {
    if decisions == [] then []
    else
      var init, d := decisions[..|decisions| - 1], decisions[|decisions| - 1];
      Kept(init, byKey, trigger, excluded, outcome)
      + (if d.outcome == outcome && !OnExcluded(d, byKey, trigger, excluded) then [d] else [])
  }

  ghost function CountExcluded(decisions: seq<ChainingDecision>, byKey: ByKey, trigger: StoredDataRef,
                               excluded: set<StoredDataRef>): nat
  {
    if decisions == [] then 0
    else
      CountExcluded(decisions[..|decisions| - 1], byKey, trigger, excluded)
      + if OnExcluded(decisions[|decisions| - 1], byKey, trigger, excluded) then 1 else 0
  }

  lemma {:induction false} KeptDecisions(decisions: seq<ChainingDecision>, byKey: ByKey, trigger: StoredDataRef,
                                         excluded: set<StoredDataRef>, outcome: Outcome)
    ensures forall d :: d in Kept(decisions, byKey, trigger, excluded, outcome) <==>
      d in decisions && d.outcome == outcome && !OnExcluded(d, byKey, trigger, excluded)
    ensures NoDuplicates(DecisionKeys(decisions)) ==>
      NoDuplicates(DecisionKeys(Kept(decisions, byKey, trigger, excluded, outcome)))
  {
    if decisions != [] {
      var init, d := decisions[..|decisions| - 1], decisions[|decisions| - 1];
      assert decisions == init + [d];
      KeptDecisions(init, byKey, trigger, excluded, outcome);
      var rest := Kept(init, byKey, trigger, excluded, outcome);
      if NoDuplicates(DecisionKeys(decisions)) {
        assert forall k :: 0 <= k < |init| ==> DecisionKeys(init)[k] == DecisionKeys(decisions)[k];
        assert NoDuplicates(DecisionKeys(init));
        forall k | 0 <= k < |rest| ensures DecisionKeys(rest)[k] != d.comparisonKey {
          assert rest[k] in init;
          var m :| 0 <= m < |init| && init[m] == rest[k];
          assert DecisionKeys(decisions)[m] != DecisionKeys(decisions)[|init|];
        }
        assert d.comparisonKey !in DecisionKeys(rest);
        AppendKeepsNoDuplicates(DecisionKeys(rest), d.comparisonKey);
        assert DecisionKeys(rest + [d]) == DecisionKeys(rest) + [d.comparisonKey];
        assert rest + [] == rest;
      }
    }
  }

  // Conservation: a decision is kept as a match, kept as a no-match, or excluded.
  lemma {:induction false} DecisionsAreConserved(decisions: seq<ChainingDecision>, byKey: ByKey, trigger: StoredDataRef,
                                                 excluded: set<StoredDataRef>)
    ensures |decisions| == |Kept(decisions, byKey, trigger, excluded, Match)|
      + |Kept(decisions, byKey, trigger, excluded, NoMatch)| + CountExcluded(decisions, byKey, trigger, excluded)
  {
    if decisions != [] {
      DecisionsAreConserved(decisions[..|decisions| - 1], byKey, trigger, excluded);
    }
  }

  // ------------------------------------------------------------- second loop

  datatype Collected = Collected(
    matches: seq<MatchCandidate>, proposals: seq<HypothesisProposal>, noMatches: seq<NoMatchReason>)

  ghost predicate AnswersMatch(entries: seq<PrimitiveEntry>, byKey: ByKey, prompt: TrustedPrompt, d: ChainingDecision,
                               m: MatchCandidate, p: HypothesisProposal)
  {
    && d.comparisonKey in byKey
    && var c := byKey[d.comparisonKey];
    && Lists(entries, c.upstream) && Lists(entries, c.downstream)
    && IsMatchOf(c, prompt, d, EntryFor(entries, c.upstream).primitive, EntryFor(entries, c.downstream).primitive, m)
    && IsProposalOf(d, m, EntryFor(entries, c.upstream).primitive, EntryFor(entries, c.downstream).primitive, p)
  }

  ghost predicate AnswersNoMatch(byKey: ByKey, d: ChainingDecision, n: NoMatchReason) {
    && d.comparisonKey in byKey
    && n.upstream == byKey[d.comparisonKey].upstream && n.downstream == byKey[d.comparisonKey].downstream
    && n.inputId == byKey[d.comparisonKey].matchedInputId
    && Some(n.reasonCode) == d.reasonCode && n.detail == d.detail
  }

  // Matches, proposals and reasons answer the kept decisions one for one, in order.
  ghost predicate Answers(entries: seq<PrimitiveEntry>, byKey: ByKey, prompt: TrustedPrompt,
                          kept: seq<ChainingDecision>, dropped: seq<ChainingDecision>, out: Collected) {
    && |out.matches| == |out.proposals| == |kept|
    && (forall k :: 0 <= k < |kept| ==>
          AnswersMatch(entries, byKey, prompt, kept[k], out.matches[k], out.proposals[k]))
    && |out.noMatches| == |dropped|
    && (forall k :: 0 <= k < |dropped| ==> AnswersNoMatch(byKey, dropped[k], out.noMatches[k]))
  }

  ghost predicate Answered(entries: seq<PrimitiveEntry>, byKey: ByKey, prompt: TrustedPrompt,
                           decisions: seq<ChainingDecision>, trigger: StoredDataRef, excluded: set<StoredDataRef>,
                           out: Collected) {
    Answers(entries, byKey, prompt, Kept(decisions, byKey, trigger, excluded, Match),
            Kept(decisions, byKey, trigger, excluded, NoMatch), out)
  }

  ghost predicate DistinctMatchIds(matches: seq<MatchCandidate>) {
    forall i, j :: 0 <= i < j < |matches| ==> matches[i].matchId != matches[j].matchId
  }

  ghost predicate IdsBelow(matches: seq<MatchCandidate>, next: nat) {
    forall k :: 0 <= k < |matches| ==> matches[k].matchId < next
  }

  lemma FreshMatchId(matches: seq<MatchCandidate>, m: MatchCandidate)
    requires DistinctMatchIds(matches) && IdsBelow(matches, m.matchId)
    ensures DistinctMatchIds(matches + [m]) && IdsBelow(matches + [m], m.matchId + 1)
  {
  }

  ghost predicate AllCompared(entries: seq<PrimitiveEntry>, byKey: ByKey) {
    forall key :: key in byKey ==> Lists(entries, byKey[key].upstream) && Lists(entries, byKey[key].downstream)
  }

  // What one decision makes the second loop raise.
  ghost function DecisionFault(entries: seq<PrimitiveEntry>, byKey: ByKey, prompt: TrustedPrompt,
                               trigger: StoredDataRef, excluded: set<StoredDataRef>,
                               d: ChainingDecision): Option<FinalizeError>
    requires AllCompared(entries, byKey)
  {
    if d.comparisonKey !in byKey || OnExcluded(d, byKey, trigger, excluded) then None
    else match d.outcome
      case NoMatch =>
        if d.reasonCode.None? then Some(NoMatchReasonRequired)
        else if Blank(d.detail) then Some(NoMatchReasonRefused)
        else None
      case Match =>
        var c := byKey[d.comparisonKey];
        match ProposalFault(c, d, EntryFor(entries, c.upstream).primitive, EntryFor(entries, c.downstream).primitive,
                            prompt)
        case None => None
        case Some(fault) => Some(ProposalFailed(fault))
  }

  // The first faulty decision decides.
  ghost function FirstFault(decisions: seq<ChainingDecision>, byKey: ByKey, trigger: StoredDataRef,
                            excluded: set<StoredDataRef>, entries: seq<PrimitiveEntry>, prompt: TrustedPrompt)
    : Option<FinalizeError>
    requires AllCompared(entries, byKey)
  {
    if decisions == [] then None
    else
      var before := FirstFault(decisions[..|decisions| - 1], byKey, trigger, excluded, entries, prompt);
      if before.Some? then before
      else DecisionFault(entries, byKey, prompt, trigger, excluded, decisions[|decisions| - 1])
  }

  lemma {:induction false} FirstFaultStays(decisions: seq<ChainingDecision>, i: nat, byKey: ByKey,
                                           trigger: StoredDataRef, excluded: set<StoredDataRef>,
                                           entries: seq<PrimitiveEntry>, prompt: TrustedPrompt)
    requires AllCompared(entries, byKey) && i <= |decisions|
    requires FirstFault(decisions[..i], byKey, trigger, excluded, entries, prompt).Some?
    ensures FirstFault(decisions, byKey, trigger, excluded, entries, prompt)
         == FirstFault(decisions[..i], byKey, trigger, excluded, entries, prompt)
  {
    if i == |decisions| {
      assert decisions[..i] == decisions;
    } else {
      assert decisions[..|decisions| - 1][..i] == decisions[..i];
      FirstFaultStays(decisions[..|decisions| - 1], i, byKey, trigger, excluded, entries, prompt);
    }
  }

  lemma {:induction false} FaultStep(decisions: seq<ChainingDecision>, i: nat, byKey: ByKey, trigger: StoredDataRef,
                                     excluded: set<StoredDataRef>, entries: seq<PrimitiveEntry>, prompt: TrustedPrompt)
    requires AllCompared(entries, byKey) && i < |decisions|
    requires FirstFault(decisions[..i], byKey, trigger, excluded, entries, prompt).None?
    ensures var fault := DecisionFault(entries, byKey, prompt, trigger, excluded, decisions[i]);
      && FirstFault(decisions[..i + 1], byKey, trigger, excluded, entries, prompt) == fault
      && (fault.Some? ==> FirstFault(decisions, byKey, trigger, excluded, entries, prompt) == fault)
  {
    assert decisions[..i + 1][..i] == decisions[..i];
    if DecisionFault(entries, byKey, prompt, trigger, excluded, decisions[i]).Some? {
      FirstFaultStays(decisions, i + 1, byKey, trigger, excluded, entries, prompt);
    }
  }

  // A fault of the loop is the fault of one of the decisions, and without one there is none.
  lemma {:induction false} FaultHasDecision(decisions: seq<ChainingDecision>, byKey: ByKey, trigger: StoredDataRef,
                                            excluded: set<StoredDataRef>, entries: seq<PrimitiveEntry>,
                                            prompt: TrustedPrompt)
    requires AllCompared(entries, byKey)
    ensures var first := FirstFault(decisions, byKey, trigger, excluded, entries, prompt);
      first.Some? ==>
        exists d :: d in decisions && DecisionFault(entries, byKey, prompt, trigger, excluded, d) == first
    ensures FirstFault(decisions, byKey, trigger, excluded, entries, prompt).None? <==>
      forall d :: d in decisions ==> DecisionFault(entries, byKey, prompt, trigger, excluded, d).None?
  {
    if decisions != [] {
      var init, d := decisions[..|decisions| - 1], decisions[|decisions| - 1];
      assert decisions == init + [d];
      FaultHasDecision(init, byKey, trigger, excluded, entries, prompt);
      assert d in decisions;
    }
  }

  method Collect(decisions: seq<ChainingDecision>, byKey: ByKey, trigger: StoredDataRef, excluded: set<StoredDataRef>,
                 retained: set<SuccessfulMatchPair>, entries: seq<PrimitiveEntry>, prompt: TrustedPrompt)
    returns (r: Result<Collected, FinalizeError>)
    requires Covers(decisions, byKey) && AllCompared(entries, byKey)
    requires forall p :: Succeeded(decisions, byKey, p) && Candidate(p, trigger) !in excluded ==> p in retained
    ensures r.Ok? <==> FirstFault(decisions, byKey, trigger, excluded, entries, prompt).None?
    ensures r.Err? ==> FirstFault(decisions, byKey, trigger, excluded, entries, prompt) == Some(r.error)
    ensures r.Ok? ==> Answered(entries, byKey, prompt, decisions, trigger, excluded, r.value)
    ensures r.Ok? ==> DistinctMatchIds(r.value.matches)
  {
    var out := Collected([], [], []);
    var nextId: nat := 0;
    for i := 0 to |decisions|
      invariant FirstFault(decisions[..i], byKey, trigger, excluded, entries, prompt).None?
      invariant Answered(entries, byKey, prompt, decisions[..i], trigger, excluded, out)
      invariant DistinctMatchIds(out.matches) && IdsBelow(out.matches, nextId)
    {
      var d := decisions[i];
      CoveredKey(decisions, byKey, i);
      var c := byKey[d.comparisonKey];
      FaultStep(decisions, i, byKey, trigger, excluded, entries, prompt);
      if Candidate(PairOf(c), trigger) in excluded {
        SkippedKeeps(decisions, i, byKey, trigger, excluded);
      } else if d.outcome == Match {
        assert Succeeded(decisions, byKey, PairOf(c));
        if PairOf(c) in retained {
          var made := MatchAndProposal(c, d, EntryFor(entries, c.upstream).primitive,
                                       EntryFor(entries, c.downstream).primitive, prompt, nextId);
          if made.Err? {
            return Err(ProposalFailed(made.error));
          }
          FreshMatchId(out.matches, made.value.0);
          nextId := nextId + 1;
          AnswersMore(entries, byKey, prompt, decisions, i, trigger, excluded, out, made.value.0, made.value.1);
          out := out.(matches := out.matches + [made.value.0], proposals := out.proposals + [made.value.1]);
        }
      } else {
        if d.reasonCode.None? {
          return Err(NoMatchReasonRequired);
        }
        if Blank(d.detail) {
          return Err(NoMatchReasonRefused);
        }
        var reason := NoMatchReason(c.upstream, c.downstream, c.matchedInputId, d.reasonCode.value, d.detail);
        AnswersOneReasonMore(entries, byKey, prompt, decisions, i, trigger, excluded, out, reason);
        out := out.(noMatches := out.noMatches + [reason]);
      }
    }
    assert decisions[..|decisions|] == decisions;
    return Ok(out);
  }

  lemma {:induction false} SkippedKeeps(decisions: seq<ChainingDecision>, i: nat, byKey: ByKey, trigger: StoredDataRef,
                                        excluded: set<StoredDataRef>)
    requires i < |decisions| && OnExcluded(decisions[i], byKey, trigger, excluded)
    ensures forall o :: Kept(decisions[..i + 1], byKey, trigger, excluded, o)
                     == Kept(decisions[..i], byKey, trigger, excluded, o)
  {
    assert decisions[..i + 1][..i] == decisions[..i];
  }

  lemma AnswersMore(entries: seq<PrimitiveEntry>, byKey: ByKey, prompt: TrustedPrompt, decisions: seq<ChainingDecision>,
                    i: nat, trigger: StoredDataRef, excluded: set<StoredDataRef>, out: Collected, m: MatchCandidate,
                    p: HypothesisProposal)
    requires i < |decisions| && decisions[i].outcome == Match
    requires !OnExcluded(decisions[i], byKey, trigger, excluded)
    requires AnswersMatch(entries, byKey, prompt, decisions[i], m, p)
    requires Answered(entries, byKey, prompt, decisions[..i], trigger, excluded, out)
    ensures Answered(entries, byKey, prompt, decisions[..i + 1], trigger, excluded,
                     out.(matches := out.matches + [m], proposals := out.proposals + [p]))
  {
    KeptStep(decisions, i, byKey, trigger, excluded);
    ThreewiseGrows(Kept(decisions[..i], byKey, trigger, excluded, Match), out.matches, out.proposals, decisions[i], m,
                   p, (d, n, q) => AnswersMatch(entries, byKey, prompt, d, n, q));
  }

  lemma {:induction false} KeptStep(decisions: seq<ChainingDecision>, i: nat, byKey: ByKey, trigger: StoredDataRef,
                                    excluded: set<StoredDataRef>)
    requires i < |decisions| && !OnExcluded(decisions[i], byKey, trigger, excluded)
    ensures var d, before := decisions[i], decisions[..i];
      && Kept(decisions[..i + 1], byKey, trigger, excluded, d.outcome)
         == Kept(before, byKey, trigger, excluded, d.outcome) + [d]
      && forall o :: o != d.outcome ==>
        Kept(decisions[..i + 1], byKey, trigger, excluded, o) == Kept(before, byKey, trigger, excluded, o)
  {
    assert decisions[..i + 1][..i] == decisions[..i];
  }

  lemma AnswersOneReasonMore(entries: seq<PrimitiveEntry>, byKey: ByKey, prompt: TrustedPrompt,
                             decisions: seq<ChainingDecision>, i: nat, trigger: StoredDataRef,
                             excluded: set<StoredDataRef>, out: Collected, reason: NoMatchReason)
    requires i < |decisions| && decisions[i].outcome == NoMatch
    requires !OnExcluded(decisions[i], byKey, trigger, excluded)
    requires AnswersNoMatch(byKey, decisions[i], reason)
    requires Answered(entries, byKey, prompt, decisions[..i], trigger, excluded, out)
    ensures Answered(entries, byKey, prompt, decisions[..i + 1], trigger, excluded,
                     out.(noMatches := out.noMatches + [reason]))
  {
    KeptStep(decisions, i, byKey, trigger, excluded);
  }
}
