# Verified model of sastsimi's chaining engine and its neighbours

sastsimi analyses a repository and turns what it verifies into *Primitives*: things an attacker
needs (inputs) and, for a confirmed weakness, the thing it yields (a result). The **chaining
engine** combines Primitives. A work owns one trigger Primitive and a frozen pool of others; it
enumerates directional comparisons (result of one, input of the other), asks an agent to decide
each, keeps the deepest successful ones and records matches, proposals, no-match reasons and the
ancestors it excluded. This project models that engine together with the other algorithms and
protocols of the repository whose behaviour is not visible in one body.

| Dafny modules | what they model |
|---|---|
| `Lineage`, `Retention`, `Exclusions` | depth-first lineage with cycle detection, the greedy retention loop, the exclusions derived from it |
| `StorageLineage`, `StoredExclusions` | storage's own traversal and storage's second derivation of the exclusions |
| `Keys`, `Primitives`, `Matching`, `Ownership` | comparison enumeration, prompt-local keys, and who compares a pair |
| `Prompt`, `DecisionParsing`, `Proposals`, `Decisions`, `Finalize`, `Closure`, `Finalization`, `Workflow` | the trusted prompt, the parsed answer, and the result with all its checks |
| `Answers`, `Siblings`, `FiveRecords` | an answer for every choice of pairs, and completed runs that storage accepts or refuses |
| `EvidenceClosure`, `PrimitiveDrafts` | the evidence worklists of verification and the acceptance of Primitive drafts |
| `CapabilityStore`, `CapabilityProtocol`, `CapabilityRuns`, `CapabilityRevocation` | the probe / authorize / register / publish protocol as three tables and a state machine |
| `DockerInventory`, `Cancellation` | sandbox cancellation over a Docker inventory that may fail and may change underneath |
| `CurrentRecord` | the compare-and-set "current record" pointer and the revision chain under it |
| `LazyInit`, `ReceiptWalk` | double-checked initialisation, and the budgeted walk for process receipts |
| `LogSanitizer`, `LogEvents`, `DocFragments` | the log boundary, and the Markdown fragment checker with its cache |
| `Basics`, `Ordering`, `Reachability`, `Refs`, `Worklists` | shared values and lemmas |

Code that works step by step is written as methods with loops, classes or state machines and is
proved against a specification (reachability, maximality, a recursive reference, a pure
transition function); what the system promises is then proved about that specification. Records,
canonical bytes and content hashes are values: equal content means an equal reference.
Predicates and functions that only state something are ghost, so no method body can use them:
a check stands in a body as the code has it, and in a contract as what it means. A function that a
body and a contract share has laws that do not mention it.
Automatic induction is switched off wherever the verifier would otherwise apply it, so each
inductive argument is written out.

## What the proofs found

- **The storage port misses cycles.** `SQLiteChainingLineage.ancestors` notices a cycle only when
  it runs through the reference it was asked about (`StorageLineage.PortMissesCycle`). The chaining
  service still refuses every reachable cycle, because its own traversal asks the port again at
  every ancestor (`StorageLineage.TraversalOverPort`).
- **Ownership has one standoff.** Exactly one of two works compares a pair whenever one pool holds
  the other trigger, except when both pools hold each other and the two references carry the same
  record id: then both works decline (`Ownership.ExactlyOneOwner`, both directions;
  `Ownership.StandoffExample`). Storage keys its records by record id
  (`storage/repositories.py:42-69`), so stored pools have distinct ids and no standoff
  (`Ownership.DistinctIdsNeverStandOff`).
- **Service and storage can disagree.** The service records each excluded ancestor once; storage
  expects it once per matched descendant. A finished result is refused exactly when two different
  retained candidates share an ancestor (`StoredExclusions.RecordedMatchesStored`,
  `Workflow.StorageAcceptsIff`). Whenever a work compares its trigger with two Primitives of its pool
  that have a common ancestor, neither above the other, and both pairs agree on their restrictions
  and name an entity, an agent can answer so that the work completes and storage refuses the
  result (`Siblings.RefusedRun`). Five valid records run into it (`FiveRecords.RunExample`): the
  work of the second matches the first and is accepted; from the hypothesis of that match come two
  Primitives, one for each candidate it provides; the work of the fifth record matches both and is
  refused.
- **The retention sort can raise.** Two pairs that tie on depth and on all three record ids make
  Python compare the pairs themselves, which have no order (`Retention.RetentionSucceeds`,
  `Retention.SharedIdExample`). With distinct record ids, as storage guarantees, no tie occurs
  (`Retention.DistinctIdsAreOrderable`).
- **What `_finalize` refuses behind the parser.** The filter at `lineage.py:82` removes nothing, and
  the error `CHAINING_SUCCESSFUL_CANDIDATE_EXCLUDED` and the second guard of `_finalize` never
  trigger. Once the answer is parsed, only these failures are left, each raised exactly under its
  condition (`Workflow.ExecuteWork`, `Finalization.FinalizeFault`, `Workflow.Residual`), in this order:
  the selection (a matched candidate's lineage is faulty, two successes tie, or an ancestor of a
  success is the trigger or lies outside the pool); a kept match that cites evidence of a third
  Primitive, joins contradicting restrictions, or names a vulnerability type twice; a universe in
  another workspace or commit than the work; a universe in another analysis, or a retained pair
  that names no entity.
- **A repeated vulnerability type passes the parser.** The content rules of the answer do not ask
  for distinct types, the proposal record does (`contracts/hypothesis.py:74`): a work that would
  complete fails when one kept match answers with `("XSS", "XSS")`
  (`Workflow.RepeatedTypeFailsTheWork`).
- **The draft record is stricter than the checks before it.** A draft that cites one reference twice,
  or a record of a kind that is no evidence, passes the closure checks and is refused only by the
  constructor of the draft (`PrimitiveDrafts.RepeatedCitationPasses`).
- **An approval belongs to its approver.** After a crash between authorization and publication
  only the same approver can finish, and a first approval needs a clock that is not behind the
  probe (`CapabilityRuns.RetryOutcome`); once the approval of a published probe
  is revoked, new calls return nothing although the published row stays
  (`CapabilityRuns.RevokedIsRefused`). Over all later runs that do not unpublish, nothing more is
  returned for the probe, except when a call stood between its last check and its return at the
  revocation: that call still returns (`CapabilityRevocation.RevocationHolds`, both directions).
- **Tags are weaker than containers.** If somebody else acts on Docker between inspection and
  removal, a removed container still carries the snapshot's labels, because an identifier keeps
  its labels. Of a removed tag it is certain that its image was the snapshot's when it was
  inspected, and the status is exactly what the tags seen by the three commands give, whoever
  interferes (`Cancellation.CancelImage`). Read off that contract: at the removal the image is the
  snapshot's exactly when the tag still names an image with the same labels and, for an image
  entry, the same digest (`Cancellation.UntaggedImageMatchesIff`); otherwise a foreign image loses
  its tag and the entry counts as stopped (`Cancellation.ForeignImageLosesItsTag`).
- **A record called None.** `str(None)` is compared with the current record id. Republishing a
  superseded record is refused unless the current record's id is the text `None` and the
  superseded one is a first revision (`CurrentRecord.Republish`, both directions); in that case
  the pointer goes back (`CurrentRecord.RepublishGoesBack`, `CurrentRecord.NoneReturns`). Without
  such an id the pointer never goes back and its version is the revision number.
- **Events at the nesting limit get lost.** `safe_event` sanitizes the fields at depth 0, the
  formatter one level deeper, so an event whose fields reach the limit is created and then
  rejected at emission (`LogEvents.CreatedButRejected`).

## Model

| member | source | states |
|---|---|---|
| Lineage.Traversal.Visit | src/sastsimi/chaining/lineage.py:59-80 | From any intermediate state the nested visit succeeds exactly when nothing reachable is missing, foreign or cyclic, and then has added exactly the ancestors of the visited node, each after its own ancestors; otherwise the error is a true report about a reachable node |
| Lineage.LineageOf | src/sastsimi/chaining/lineage.py:43-83 | `lineage` terminates on every finite parent map; it returns iff everything reachable is valid and acyclic, and then lists exactly the proper ancestors, each once, ancestors first, with depth equal to their number; every error names a real fault |
| Lineage.LineageDefinedIff | src/sastsimi/chaining/lineage.py:43-83 | A lineage is defined iff every path from the reference stays among committed Primitive records, each found under its own reference, in one analysis, workspace and commit, without a cycle |
| Lineage.ValidateNode | src/sastsimi/chaining/lineage.py:227-246 | The first thing wrong with a node: its reference, its identity, its state, its scope; nothing iff the node is committed under its reference in the one analysis, workspace and commit |
| Lineage.AncestorIsShallower | src/sastsimi/chaining/lineage.py:43-83 | If x is an ancestor of y, the ancestors of x are a proper subset of those of y, so depth strictly decreases upwards |
| Lineage.AncestorLineageDefined | src/sastsimi/chaining/lineage.py:59-80 | An ancestor of a node with a defined lineage has a defined lineage itself, whichever node the traversal started from |
| Lineage.AncestorSetIsComplete | src/sastsimi/chaining/lineage.py:43-83 | The ancestor set of a defined lineage is exactly what one or more parent steps reach |
| Retention.OrderDeepestFirst | src/sastsimi/chaining/lineage.py:86-106 | A permutation of the references by descending ancestor count and then ascending record id, read off the first differing character; references that tie keep their order; a repeated reference is reported first, otherwise the fault of the first reference whose lineage fails |
| Retention.DescendantsComeFirst | src/sastsimi/chaining/lineage.py:86-106 | In that order no reference comes after one of its own ancestors |
| Retention.EqualDepthById | src/sastsimi/chaining/lineage.py:104-106 | Of two records of one depth the earlier one has the smaller record id |
| Retention.RootsInIdOrder | src/sastsimi/chaining/lineage.py:104-106 | Two root Primitives with the ids a and b are listed in this order for every input order |
| Retention.RankPair | src/sastsimi/chaining/lineage.py:190-200 | One pair is ranked exactly when its candidate's lineage is defined and both sides are Primitive records; otherwise the first of these faults is reported |
| Retention.RankPairs | src/sastsimi/chaining/lineage.py:162-200 | The checking loop succeeds exactly when the pairs are distinct, touch the trigger, lie in the considered set and have defined lineages, and then ranks every pair; otherwise the first failing pair decides the error |
| Retention.SortRanked | src/sastsimi/chaining/lineage.py:192-203 | The sort raises exactly when two different pairs tie on the whole key; otherwise the order is strict |
| Retention.GreedyDecides | src/sastsimi/chaining/lineage.py:203-218 | Whatever ranks before a pair decides it: the pair's candidate is in the growing exclusion set iff it is an ancestor of some successful candidate |
| Retention.DeepestDescendant | src/sastsimi/chaining/lineage.py:203-218 | Every candidate that is an ancestor of a candidate is an ancestor of a maximal one |
| Retention.ExcludeAncestors | src/sastsimi/chaining/lineage.py:211-217 | Adds exactly the ancestors of a retained candidate and fails iff one of them is the trigger or outside the considered set |
| Retention.ChooseGreedily | src/sastsimi/chaining/lineage.py:201-218 | The greedy loop over the sorted pairs equals the declarative filter of maximal pairs, and checks the ancestors of skipped pairs too |
| Retention.RetainDeepestSuccessfulMatches | src/sastsimi/chaining/lineage.py:162-218 | Succeeds exactly under `RetentionSucceeds` and returns, deepest candidate first and then by ascending ids, exactly the pairs whose candidate is not an ancestor of another successful candidate; otherwise it reports `SelectionFault`, in the order of the checks |
| Retention.RetainedById | src/sastsimi/chaining/lineage.py:190-203 | Of two retained pairs with equally deep candidates the first has the smaller candidate id, then the smaller upstream id, then the smaller downstream id |
| Retention.DistinctIdsAreOrderable | src/sastsimi/chaining/lineage.py:192-203 | Eligible pairs from a universe with one reference for each record id never tie |
| Retention.SharedIdRaises | src/sastsimi/chaining/lineage.py:192-203 | Two root Primitives under one record id pass every check of a pair, and the selection raises because they tie |
| Retention.SharedIdExample | src/sastsimi/chaining/lineage.py:192-203 | Concrete references for which nothing but the tie is reported |
| Exclusions.RetentionIsUnique | src/sastsimi/chaining/lineage.py:162-218 | Two inputs with the same successes in any order have the same retained sequence |
| Exclusions.RetentionIsIdempotent | src/sastsimi/chaining/lineage.py:109-159 | Retaining an already retained list succeeds and returns the same sequence |
| Exclusions.RetainedRefsAreNoAncestors | src/sastsimi/chaining/lineage.py:109-159 | No reference of a retained pair, and not the trigger, is an ancestor of a retained candidate |
| Exclusions.RetainedRefsAreClear | src/sastsimi/chaining/lineage.py:134-157 | Neither error of the inner exclusion loop can be reached for a retained candidate |
| Exclusions.DroppedCandidateIsExcluded | src/sastsimi/chaining/service.py:431-448 | A successful pair is either retained or its candidate is an ancestor of a retained one |
| Exclusions.ExpectedLineageExclusions | src/sastsimi/chaining/lineage.py:109-159 | On success the exclusions are the union of the retained candidates' ancestors, each once, each blamed on the first retained candidate that descends from it; it fails exactly as the selection does |
| Exclusions.BlamedOnDeepest | src/sastsimi/chaining/lineage.py:134-157 | Of the retained candidates that descend from an excluded reference, the deepest one is blamed, among equally deep ones the one with the smallest record id |
| Exclusions.SmallerIdIsBlamed | src/sastsimi/chaining/lineage.py:134-157 | When two equally deep candidates a and b share an ancestor, a is blamed for it |
| Exclusions.AppendExclusions | src/sastsimi/chaining/lineage.py:134-157 | Lists every ancestor of one retained candidate once; fails iff the lineage is faulty or an ancestor lies outside the pool or is retained, and reports that fault |
| Exclusions.ExclusionsOfRetained | src/sastsimi/chaining/service.py:431-448 | On the retained list the derivation succeeds and never raises that a successful candidate is excluded |
| Exclusions.ExclusionsAreOvertaken | src/sastsimi/chaining/lineage.py:109-159 | The excluded references are exactly the ancestors of all successful candidates, dropped ones included |
| StorageLineage.PortTraversal.Visit | src/sastsimi/storage/chaining_lineage.py:25-69 | Storage's visit collects the ancestors it can read, and notices only a cycle through its own start; a raised error is a true report: an ancestor outside the pool, an unreadable one, or a path back to the start |
| StorageLineage.PortAncestors | src/sastsimi/storage/chaining_lineage.py:25-69 | One call of the port succeeds exactly when every reachable Primitive is readable and no path leads back to the start, and then lists all ancestors; otherwise the error names such a fault |
| StorageLineage.TraversalOverPort | src/sastsimi/chaining/service.py:621-637 | The service's lineage over the port is defined exactly when everything reachable is readable, in scope and acyclic, and finds the same ancestors as the stored provenance |
| StorageLineage.PortMissesCycle | src/sastsimi/storage/chaining_lineage.py:25-69 | A store whose chained Primitives have two different sources each, on which the port succeeds although a cycle is reachable |
| StoredExclusions.MatchAncestors | src/sastsimi/storage/chaining_projection.py:28-73 | The checks of one match in storage, both directions, with the ancestors of its candidate; otherwise the fault in the order shape, port, reused ancestor |
| StoredExclusions.StoredExpectedExclusions | src/sastsimi/storage/chaining_projection.py:28-73 | Storage expects one exclusion for every pair of a matched candidate and one of its ancestors, and nothing else; otherwise the first match that fails a check decides the error |
| StoredExclusions.RecordedMatchesStored | src/sastsimi/contracts/_domain.py:94-98 | The service's list passes the exact-set check against storage's list iff no two different retained candidates share an ancestor |
| Keys.DecimalInjective | src/sastsimi/chaining/matching.py:67 | Different ordinals have different decimal texts |
| Keys.DecimalReads | src/sastsimi/chaining/matching.py:67 | The text of a number has no leading zero, and reading its digits from the left gives the number back |
| Keys.KeyInjective | src/sastsimi/chaining/service.py:277-280 | `prefix-n` determines n |
| Keys.Key2Injective | src/sastsimi/chaining/service.py:301-341 | `prefix-n-m` determines n and m, because digits hold no separator |
| Keys.KeyExample | src/sastsimi/chaining/matching.py:67 | The twelfth comparison is comparison-12, the tenth evidence of the third entry evidence-3-10 |
| Matching.AppendDirection | src/sastsimi/chaining/matching.py:55-73 | One direction appends the result of one Primitive against the inputs of the other, in their order, numbered on from the comparisons before |
| Matching.DirectionalComparisons | src/sastsimi/chaining/matching.py:31-73 | Succeeds exactly on a pinned universe and then lists every (upstream with a result, downstream, input) that involves the trigger, none twice, none with itself, keys 1..n in the order of the two loops |
| Matching.CheckPinned | src/sastsimi/chaining/matching.py:37-53 | The checks pass iff references are distinct, the trigger is among them, and every entry is the record it names, in the trigger's analysis, workspace and commit |
| Matching.EnumerationIsComplete | src/sastsimi/chaining/matching.py:54-73 | Entry by entry, what the trigger yields and then what it needs: every question of the universe, and none twice |
| Matching.FirstQuestion | src/sastsimi/chaining/matching.py:54-73 | The trigger's result against the first input of the first other entry comes first; without a result, what the trigger itself needs |
| Matching.KeysIdentify | src/sastsimi/chaining/matching.py:62-71 | A comparison key identifies one comparison |
| Ownership.ExactlyOneOwner | src/sastsimi/chaining/matching.py:76-100 | For any frozen pools, exactly one of two works owns the pair iff one pool holds the other trigger and the pair is not the equal-id standoff; otherwise none does |
| Ownership.LaterIdOwns | src/sastsimi/chaining/matching.py:97-100 | Of two works that know each other the one with the later record id compares the pair; a work the other does not know of compares it alone |
| Ownership.LaterIdExample | src/sastsimi/chaining/matching.py:97-100 | Where both pools hold "z-record" and "a-record", the work of "z-record" compares them |
| Ownership.OwnsPairDecides | src/sastsimi/chaining/matching.py:76-100 | The decision and its three errors, in the order of the checks |
| Ownership.OwnedComparisons | src/sastsimi/chaining/service.py:241-270 | Succeeds exactly when every history is usable and the universe is pinned, and then lists, in the order of the enumeration and under its keys, exactly the questions whose other trigger does not know this one or has the earlier record id; otherwise the first entry without a usable history decides the error, and the universe is checked last |
| Ownership.KeepOwnedIsSubsequence | src/sastsimi/chaining/service.py:261-270 | The filter picks comparisons at rising positions, so order and uniqueness stay |
| Ownership.WorkListsItsComparisons | src/sastsimi/chaining/service.py:241-270 | A question is listed by a work iff its two Primitives ask it and the work owns the pair |
| Ownership.EveryQuestionListedOnce | src/sastsimi/chaining/matching.py:76-100 | Over all works together, every eligible question outside the standoff has exactly one work that lists it |
| Ownership.EveryQuestionHasOnePlace | src/sastsimi/chaining/service.py:241-270 | With the lists of all works side by side, a question stands somewhere iff it is eligible outside the standoff, and then in one place of one list only |
| Ownership.DistinctIdsNeverStandOff | src/sastsimi/chaining/matching.py:76-100 | Different record ids: exactly one of the two works owns the pair iff one pool holds the other trigger |
| Ownership.StandoffExample | src/sastsimi/chaining/matching.py:76-100 | Concrete frozen pools that meet and in which nobody owns the pair |
| Prompt.AddEvidence | src/sastsimi/chaining/service.py:288-297 | A new evidence key keeps the ledger consistent: keys distinct, one owner each, evidence cited by the owner |
| Prompt.AddEntryEvidence | src/sastsimi/chaining/service.py:299-313 | The evidence keys of one entry stand, one for one and in order, for its semantic evidence references, all fresh and owned by it |
| Prompt.AllIsSemanticEvidence | src/sastsimi/chaining/service.py:645-705 | The semantic evidence of a Primitive is everything it cites, its verification and technical review first |
| Prompt.AddEntities | src/sastsimi/chaining/service.py:314-332 | Every entity of the entry's drafts has a key owned by the entry, and earlier keys are unchanged |
| Prompt.IssueKeys | src/sastsimi/chaining/service.py:299-332 | After the first pass every entry is keyed and the whole ledger is consistent |
| Prompt.BuildPrompt | src/sastsimi/chaining/service.py:272-398 | Every key mentioned is defined and has one owner, whose evidence alone it cites; each input and result carries one evidence key for each semantic evidence reference of its Primitive, key by key; every entity of every draft has a key of its own; each comparison names the Primitives and the input it is about |
| Prompt.EvidenceIsOffered | src/sastsimi/chaining/service.py:299-313 | Every citation of a Primitive is offered under a key that this Primitive owns and that stands for nothing else |
| Prompt.KeysNeverMeet | src/sastsimi/chaining/service.py:277-398 | Primitive, input, evidence and entity keys are pairwise distinct |
| Prompt.PromptIsAccepted | src/sastsimi/ports/chaining.py:393-411 | The agent input's own checks never reject a prompt the service built |
| Basics.BlankExamples | src/sastsimi/contracts/base.py:9 | Texts of white space only are blank; a separator control character is stripped but is not white space |
| DecisionParsing.ParseDecisions | src/sastsimi/agents/chaining.py:251-299 | The answer is accepted exactly when no text is blank, it decides every comparison once, selects only prompt evidence without repetition and gives each outcome what it needs; otherwise blank texts are reported first, then coverage, then the first decision that is refused |
| DecisionParsing.Construct | src/sastsimi/ports/chaining.py:413-454 | The construction rules of a decision and its child |
| DecisionParsing.ParsedDecisionsCover | src/sastsimi/agents/chaining.py:263-266 | Parsed decisions pass the coverage check of `_finalize` |
| DecisionParsing.ParsedIsComplete | src/sastsimi/ports/chaining.py:413-454 | A parsed decision can only fail for evidence of a third Primitive, contradicting restrictions or a repeated vulnerability type |
| DecisionParsing.ParsedFaults | src/sastsimi/chaining/service.py:449-489 | The same for the second loop over all parsed decisions |
| DecisionParsing.RepeatedTypeParses | src/sastsimi/agents/chaining.py:273-288 | Naming the type XSS twice changes nothing for the parser |
| DecisionParsing.RepeatedTypeIsRefused | src/sastsimi/contracts/hypothesis.py:72-74 | A match that is otherwise in order is refused when it names the type XSS twice |
| Proposals.UniqueValues | src/sastsimi/chaining/service.py:971-981 | Every value once, in the order of the first appearances |
| Proposals.MergedRestrictions | src/sastsimi/chaining/service.py:983-993 | Merges without repetition, in the order of first appearance, and fails exactly when one restriction id stands for two restrictions that differ in their statement, facts or evidence |
| Proposals.MatchAndProposal | src/sastsimi/chaining/service.py:517-619 | Succeeds exactly when the selected evidence belongs to the pair and is not empty, the restrictions agree, and a child is present with non-blank texts and distinct vulnerability types; a reference is on the match iff one of the selected keys stands for it; match and proposal carry the same id, the parents of the pair and the child's content; otherwise the first failing check is reported |
| Proposals.MatchEvidenceIsCited | src/sastsimi/chaining/service.py:529-543 | Every evidence reference on a match is cited by one of its two Primitives |
| Proposals.ProposalTargets | src/sastsimi/chaining/service.py:566-581 | A proposal targets every entity that an input or result of its pair names, once, at exactly their locations |
| Proposals.ProposalAssumes | src/sastsimi/chaining/service.py:558-565 | Its assumptions are the descriptions of all inputs of both Primitives, in order, without the matched one |
| Decisions.SuccessfulPairs | src/sastsimi/chaining/service.py:412-429 | Exactly the pairs with a MATCH decision, each once, in the order of the decisions |
| Decisions.CoversEachOnce | src/sastsimi/chaining/service.py:412-417 | The coverage check holds iff every comparison has exactly one decision and every decision a comparison |
| Decisions.DecisionsAreConserved | src/sastsimi/chaining/service.py:452-489 | Decisions = matches + no-match reasons + decisions on excluded candidates |
| Decisions.Collect | src/sastsimi/chaining/service.py:449-489 | Succeeds exactly when no kept decision is faulty, and then matches, proposals and reasons answer the kept decisions one for one and in order, with distinct match ids; otherwise it raises the fault of the first faulty decision |
| Finalize.UnexcludedSuccessIsRetained | src/sastsimi/chaining/service.py:459-464 | No MATCH is lost at the second guard: a success outside the exclusions is retained |
| Finalize.MatchedPairsAreRetained | src/sastsimi/chaining/service.py:448-497 | The matched pairs are exactly the retained pairs |
| Finalize.CombinationsDiffer | src/sastsimi/contracts/chaining.py:164-219 | No two decisions lead to the same upstream, downstream and input |
| Finalize.ExclusionFits | src/sastsimi/contracts/chaining.py:164-219 | An exclusion lies in the universe, is used by no match and blames a matched candidate |
| Finalize.InputSetsAlwaysHold | src/sastsimi/contracts/chaining.py:164-219 | The result record's own validator never raises on what `_finalize` builds |
| Closure.ClosureHoldsIff | src/sastsimi/contracts/chaining.py:321-419 | The closure check accepts a finalized result iff every matched pair names an entity and every entry belongs to the work's analysis |
| Closure.RecordInWorkspaceIff | src/sastsimi/contracts/_domain.py:122-171 | The record's scope check accepts what `_finalize` builds iff the universe lies in the work's workspace and commit |
| Closure.MatchedLiesInWorkspace | src/sastsimi/chaining/service.py:621-637 | A success with a valid lineage puts the whole universe into the work's workspace, so a foreign one is refused only without any match |
| Finalization.SelectMatches | src/sastsimi/chaining/service.py:429-448 | Succeeds exactly when the retention of the successes does, with retained pairs and exclusions that fit together; otherwise it reports the fault of the selection |
| Finalization.RecordCollected | src/sastsimi/chaining/service.py:490-515 | The record is accepted iff universe and analysis are the work's own and every retained pair names an entity; otherwise the scope check fails first, then the closure check |
| Finalization.FinalizeResult | src/sastsimi/chaining/service.py:400-515 | The whole step with its exact success condition (coverage, selection, faultless kept decisions, own workspace and analysis, entities), its result (conservation, one-to-one matches and proposals, closed record), and for every failure the one error it raises |
| Finalization.MatchCarriesItsEvidence | src/sastsimi/chaining/service.py:517-541 | Every match of a result answers a MATCH decision on its comparison and carries exactly the references that the keys of that decision stand for |
| Finalization.ResultNamesItsSources | src/sastsimi/chaining/service.py:490-503 | The sources of a result are the verifications and technical reviews of its matched Primitives, its inputs are those Primitives, none twice |
| Workflow.OwnedFitTheWork | src/sastsimi/chaining/service.py:158-239 | The owned comparisons satisfy what the prompt and `_finalize` assume |
| Workflow.ExecuteWork | src/sastsimi/chaining/service.py:158-239 | From the frozen pool to the result with the agent's answer as a value: it succeeds exactly when the histories are usable and the universe pinned, the answer parses, and finalization succeeds; the comparisons are the owned questions and the prompt is sound and accepted; each failure has its error, and behind the parser only the failures of `Residual` are left |
| Workflow.SelectionFaultOfWork | src/sastsimi/chaining/lineage.py:162-218 | In a work the selection fails only for the lineage of a success, a tie, or an ancestor that is the trigger or lies outside the pool |
| Workflow.RepeatedTypeFailsTheWork | src/sastsimi/contracts/hypothesis.py:72-74 | A completed work with one kept match answered with the types XSS, XSS still parses, and fails with exactly that error |
| Workflow.MatchesCiteTheirPair | src/sastsimi/chaining/service.py:529-543 | In a finalized result all evidence of a match comes from its two Primitives |
| Workflow.StorageDerives | src/sastsimi/storage/chaining_projection.py:28-73 | Storage can derive its exclusions from every finalized result |
| Workflow.StorageAcceptsIff | src/sastsimi/storage/chaining_projection.py:256-278 | Storage accepts the recorded exclusions iff no two different matched candidates share an ancestor |
| Workflow.StorageChecksExclusions | src/sastsimi/storage/chaining_projection.py:28-73 | The storage check as a method, with that condition as its outcome |
| Answers.AnswersSucceed | src/sastsimi/chaining/service.py:400-515 | For every choice of pairs that the selection keeps, that agree on their restrictions and name an entity, there is an answer that parses and is finalized |
| Siblings.KinStayApart | src/sastsimi/chaining/lineage.py:162-218 | When the trigger matches two pool members with a common ancestor, neither above the other, retention succeeds and keeps both, and they share that ancestor |
| Siblings.RunChoice | src/sastsimi/storage/chaining_projection.py:256-278 | For every choice of pairs that pass the selection, an answer completes the work with exactly the retained ones as matches, and storage accepts the result iff no two of them share an ancestor |
| Siblings.SingleRun | src/sastsimi/storage/chaining_projection.py:256-278 | A work can complete with any one comparable pair as its only match, and storage accepts that result |
| Siblings.RefusedRun | src/sastsimi/storage/chaining_projection.py:256-278 | Whenever a work can compare its trigger with two such pool members, an answer completes the work and storage refuses the finished result |
| FiveRecords.RunExample | src/sastsimi/storage/chaining_projection.py:256-278 | Five valid records whose parents follow their hypotheses: the accepted first run has one match, that match is the source of two later Primitives, and the run that matches both is refused |
| EvidenceClosure.DrainOutcome | src/sastsimi/agents/verification.py:1020-1058 | With any rule for the next pending reference the loop terminates, succeeds iff every cited reference is in scope and resolvable, and collects exactly the cited references |
| EvidenceClosure.PopOrderDoesNotMatter | src/sastsimi/agents/verification.py:1028-1057 | Two popping rules agree on success and on the closure |
| EvidenceClosure.ClosureIsLeast | src/sastsimi/agents/verification.py:1020-1058 | The closure is the least set that holds the roots and whatever a model at any depth of one of its records names as evidence or as a code fragment |
| EvidenceClosure.CloseEvidence | src/sastsimi/agents/verification.py:1020-1058 | The stack loop computes that least set on cyclic stores too, with one record for each record reference; it fails iff a cited reference lies elsewhere, is missing, is another revision or belongs to another scope, and reports that fault |
| EvidenceClosure.BodyCites | src/sastsimi/agents/verification.py:1050-1057 | The walk finds a reference iff a model anywhere inside the record names it |
| EvidenceClosure.ResolveEvidence | src/sastsimi/agents/verification.py:860-877 | The second worklist collects exactly the records of the least set under evidence references alone, each under its own reference; otherwise it reports a reachable reference that is missing or another revision |
| EvidenceClosure.ResolvedIsInsideClosure | src/sastsimi/agents/verification.py:860-877 | What the second worklist resolves from the same roots lies inside the closure |
| PrimitiveDrafts.PrivilegeIsGrounded | src/sastsimi/agents/verification.py:989-1018 | True iff a cited fact bundle holds an authorization fact about an entity of the draft |
| PrimitiveDrafts.CheckDraft | src/sastsimi/agents/verification.py:940-972 | A draft passes iff its citations, entities and privilege are backed by the closure; otherwise the first failing check is reported |
| PrimitiveDrafts.FinalizeDrafts | src/sastsimi/agents/verification.py:894-987 | Drafts are accepted together exactly when the verdict allows them, the closure exists, each one is acceptable and the draft record accepts each one; otherwise verdict, closure, first unacceptable draft and draft record are reported in this order |
| PrimitiveDrafts.RepeatedCitationPasses | src/sastsimi/contracts/verification.py:216-231 | An acceptable draft stays acceptable when it cites its reference twice, and the draft record refuses it |
| PrimitiveDrafts.AcceptedDraftsAreGrounded | src/sastsimi/agents/verification.py:940-987 | An accepted draft cites only members of the closure, stored unchanged in the work's scope |
| CapabilityStore.ProbeStore.Add | src/sastsimi/capabilities/store.py:57-66 | A receipt is stored once for the store's own host and never replaced; a foreign or published one is refused before a repeated one |
| CapabilityStore.ProbeStore.Get | src/sastsimi/capabilities/store.py:68-92 | The receipt of the host's probe with the published reference laid over it |
| CapabilityStore.ProbeStore.Authorize | src/sastsimi/capabilities/store.py:111-127 | Inserts exactly when the probe passed, supports activation and has no approval yet; otherwise the first failing check is reported |
| CapabilityStore.ProbeStore.PendingApproval | src/sastsimi/capabilities/store.py:129-138 | The stored approval of the probe, or none when no row exists |
| CapabilityStore.ProbeStore.IsAuthorized | src/sastsimi/capabilities/store.py:148-169 | True iff the approval is stored for this host and its receipt still carries the approved target and identity |
| CapabilityStore.ProbeStore.Publish | src/sastsimi/capabilities/store.py:171-190 | Accepts the same reference again, refuses any other and a foreign host with the error of each, and never changes a published row |
| CapabilityProtocol.ProfileRefIsInjective | src/sastsimi/capabilities/service.py:687-702 | A profile reference determines its probe and its approval |
| CapabilityProtocol.NextFits | src/sastsimi/capabilities/service.py:557-708 | Every single statement of any approver keeps the invariants and only adds receipts, publications and registered records |
| CapabilityProtocol.ApplyFits | src/sastsimi/capabilities/service.py:557-708 | The same for crashes, new calls, added receipts and revocations |
| CapabilityProtocol.RunKeepsSafe | src/sastsimi/capabilities/store.py:171-190 | Under every interleaving, crash and revocation a published reference never changes |
| CapabilityRuns.ReturnsAgree | src/sastsimi/capabilities/service.py:557-708 | In every run without unpublishing, one approval row per probe at most, all successful calls for a probe return one reference, and different probes different ones |
| CapabilityRuns.ReturnsAreApproved | src/sastsimi/capabilities/service.py:578-708 | What is returned was approved after the probe passed, for exactly the target and identity the probe found; the profile carries the receipt's host, kind and identity and cites that approval |
| CapabilityRuns.OnlyItsHostRevokes | src/sastsimi/capabilities/store.py:140-146 | An approval row disappears in no step but its own host's revocation of exactly that row |
| CapabilityRuns.FailureRaises | src/sastsimi/capabilities/service.py:557-708 | A failing check, a failing write or a missing approver ends the call with tables, registry and returns unchanged |
| CapabilityRuns.ReturnsFollowStoredApproval | src/sastsimi/capabilities/service.py:687-708 | With nothing revoked, a returned reference is the profile of the receipt under the one stored approval, which exists |
| CapabilityRuns.RetryOutcome | src/sastsimi/capabilities/service.py:557-708 | After any such run, an undisturbed call whose checks succeed returns iff the probe is published, or activatable with the expected target and either approved by the same person or not approved yet with a clock not behind the probe; it returns the published reference |
| CapabilityRuns.RevokedIsRefused | src/sastsimi/storage/configuration_registry.py:181-222 | Directly after its approval is revoked a published probe stays published and a new call that runs alone raises |
| CapabilityRevocation.RunKeepsIdsApart | src/sastsimi/capabilities/service.py:646-683 | With fresh identifiers, over every run no approval about to be stored has the record id of another one, stored, held or behind a publication |
| CapabilityRevocation.ApproverWasLoggedIn | src/sastsimi/capabilities/service.py:585-683 | Nobody's name stands on an approval, stored or behind a publication, who was not logged in at some step of the run |
| CapabilityRevocation.RunStaysBarred | src/sastsimi/storage/configuration_registry.py:181-222 | With no call in flight, no later run without unpublishing returns anything for a probe whose approval is revoked |
| CapabilityRevocation.InFlightReturns | src/sastsimi/capabilities/store.py:171-190 | A call between its last check and its return still returns the published reference |
| CapabilityRevocation.RevocationHolds | src/sastsimi/capabilities/service.py:557-708 | After any run with fresh identifiers in which a published probe's approval is not stored any more: every later run returns nothing new for the probe iff no call for it is in flight |
| DockerInventory.Docker.InspectContainer | src/sastsimi/sandbox/docker_adapter.py:704-742 | Presence by identifier prefix or name pattern; a present container is the only match when nobody interferes, and its labels are those of its identifier always |
| DockerInventory.Docker.InspectTag | src/sastsimi/sandbox/docker_adapter.py:672-702 | Presence of a tag with the image it names, as the list and the inspection see it |
| DockerInventory.Docker.Remove | src/sastsimi/sandbox/docker_adapter.py:602-613 | Of the containers, removes at most the one; a failure may or may not have taken effect |
| DockerInventory.Docker.RemoveTag | src/sastsimi/sandbox/docker_adapter.py:660-670 | Of the tags, removes at most the one, and records the image it named then and when it was inspected; a failure may or may not have taken effect |
| Cancellation.CancelContainer | src/sastsimi/composition/production_cancellation.py:260-280 | Removes only a container whose labels are the entry's and, where it is looked up by identifier, whose identifier is the entry's; the one matching container with other labels stays and the status is UNKNOWN when nobody interferes and no command fails |
| Cancellation.CancelImage | src/sastsimi/composition/production_cancellation.py:281-294 | Removes only the entry's tag, whose image had the entry's labels and digest when inspected; an image with other labels keeps its tag and the status is UNKNOWN; the status is exactly what the tags seen by the three commands give, whoever interferes |
| Cancellation.UntaggedImageMatchesIff | src/sastsimi/composition/production_cancellation.py:281-294 | A reading of `CancelImage`: for any tags seen by the three commands, the image that loses its tag is the entry's iff it is like the image inspected just before |
| Cancellation.ForeignImageLosesItsTag | src/sastsimi/composition/production_cancellation.py:281-294 | A reading of `CancelImage`: a concrete interleaving in which a foreign image loses its only tag and the entry counts as stopped |
| Cancellation.CancelResource | src/sastsimi/composition/production_cancellation.py:251-296 | Baseline entries are preserved untouched; removals are those of the two cases; the status is exactly `IsOutcome` when nobody interferes and no command fails; stopped or absent means gone |
| Cancellation.Overall | src/sastsimi/composition/production_cancellation.py:238-248 | UNKNOWN before STOPPED before ABSENT before PRESERVED |
| Cancellation.Cancel | src/sastsimi/composition/production_cancellation.py:230-249 | Every removed container has the labels of a non-baseline container entry, every removed tag was inspected with those of a non-baseline image entry, and every other container and tag stays; without interference and failures each status is the outcome of its entry on what the earlier entries left, and exactly that is left; without UNKNOWN all non-baseline entries are gone |
| Cancellation.CancelAgain | src/sastsimi/composition/production_cancellation.py:230-249 | A second pass after a pass without UNKNOWN removes nothing and reports only ABSENT or PRESERVED when no command fails |
| CurrentRecord.Database.StageRecord | src/sastsimi/storage/repositories.py:42-69 | A record id is staged with one content for ever |
| CurrentRecord.Database.PublishStaged | src/sastsimi/storage/repositories.py:143-171 | Publishes once, after a published predecessor it directly follows, at an untaken revision number |
| CurrentRecord.Database.PublishCurrent | src/sastsimi/composition/production_filesystem_provisioner.py:486-527 | The transaction equals the pure step on success and leaves every table unchanged on any error |
| CurrentRecord.PublishKeepsChained | src/sastsimi/storage/repositories.py:143-171 | Revisions stay a chain with unique numbers, and every published logical record has a current one |
| CurrentRecord.PointerMoves | src/sastsimi/composition/production_filesystem_provisioner.py:496-527 | The pointer stays, is created for a first revision, or moves to a record that names it as predecessor with its version one higher |
| CurrentRecord.MoveIsForward | src/sastsimi/composition/production_filesystem_provisioner.py:512-525 | A successful move goes to the next revision iff the record names a predecessor; otherwise it goes back, and the current id is the text None |
| CurrentRecord.PublishKeepsNewest | src/sastsimi/composition/production_filesystem_provisioner.py:486-527 | Without such an id the current record is the newest and the version is its revision number |
| CurrentRecord.Republish | src/sastsimi/composition/production_filesystem_provisioner.py:512-514 | Republishing the current record changes nothing; republishing a superseded one is refused iff it has a predecessor or the current id is not the text None |
| CurrentRecord.RepublishGoesBack | src/sastsimi/composition/production_filesystem_provisioner.py:512-525 | In the remaining case the call succeeds and the pointer goes back to the first revision under the next version |
| CurrentRecord.SupersededForGood | src/sastsimi/composition/production_filesystem_provisioner.py:486-527 | Over every sequence of calls a superseded record never becomes current again |
| CurrentRecord.VersionIsRevision | src/sastsimi/composition/production_filesystem_provisioner.py:486-527 | Over every sequence of calls the version equals the revision number of the newest published record |
| CurrentRecord.NoneReturns | src/sastsimi/composition/production_filesystem_provisioner.py:513 | Three calls after which a first revision is current again |
| LazyInit.AdvanceKeepsSafe | src/sastsimi/composition/production_bootstrap_runtime.py:126-142 | Each access of each thread keeps mutual exclusion and the installed value |
| LazyInit.OneResolver | src/sastsimi/composition/production_bootstrap_runtime.py:126-142 | For any threads and interleaving at most one resolver is installed, every successful return is that one, and one thread at most is inside the lock |
| LazyInit.InstalledStays | src/sastsimi/composition/production_dynamic_feature_builder.py:130-139 | An installed value never changes |
| LazyInit.FailureReleases | src/sastsimi/composition/production_bootstrap_runtime.py:130-141 | A failing or invalid factory leaves the field unset, the lock free and all other threads where they were |
| LazyInit.HolderAdvances | src/sastsimi/composition/production_bootstrap_runtime.py:130-142 | The thread inside the lock is never blocked and comes closer to the release with each of its steps |
| LazyInit.CallCompletes | src/sastsimi/composition/production_bootstrap_runtime.py:126-142 | A call that finds the lock free returns the installed or newly built resolver, or raises exactly when it had to build and the factory failed |
| ReceiptWalk.NestedReceipts | src/sastsimi/composition/production_bootstrap_runtime.py:521-553 | Whichever pending directory is popped, chosen anew each time: accepted iff the tree is clean with at most 256 directories and 4096 files, and then exactly the receipts, sorted by path |
| ReceiptWalk.ReceiptsAreExact | src/sastsimi/composition/production_bootstrap_runtime.py:536-553 | A path is listed iff a chain of directory entries leads to a regular file whose name ends in `.receipt.json` |
| ReceiptWalk.EachReceiptOnce | src/sastsimi/composition/production_bootstrap_runtime.py:521-553 | With distinct slash-free names every receipt has one path and occurs once |
| ReceiptWalk.OneAnswer | src/sastsimi/composition/production_bootstrap_runtime.py:521-553 | Every answer for a tree is the same list, whatever the popping order |
| LogSanitizer.SanitizeValue | src/sastsimi/logging.py:35-64 | The loops over fields and items compute the recursive sanitizer, including every refusal |
| LogSanitizer.TextIsMarkedIff | src/sastsimi/logging.py:46-49 | A text is replaced by the mark iff the pattern matches it or it holds a non-empty secret; otherwise it stays |
| LogSanitizer.SanitizeComposes | src/sastsimi/logging.py:35-64 | Sanitizing with S and then with T is sanitizing once with both: same success, same tree |
| LogSanitizer.SucceedsExactly | src/sastsimi/logging.py:35-64 | Succeeds iff the visible part holds only supported values and safe keys and stays within the nesting limit |
| LogSanitizer.OutputIsClean | src/sastsimi/logging.py:46-60 | Every text in the output is the mark or harmless, and hiding keys hold the mark |
| LogSanitizer.UnchangedExactly | src/sastsimi/logging.py:35-64 | A value passes unchanged iff it is clean and not nested too deeply |
| LogSanitizer.SanitizeIsIdempotent | src/sastsimi/logging.py:35-64 | A second pass changes nothing |
| LogSanitizer.MoreSecretsRedactMore | src/sastsimi/logging.py:46-49 | More secrets only replace more texts by the mark |
| LogSanitizer.HiddenContentIsIrrelevant | src/sastsimi/logging.py:56-60 | What stands under a hiding key never influences the outcome |
| LogEvents.EmittedExactly | src/sastsimi/logging.py:95-117 | An event is shown iff its identifiers are valid, no envelope key or field is unsafe and its fields stay one level below the limit |
| LogEvents.EmittedShows | src/sastsimi/logging.py:101-109 | The shown record holds the event name, the level, the trace id and the sanitized fields, each under its own key |
| LogEvents.CreatedButRejected | src/sastsimi/logging.py:78-109 | A created event with safe keys is lost at emission iff its fields reach the limit |
| LogEvents.DeepEventIsLost | src/sastsimi/logging.py:78-117 | A concrete event that is created and then rejected |
| LogEvents.EmittedIsClean | src/sastsimi/logging.py:101-109 | Whatever is emitted is clean for every registered secret |
| DocFragments.VisibleLines | scripts/validate_doc_fragments.py:17-33 | The two fence variables compute the recursive fence specification |
| DocFragments.FencedBlockIsHidden | scripts/validate_doc_fragments.py:17-33 | A block up to its first closing fence is hidden; without one, everything after the opening fence is |
| DocFragments.Anchors | scripts/validate_doc_fragments.py:44-56 | The HTML ids and, for every slug seen n times, the slug and its suffixes -1 to -(n-1), and nothing else |
| DocFragments.ValidateLocalFragments | scripts/validate_doc_fragments.py:59-89 | The cached check reports, sorted, what computing every target's anchors afresh for every link reports, for any order of the sources |

## Left out

- Prompt.BuildPrompt: text projection, redaction and summaries of prompt content are strings without meaning here; which records `_semantic_evidence` can read is taken as given, so its lookup errors are not modelled.
- Workflow.ExecuteWork: the comparison of the pool history with the work record, the agent call, call references, the stored question and validation identifiers and the publication of the child hypothesis are not modelled; the agent's answer is an arbitrary value.
- Finalization.FinalizeResult: a work whose metadata is no record's or that has no active attempt is refused before anything else; every work here has both.
- Decisions.Collect: match identifiers are a counter instead of random identifiers; only their being different matters.
- DecisionParsing.ParseDecisions: JSON decoding and the byte comparison with the canonical form are not modelled; the content arrives as decoded decisions, whose text rules are checked.
- Proposals.MatchAndProposal: identifiers of proposals, questions and checks are left out, and a location is a text, so that it lies in its Primitive's workspace is taken as given.
- Ownership.OwnedComparisons: the history of another work comes from a port function that may fail; how it is stored is not modelled.
- StorageLineage.PortAncestors: the different error codes of unreadable Primitives are one outcome.
- PrimitiveDrafts.FinalizeDrafts: identifiers and metadata of the minted Primitives are left out.
- CapabilityRuns.RetryOutcome: what the surroundings check (executable, digest, Docker and CodeQL targets, approver identity) is a choice per step; the registry is a set of registered references that also asks for the approval, without its route conflicts and its own current pointer, whose refusals count as failing steps.
- CapabilityProtocol.NextFits: the repeated reads of the immutable receipt inside `authorize` and `publish` are merged with the next statement; `approve` is modelled as a machine over its statements, so there is no second sequential method for it.
- DockerInventory.Docker.Remove: the inventory holds containers and tags only. That `docker rm --force --volumes` also deletes the container's anonymous volumes is not modelled.
- DockerInventory.Docker.RemoveTag: that `docker image rm` also deletes an image that loses its last tag is not modelled.
- Cancellation.Cancel: preparing the snapshot and comparing it with a fresh one are left out; the snapshot arrives as a list. Volumes and images are no part of the inventory, so nothing is claimed about them.
- CurrentRecord.Database.PublishCurrent: write transactions are atomic, so the second stale check after the compare-and-set is there but can never fire.
- LazyInit.OneResolver: a factory that calls back into the same object would wait for its own lock; this is outside the model. The machine replaces a class because the property is about interleavings.
- ReceiptWalk.NestedReceipts: links, special files and entries the system refuses to inspect are one kind of unusable entry, since all of them raise the same error.
- LogSanitizer.SanitizeComposes: the two regular expressions are arbitrary predicates, and numbers are exact.
- LogEvents.EmittedExactly: assumes that the pattern for hiding keys matches none of the four envelope keys, as the pattern at `logging.py:18-21` does; JSON rendering is not modelled.
- DocFragments.ValidateLocalFragments: lines arrive as the four regular expressions read them, with links already resolved to files.
- Scope and provenance comparisons in the agents, the scheduler, the dashboard, provider calls, prompt templates, configuration loading, benchmarks and the command line: long conjunctions of comparisons or plumbing without a property across functions.
- Byte limits of output buffers, path checks of executables and digest pinning: host dependent or a single comparison.
