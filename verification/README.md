# A verified model of a local control plane

The repository is a daemon that answers *allow*, *deny* or *suspend* to each act a governed
program asks about, keeps a hash-linked record of what it answered, and guards the files it
takes its authority from. This project models the parts of it that carry state, concurrency
or a search, and proves what they promise:

- **approvals and asks** (`ApprovalRecord`, `WaitRules`, `DueTimes`, `SweepOrder`, `ApprovalStore`,
  `WaitHistory`, `WaitActs`, `AskProtocol`, `AskInvariant`, `AskSafety`, `AskAnswers`, `AskSettles`): the store of
  suspended questions as a class over two indexes and two lazy due-time heaps, every history of its operations, and
  every interleaving of concurrent asks, people's acts and sweeps over it;
- **evidence** (`Preimage`, `EvidenceEntry`, `EvidenceGrades`, `EvidenceChain`, `EvidenceExport`, `EvidenceTrust`,
  `EvidenceVerdict`, `PolicyEvaluation`): the length-prefixed recipe, the hash chain and its staged verifier, the
  grades, the manifest, the offline export verifier, what its trusted entries are worth, and the policy
  re-derivation it calls;
- **names and access** (`FileSystem`, `NamingPath`, `DirectoriesCrossed`, `EffectiveAccess`, `AccessByName`): the two
  walkers over symlinks and `..`, the kernel's own lookup they are compared with, and the two access judgements;
- **the boundary and the wire** (`OutcomeLog`, `OutcomeTrace`, `OutcomeMarkers`, `OutcomeBound`, `OutcomeSchedules`,
  `GrantFreshness`, `GrantStore`, `GrantProtocol`, `ChunkedGrammar`, `BodyFraming`, `LooseFraming`): the bounded
  outcome log under any number of records and flushes at once, the held grants with their signal readers, and the
  reader that skips a request's framed body.

Where the source updates objects in place the model has classes (`ApprovalStore`, `OutcomeLog`, `SignalReader`,
`GrantStore`, `Connection`), and each of their methods is tied to a function of the old state; where it loops, so
does the model. What holds of whole runs is proved over those same functions, in transition systems whose steps are
the source's atomic ones.

## What the code does not keep

Several promises turned out to be narrower in the code than in its prose. The model follows the code; each has a
concrete run, range or file system that breaks it, and the condition under which it holds.

- *At most one live wait per question.* `write_resolution` reads the clock before `resolve` takes the lock
  (approvals.py:785-791), so an approval dated inside its wait can be applied after the wait ran out and the
  question was given another: `WaitHistory.AnOvertakenApprovalLeavesTwoLive`. A history keeps the promise throughout
  if and only if it holds no such approval beside a live wait: `WaitHistory.OneLiveThroughoutExactly`.
- *The entries before the one a chain verdict names may be trusted* (evidence_recipes.py:464-467). The verifier is
  staged, so entries before a gap have had no hash recomputed: `EvidenceExport.GapLeavesEarlierHashesUnchecked`. A
  verdict vouches for the hashes of what it lets a reader trust if and only if it is no gap or trusts nothing, and for
  their links if and only if the stage of links was reached or one entry at most is trusted:
  `EvidenceTrust.HashesAreEarnedExactly`, `EvidenceTrust.LinksAreEarnedExactly`.
- *Each delivered record declares exactly what was lost before it.* The outcome log has no lock, and every thread that
  uses a boundary makes its records there (boundary.py:129). Overlapping flushes under-report
  (`OutcomeSchedules.OverlappingFlushesUnderReport`), and one flush is enough to over-report when a record is shed between
  its pop and its stamp (`OutcomeSchedules.LateStampsOverReport`) or to under-report when it stamps between a shed and its
  counting (`OutcomeSchedules.UncountedShedsUnderReport`). `OutcomeMarkers.MarkerIsExactlyOff` says by how much a marker is
  off in every run, and so when it is exact; with one flush at a time `OutcomeMarkers.GapsAreDeclaredExactly` says it of
  what the sink never accepted.
- *The log holds at most `capacity` records.* Two records that both find room for one are both appended; the log is then
  past a bound it compares by equality, so it sheds nothing more until a flush takes from it
  (`OutcomeSchedules.TwoOverfillALogOfOne`, `OutcomeBound.OverfullNeverSheds`). The bound holds throughout if and only if
  nothing is appended to a full log (`OutcomeBound.WithinBoundExactly`); looks keep it safe if and only if each that finds
  room finds fewer than `capacity` held and still to come (`OutcomeBound.FitsExactly`, `OutcomeBound.OverfilledExactly`).
- *Making a record never raises.* It does when the log is emptied between its look and its shed, by a flush
  (`OutcomeSchedules.AFlushMakesARecordRaise`) or by another record (`OutcomeSchedules.ARecordMakesAnotherRaise`): if and
  only if the others removed in between all that was held and all appended since (`OutcomeBound.RaisesExactly`). The
  record being made is then in no count of losses.
- *Sequences number the records made, so that a loss shows as a jump.* A sequence is read again as its record is appended:
  it is the record's place, plus those under way beside it, plus those that had raised
  (`OutcomeMarkers.SequenceIsThePlaceAndThoseBeside`). Places give the sequences away if and only if none is appended
  while another is under way (`OutcomeMarkers.NumberedInOrderExactly`), and no two records share one if and only if one
  begins between any two appends (`OutcomeMarkers.NumbersDifferExactly`).
- *A `grant_ended` signal ends the grant.* It does so only when it carries a reason, which its reader does not
  require: `GrantFreshness.ReasonlessEndingKeepsTheGrant`, `GrantFreshness.SignalEndsExactly`.
- *The walk follows links as the kernel does.* It steps back over `..` without asking whether it stands at a directory
  (socket_server.py:207-209), so it can go on, and be refused for its links, where the kernel stops:
  `DirectoriesCrossed.SteppingBackOverAFile`. Otherwise the names it asks for are the kernel's own.
- *Exposed means somebody else can write.* A link owned by a stranger is judged exposed even where nobody can use that:
  `AccessByName.ForeignLinkIsExposedThoughNoOutsiderWrites`. `AccessByName.OutsiderWritesExactlyWhereOpen` says
  from the components' own facts when somebody can, and the two judgements agree if and only if a name is not exposed by
  foreign links alone: `AccessByName.ExposedExactlyWhenSomeOutsiderWrites`.

## Model

| member | source | states |
|---|---|---|
| ApprovalStore.ApprovalStore.Open | packages/control-plane/src/sayfirst_control_plane/application/approvals.py:222-255 | the two indexes become exactly what opening this record makes them, or stay as they were with the refusal the source raises; the due index still covers every record |
| ApprovalStore.ApprovalStore.NewestLive | packages/control-plane/src/sayfirst_control_plane/application/approvals.py:394-421 | the backwards walk answers the newest record of the question that still answers it |
| ApprovalStore.ApprovalStore.FindForQuestion | packages/control-plane/src/sayfirst_control_plane/application/approvals.py:265-294 | the caller outside an ask is answered the newest record that is neither claimed nor unpublished |
| ApprovalStore.NewestAmong | packages/control-plane/src/sayfirst_control_plane/application/approvals.py:394-421 | the loop itself, over any reference list whose records are kept |
| WaitRules.NewestIsLastOpened | packages/control-plane/src/sayfirst_control_plane/application/approvals.py:394-421 | that record is the last-opened one that answers, every later one does not, and nothing is answered only when none does |
| ApprovalStore.ApprovalStore.OpenIfAbsent | packages/control-plane/src/sayfirst_control_plane/application/approvals.py:296-322 | one atomic step answers the live record, in flight or not, or opens this one |
| ApprovalStore.ApprovalStore.Publish | packages/control-plane/src/sayfirst_control_plane/application/approvals.py:324-353 | publishing changes one bit of one pending record, and is idempotent |
| ApprovalStore.ApprovalStore.Abandon | packages/control-plane/src/sayfirst_control_plane/application/approvals.py:355-392 | only an unpublished, unclaimed, pending record leaves both indexes, and an emptied question leaves with it |
| ApprovalStore.ApprovalStore.Resolve | packages/control-plane/src/sayfirst_control_plane/application/approvals.py:423-472 | an act is applied, refused, or finds the wait run out and ends it at its deadline |
| ApprovalStore.ApprovalStore.Claim | packages/control-plane/src/sayfirst_control_plane/application/approvals.py:474-505 | an approved execution is taken by one claimant at a time |
| ApprovalStore.ApprovalStore.ReleaseClaim | packages/control-plane/src/sayfirst_control_plane/application/approvals.py:507-534 | a claim is given back only while unspent |
| ApprovalStore.ApprovalStore.Consume | packages/control-plane/src/sayfirst_control_plane/application/approvals.py:536-571 | a claimed execution is spent once, dated, and its lapse indexed |
| ApprovalStore.ApprovalStore.ExpirePast | packages/control-plane/src/sayfirst_control_plane/application/approvals.py:573-602 | from any valid state, stale, duplicate and orphaned index entries included, the lazy sweep terminates, ends exactly the pending records whose deadline has come, and answers exactly those in store-key order |
| ApprovalStore.ApprovalStore.ForgetLapsed | packages/control-plane/src/sayfirst_control_plane/application/approvals.py:604-666 | likewise drops exactly the records whose lapse instant has come, from both indexes, and answers exactly those in store-key order |
| SweepOrder.SortingIsExact | packages/control-plane/src/sayfirst_control_plane/application/approvals.py:697-704 | the answer order is strict, loses nothing and adds nothing |
| StoreKeys.KeyOrder | packages/control-plane/src/sayfirst_control_plane/application/approvals.py:697-704 | the store-key order is a strict total order |
| WaitHistory.ApplyConsistent | packages/control-plane/src/sayfirst_control_plane/application/approvals.py:222-679 | every operation keeps the two indexes on exactly the same references, without duplicates or empty lists |
| WaitHistory.RunConsistent | packages/control-plane/src/sayfirst_control_plane/application/approvals.py:222-679 | and so does every history of operations |
| WaitHistory.OnlyTwoWaysOut | packages/control-plane/src/sayfirst_control_plane/application/approvals.py:355-392 | a record leaves the store exactly by its opener withdrawing an untold wait or by a sweep at or after its lapse instant |
| WaitHistory.UnspentActIsNeverDropped | packages/control-plane/src/sayfirst_control_plane/application/approvals.py:604-666 | an approved unspent record survives every history that does not spend it, whatever its sweeps' instants |
| WaitHistory.EndedRecordStaysReadable | packages/control-plane/src/sayfirst_control_plane/application/approvals.py:707-756 | a rejected, expired or spent record reads unchanged under every history whose sweeps come within one wait-length of its act, deadline or spend |
| WaitHistory.EndedRecordIsForgotten | packages/control-plane/src/sayfirst_control_plane/application/approvals.py:707-756 | and a sweep drops it exactly from that instant on |
| WaitHistory.SweepSettles | packages/control-plane/src/sayfirst_control_plane/application/decisions.py:268-300 | after ending and forgetting at one instant nothing due is left, and a second sweep changes nothing |
| WaitHistory.RevivedExactlyByAnOvertakenApproval | packages/control-plane/src/sayfirst_control_plane/application/approvals.py:759-791 | a record that is not live becomes live exactly by an approval dated before its deadline and applied after it |
| WaitHistory.OneLiveKeptExactly | packages/control-plane/src/sayfirst_control_plane/application/approvals.py:296-322 | one operation keeps at most one live wait per question exactly when it is no such approval over a question with another live wait |
| WaitHistory.OneLiveThroughoutExactly | packages/control-plane/src/sayfirst_control_plane/application/approvals.py:296-322 | under a forward clock a history keeps at most one live wait per question after each of its operations if and only if none of them is an admissible approval, dated inside its wait and applied after it, over a question with another live wait |
| WaitHistory.AtMostOneLiveForever | packages/control-plane/src/sayfirst_control_plane/application/approvals.py:296-322 | without such an operation its end has no two at any later instant |
| WaitHistory.LiveAgainExactly | packages/control-plane/src/sayfirst_control_plane/application/approvals.py:394-421 | under a forward clock a record that stopped being live becomes live again while it is kept if and only if some operation is such an approval of that very record |
| WaitHistory.NeverLiveAgain | packages/control-plane/src/sayfirst_control_plane/application/approvals.py:394-421 | the same said of the end of a history that keeps the record throughout |
| WaitHistory.AnOvertakenApprovalLeavesTwoLive | packages/control-plane/src/sayfirst_control_plane/application/approvals.py:759-791 | a concrete history that does leave two: the second ask began before the first wait ended |
| WaitActs.AnswersExactly | packages/control-plane/src/sayfirst_control_plane/application/approvals.py:394-421 | a record can answer its question if and only if it is an open wait or a rejection before its deadline, or an unspent approval; outside an ask, one published and unclaimed |
| WaitActs.ActIsTakenExactly | packages/control-plane/src/sayfirst_control_plane/application/approvals.py:423-472 | an act is taken if and only if the wait is open, the act in time and by a named person; taken, the record bears exactly its verdict, person, reason and date, and is published; refused, nothing changes, unless the wait is found run out, which then reads as expired at its deadline |
| WaitActs.FirstActDecides | packages/control-plane/src/sayfirst_control_plane/application/approvals.py:423-472 | over every history that keeps the record, it reads as the first act in time left it, and every further act is refused and changes nothing |
| WaitActs.ClaimIsTakenExactly | packages/control-plane/src/sayfirst_control_plane/application/approvals.py:474-505 | a claim is taken if and only if the record is approved and unclaimed, and writes itself alone |
| WaitActs.OneClaimAtATime | packages/control-plane/src/sayfirst_control_plane/application/approvals.py:474-505 | over every history without a release of it, a claimed execution stays claimed and every other claim is refused |
| WaitActs.GivingBackUndoesAClaim | packages/control-plane/src/sayfirst_control_plane/application/approvals.py:507-534 | releasing undoes a claim exactly, and claiming undoes a release: each leaves the whole store as it was |
| WaitActs.SpendIsTakenExactly | packages/control-plane/src/sayfirst_control_plane/application/approvals.py:536-571 | a spend is taken if and only if the execution is claimed, unspent and acted on no later, and writes itself and its date alone |
| WaitActs.SpendIsFinal | packages/control-plane/src/sayfirst_control_plane/application/approvals.py:536-571 | over every history that keeps it, a spent record is unchanged and is neither claimed, released nor spent again |
| WaitActs.OpenIsTakenExactly | packages/control-plane/src/sayfirst_control_plane/application/approvals.py:222-255 | a record is opened if and only if it is pending, unpublished and under a key not in use; otherwise nothing changes |
| WaitActs.JustOpenedIsFound | packages/control-plane/src/sayfirst_control_plane/application/approvals.py:222-255 | the record opened last is the one its question finds, and until published nobody outside an ask finds anything new |
| WaitActs.WithdrawalIsTakenExactly | packages/control-plane/src/sayfirst_control_plane/application/approvals.py:355-392 | a wait is withdrawn if and only if it is pending and unpublished |
| WaitActs.WithdrawingUndoesAnOpening | packages/control-plane/src/sayfirst_control_plane/application/approvals.py:355-392 | withdrawing what was just opened leaves both indexes exactly as they were |
| WaitActs.PublishIsTakenExactly | packages/control-plane/src/sayfirst_control_plane/application/approvals.py:324-353 | publishing is taken if and only if the wait is pending, and shows it and nothing else |
| WaitActs.PublishedIsFound | packages/control-plane/src/sayfirst_control_plane/application/approvals.py:324-353 | a wait that is the only live one of its question is the answer outside an ask from its publication to its deadline, and not before |
| WaitActs.PublishedStaysPublished | packages/control-plane/src/sayfirst_control_plane/application/approvals.py:324-353 | over every history that keeps it, what was published stays so and cannot be withdrawn |
| WaitActs.SweepStoresWhatIsRead | packages/control-plane/src/sayfirst_control_plane/application/approvals.py:573-602 | a sweep stores the state each record already reads as, and changes no state anybody reads from that instant on |
| AskSafety.StepKeepsInv | packages/control-plane/src/sayfirst_control_plane/application/decisions.py:302-608 | every step of every ask, person and sweep keeps the protocol's invariant |
| AskSafety.RunKeepsInv | packages/control-plane/src/sayfirst_control_plane/application/decisions.py:302-608 | and so does every run |
| AskSafety.OneAllowPerApproval | packages/control-plane/src/sayfirst_control_plane/application/decisions.py:404-608 | in every interleaving, at most one allow that committed or may have names a given approval, and it carries no grant |
| AskSafety.ToldWaitIsNeverWithdrawn | packages/control-plane/src/sayfirst_control_plane/application/decisions.py:853-894 | the wait of any suspension that committed or may have is still kept, or was dropped by a sweep at or after its lapse instant |
| AskSafety.SpentOnlyBehindARecord | packages/control-plane/src/sayfirst_control_plane/application/decisions.py:896-919 | every spent approval has its recorded allow |
| AskSafety.LookNeverFindsAnExpiredWait | packages/control-plane/src/sayfirst_control_plane/application/decisions.py:610-768 | the look of an ask never answers an expired approval, and is never refused |
| AskAnswers.LookAnswersExactly | packages/control-plane/src/sayfirst_control_plane/application/decisions.py:610-768 | with some record of its question answering, an ask opens nothing, and is denied, suspended on the last-opened one, goes to claim it, or looks again, if and only if that record is rejected, pending and published, approved and unclaimed, or in flight |
| AskAnswers.LookOpensExactly | packages/control-plane/src/sayfirst_control_plane/application/decisions.py:718-729 | an ask opens its own wait and puts it to the provider if and only if no record of its question answers |
| AskAnswers.ClaimAnswersExactly | packages/control-plane/src/sayfirst_control_plane/application/decisions.py:739-757 | an ask allows on an approval if and only if it took its unclaimed execution; a lost or vanished one is looked for again |
| AskAnswers.ProviderDecidesExactly | packages/control-plane/src/sayfirst_control_plane/application/decisions.py:770-830 | an ask suspends on the wait it opened if and only if the provider takes it up; otherwise the wait is withdrawn |
| AskAnswers.DecisionIsRecordedExactly | packages/control-plane/src/sayfirst_control_plane/application/decisions.py:404-535 | what was settled is recorded, once, unless the append was refused before its first byte, with a grant if and only if one was reserved and the policy itself allows |
| AskAnswers.StepAnswers | packages/control-plane/src/sayfirst_control_plane/application/decisions.py:302-608 | every step keeps each ask to its own question and each decision to what vouches for it |
| AskAnswers.AnswersAreVouchedFor | packages/control-plane/src/sayfirst_control_plane/application/decisions.py:302-608 | in every run, an ask sent to review logs no verdict of the policy: each denial names a wait of its question a person rejected, each allow one a person approved and this ask claimed, without a grant; any other ask logs the policy's verdict over no wait |
| AskSettles.NothingIsLeftBehind | packages/control-plane/src/sayfirst_control_plane/application/decisions.py:404-919 | in every run in which no ask breaks off and no spend is dated before its act, an untold wait is tended by the ask that opened it and a claimed execution owed by the ask that claimed it; so once all asks are over, every open wait is published and every claimed execution spent |
| Preimage.JoinReadsBack | packages/contract/src/sayfirst_contract/evidence_recipes.py:119-167 | the length-prefixed concatenation decodes uniquely, an absent component included |
| EvidenceEntry.RenderingIsIdempotent | packages/contract/src/sayfirst_contract/evidence_recipes.py:123-141 | normalising a normalised principal changes nothing |
| EvidenceEntry.PlacedVerifies | packages/contract/src/sayfirst_contract/evidence_recipes.py:208-232 | a placed entry recomputes, carries its record and follows its predecessor, and each refusal has its exact cause |
| EvidenceEntry.HashFixesTheComponents | packages/contract/src/sayfirst_contract/evidence_recipes.py:144-190 | under a collision-free hash alone, one hash fixes all nine components |
| EvidenceEntry.HashFixesTheEntry | packages/contract/src/sayfirst_contract/evidence_recipes.py:144-190 | with texts that are canonical among principals and among bodies of one kind, it fixes everything hashed, the kind by its own component |
| EvidenceEntry.OnlyTheKindComponentTellsKindsApart | packages/contract/src/sayfirst_contract/evidence_recipes.py:156-167 | a body text holds no kind: two entries whose bodies differ in kind alone differ in that component and in no other |
| EvidenceGrades.Grades | packages/contract/src/sayfirst_contract/evidence_recipes.py:391-417 | one pass with two dictionaries finds, for each connection, the weakest grade it stood at over its own entries, and unverified when lowered |
| EvidenceGrades.LongerNeverRaises | packages/contract/src/sayfirst_contract/evidence_recipes.py:391-417 | extending a range to the right, or lowering more, never raises a grade |
| EvidenceChain.Find | packages/contract/src/sayfirst_contract/evidence_recipes.py:480-575 | the stages in order, each over the whole range: what the first failing one establishes, and what was not examined |
| EvidenceChain.VerifyChain | packages/contract/src/sayfirst_contract/evidence_recipes.py:454-575 | the verdict renders that finding in every member; only the caller's own arguments are refused |
| EvidenceChain.OneFinding | packages/contract/src/sayfirst_contract/evidence_recipes.py:480-575 | a range has one finding: the first failing stage and its least index |
| EvidenceChain.IntactIsExact | packages/contract/src/sayfirst_contract/evidence_recipes.py:480-575 | `intact` if and only if the range is not empty, of one scope, contiguous from the first asked for to the last, and every recipe, hash and link checks |
| EvidenceChain.LoweredNeverMovesTheVerdict | packages/contract/src/sayfirst_contract/evidence_recipes.py:420-452 | the lowered connections change grades and nothing else |
| EvidenceChain.GapIsTheLeastMissing | packages/contract/src/sayfirst_contract/evidence_recipes.py:503-527 | a gap names the least missing sequence when no entry precedes the first asked for |
| EvidenceChain.PlacedIsAChain | packages/contract/src/sayfirst_contract/evidence_recipes.py:208-232 | what a writer placed one after another is a chain from its genesis carrying those records |
| EvidenceChain.EverySliceIsIntact | packages/contract/src/sayfirst_contract/evidence_recipes.py:454-575 | every contiguous slice of it is found intact and nothing else |
| EvidenceChain.HeadHashFixesTheHistory | packages/contract/src/sayfirst_contract/evidence_recipes.py:144-205 | two intact ranges ending in one hash agree backwards, entry by entry, in everything hashed |
| EvidenceExport.ManifestFixesTheBundle | packages/contract/src/sayfirst_contract/evidence_recipes.py:235-274 | two bundles with one v3 digest differ in nothing but the digest they carry, the one member its text leaves out |
| EvidenceExport.VerifiedContext | packages/contract/src/sayfirst_contract/evidence.py:225-246 | a recovery context is used exactly when it continues the range and is itself intact |
| EvidenceExport.Epochs | packages/contract/src/sayfirst_contract/evidence.py:249-262 | a sequence lies in a collected clean or unclean span exactly when some recovery marker of that kind covers it |
| EvidenceExport.VerifyExport | packages/contract/src/sayfirst_contract/evidence.py:265-536 | `confirmed` if and only if the export is a `ConfirmedExport`; `differs` if and only if a trusted effect's own policy bytes evaluate otherwise; unreadable if and only if the bundle is or a trusted effect names an attachment that does not decode; and the chain, manifest, re-derivations, coverage and issues it reports |
| EvidenceExport.ConfirmedExportIsExact | packages/contract/src/sayfirst_contract/evidence.py:441-500 | the precedence over chain, manifest, context, gaps, spans and re-derivations says `confirmed` exactly on such an export |
| EvidenceExport.RestOfTheChainVerifies | packages/contract/src/sayfirst_contract/evidence.py:225-246 | whatever follows a slice in its chain verifies as its recovery context |
| EvidenceExport.SliceExportIsConfirmed | packages/contract/src/sayfirst_contract/evidence.py:265-536 | end to end: a faithful export of any slice of a placed chain, with any continuation of it as recovery context or with none, is confirmed |
| EvidenceExport.GapLeavesEarlierHashesUnchecked | packages/contract/src/sayfirst_contract/evidence_recipes.py:503-527 | an entry before a gap counts as trusted although its hash does not verify |
| EvidenceExport.PolicyForIsExact | packages/contract/src/sayfirst_contract/evidence.py:374-408 | an attachment is usable if and only if its bytes have the digest its version names; and each way it is not, exactly |
| EvidenceVerdict.ConditionIsExact | packages/contract/src/sayfirst_contract/evidence_recipes.py:480-575 | `broken_at` if and only if a recomputation or a link of a contiguous range disagrees; `gap_at` if and only if a range of one scope, in order, is not contiguous; `unverifiable` exactly otherwise |
| EvidenceVerdict.BrokenNamesBothHashes | packages/contract/src/sayfirst_contract/evidence_recipes.py:528-575 | a broken verdict names the entry, the hash its own content or its predecessor gives, and the different one it carries |
| EvidenceVerdict.UnreadableIsNamed | packages/contract/src/sayfirst_contract/evidence_recipes.py:528-550 | an entry that cannot be recomputed is named with its own version and hash |
| EvidenceVerdict.GradesGoUpToTheFailure | packages/contract/src/sayfirst_contract/evidence_recipes.py:420-575 | once an entry of a contiguous range fails its hash, its link or its recipe, the grades are those of the entries before it and no `up_to` is given |
| EvidenceVerdict.GradesOfTheRest | packages/contract/src/sayfirst_contract/evidence_recipes.py:420-575 | nothing is graded of a range not of one scope, in order and from its start; `up_to` is given exactly for an intact range, graded whole |
| EvidenceVerdict.DeclaredGapsAreExact | packages/contract/src/sayfirst_contract/evidence_recipes.py:420-452 | the declared gaps are those of the gap entries, in the range's order |
| EvidenceVerdict.IssuesAreExact | packages/contract/src/sayfirst_contract/evidence.py:265-500 | the issues are exactly those that arise, each once, in the verifier's order |
| EvidenceVerdict.CoverageIsExact | packages/contract/src/sayfirst_contract/evidence.py:471-490 | coverage is incomplete if and only if a gap is trusted, and complete if and only if there is none and nothing is left open |
| EvidenceVerdict.LoweredIsExact | packages/contract/src/sayfirst_contract/evidence.py:265-378 | a connection is lowered if and only if a trusted entry of it lies in an unclean span |
| EvidenceVerdict.RederivationsInOrder | packages/contract/src/sayfirst_contract/evidence.py:415-455 | every effect of the range is reported once, in its order, and nothing else is |
| EvidenceVerdict.RederivationIsExact | packages/contract/src/sayfirst_contract/evidence.py:415-455 | an effect is untrusted exactly past the last trusted entry; confirmed or different exactly when its own policy bytes evaluate its inputs to its answer, or to another |
| EvidenceVerdict.OlderManifestsFixTheRange | packages/contract/src/sayfirst_contract/evidence_recipes.py:235-274 | under the older recipes one digest fixes the range, its hashes and the verdict, or under v1 two members of it |
| EvidenceTrust.TrustedByIsTheCount | packages/contract/src/sayfirst_contract/evidence.py:216-222 | how many entries a finding lets a reader trust is the count the export verifier reads off any verdict that renders it |
| EvidenceTrust.TrustedEntriesVerify | packages/contract/src/sayfirst_contract/evidence.py:216-222 | unless the verdict is a gap every trusted entry recomputes, and once links were looked at every one also links to the one before |
| EvidenceTrust.GapIsBlindToContent | packages/contract/src/sayfirst_contract/evidence_recipes.py:503-527 | a gap is found by scopes and sequences alone: any other content gives the same finding and the same trusted count |
| EvidenceTrust.WrongHashIsBlindToLinks | packages/contract/src/sayfirst_contract/evidence_recipes.py:528-575 | a failed hash stays what it was when a link before it is broken and hashed anew |
| EvidenceTrust.HashesAreEarnedExactly | packages/contract/src/sayfirst_contract/evidence.py:216-222 | over all ranges of one finding the trusted entries recompute if and only if its verdict is no gap, or the count taken from it is nothing |
| EvidenceTrust.LinksAreEarnedExactly | packages/contract/src/sayfirst_contract/evidence.py:216-222 | and they link if and only if the stage of links was reached, or that count is one at most |
| EvidenceTrust.StartingElsewhereTrustsWhatPrecedes | packages/contract/src/sayfirst_contract/evidence_recipes.py:503-510 | a range that starts elsewhere trusts exactly its entries below the first sequence asked for |
| PolicyEvaluation.StrictestWins | packages/contract/src/sayfirst_contract/retrospective_policy.py:221-258 | outcome and reason are the strictest among the applying rules, said without any order |
| PolicyEvaluation.OrderAndRepetitionDoNotMatter | packages/contract/src/sayfirst_contract/retrospective_policy.py:221-258 | so neither order nor repetition of rules or references moves them |
| PolicyEvaluation.AddingRulesNeverLoosensADecision | packages/contract/src/sayfirst_contract/retrospective_policy.py:221-258 | adding rules loosens the outcome exactly when no rule applied before and the applying ones do not deny |
| PolicyEvaluation.NamedRuleIsFirstInFileOrder | packages/contract/src/sayfirst_contract/retrospective_policy.py:221-258 | the rule named is the first applying rule of that outcome in file order |
| PolicyEvaluation.ConfirmedIsExact | packages/contract/src/sayfirst_contract/retrospective_policy.py:261-286 | a record is confirmed exactly when it names the recipe and its answer is what its own inputs evaluate to |
| PolicyEvaluation.DiffersIsExact | packages/contract/src/sayfirst_contract/retrospective_policy.py:261-286 | a record differs if and only if it names the recipe, carries its inputs and a reason of the recipe's four, and its bytes parse and evaluate to another answer; and each cause of not knowing has its exact condition |
| PolicyEvaluation.OnlyItsOwnRulesDecide | packages/contract/src/sayfirst_contract/retrospective_policy.py:238-258 | rules of another scope, capability, principal or arguments never count, and every other rule does |
| NamingPath.Extend | packages/control-plane/src/sayfirst_control_plane/access/effective_access.py:83-111 | the recursive restart terminates and lists exactly the chains of the scan, or fails past the link bound |
| NamingPath.NamingChains | packages/control-plane/src/sayfirst_control_plane/access/effective_access.py:51-80 | likewise from the root |
| NamingPath.ChainIsItsPrefixes | packages/control-plane/src/sayfirst_control_plane/access/effective_access.py:101-111 | a chain goes from its head to the root one name at a time, each followed by the one it is in |
| NamingPath.LinkContinues | packages/control-plane/src/sayfirst_control_plane/access/effective_access.py:105-110 | restarting from the root at a link adds no chain and no link until the link's own directory: the walk goes on as the kernel does |
| NamingPath.LastChainIsTheFileReached | packages/control-plane/src/sayfirst_control_plane/access/effective_access.py:51-80 | when the kernel reaches a file, the last chain is headed by it |
| NamingPath.EveryHeadIsLookedUp | packages/control-plane/src/sayfirst_control_plane/access/effective_access.py:83-111 | for a path that leads to a file, each chain starts at a name the kernel looks up, and each link it follows starts one |
| NamingPath.EveryNameLookedUpIsOnAChain | packages/control-plane/src/sayfirst_control_plane/access/effective_access.py:83-96 | every name the kernel looks up on the way lies on some chain, components popped by `..` included |
| NamingPath.ChainsDecideTheFile | packages/control-plane/src/sayfirst_control_plane/access/effective_access.py:51-80 | two file systems that agree on the names of these chains give the same chains and the same file |
| DirectoriesCrossed.DirectoriesCrossed | packages/control-plane/src/sayfirst_control_plane/adapters/socket_server.py:189-231 | the worklist terminates by links left and pending length, and lists what the specification crosses, each once |
| DirectoriesCrossed.FirstsKeepsEachOnceInOrder | packages/control-plane/src/sayfirst_control_plane/adapters/socket_server.py:231 | removing repetitions loses nothing and keeps the order of first meeting |
| DirectoriesCrossed.ListedDirectoriesLieOnChains | packages/control-plane/src/sayfirst_control_plane/adapters/socket_server.py:189-231 | whenever it returns, each directory listed is a real one, free of links, on a naming chain of the same name |
| DirectoriesCrossed.TooManyForOneIsTooManyForBoth | packages/control-plane/src/sayfirst_control_plane/adapters/socket_server.py:215-217 | a walk refused for its links has no naming chains |
| DirectoriesCrossed.BothBoundsCutAtTheSameLink | packages/control-plane/src/sayfirst_control_plane/adapters/socket_server.py:189-231 | it is refused for its links if and only if `MAX_LINKS + 1` of the names it asks for are links and all before the last are trusted, the names being those the kernel looks up unless a `..` steps back over no directory; the naming chains exceed their bound at that same link, exactly when no name is missing |
| DirectoriesCrossed.SteppingBackOverAFile | packages/control-plane/src/sayfirst_control_plane/adapters/socket_server.py:207-209 | a concrete path over a file where the kernel stops and the walk goes on to be refused |
| DirectoriesCrossed.CrossedAreTheDirectoriesReadIn | packages/control-plane/src/sayfirst_control_plane/adapters/socket_server.py:189-231 | for a name the kernel reaches, it is refused exactly for a stranger's link on the way, and otherwise lists exactly the directories the lookup reads a name in |
| DirectoriesCrossed.AnswerIsExact | packages/control-plane/src/sayfirst_control_plane/adapters/socket_server.py:189-231 | the walk gives its list if and only if no name is missing, every link is trusted and they are not too many, and the list is the directories the names were read in; a stranger's link is refused exactly at the first |
| EffectiveAccess.WriteAccessAlong | packages/control-plane/src/sayfirst_control_plane/access/effective_access.py:258-295 | the loop over one chain, the entry's owner carried upwards, answers the specified verdict |
| EffectiveAccess.WriteAccess | packages/control-plane/src/sayfirst_control_plane/access/effective_access.py:229-255 | a writable chain decides, else the first unknown one |
| EffectiveAccess.ProtectionAlong | packages/control-plane/src/sayfirst_control_plane/access/effective_access.py:323-354 | the loop over one chain answers the specified protection verdict |
| EffectiveAccess.Protection | packages/control-plane/src/sayfirst_control_plane/access/effective_access.py:298-320 | an exposed chain decides, else the first unknown one |
| EffectiveAccess.UnexposedMeansNoOutsiderWrites | packages/control-plane/src/sayfirst_control_plane/access/effective_access.py:212-377 | a name judged protected is not writable by any non-root outsider through any chain, masks and sticky directories included, and one judged unknown is unknown to every such outsider at the same component |
| EffectiveAccess.ExposedMeansSomeOutsiderWrites | packages/control-plane/src/sayfirst_control_plane/access/effective_access.py:212-377 | an exposure other than a link's owner names an outsider who is judged able to write |
| AccessByName.AccessExactly | packages/control-plane/src/sayfirst_control_plane/access/effective_access.py:229-295 | any principal is answered able to write if and only if, on the way down to some name, a component that is no link, all below it readable, is its own or grants it, and, if sticky, is its own or holds an entry of its own; root whenever some name can be read |
| AccessByName.WritableNamesItsComponent | packages/control-plane/src/sayfirst_control_plane/access/effective_access.py:229-295 | the component answered is the nearest to the first name that gives the right, and the grant the first by which it does |
| AccessByName.UnknownExactly | packages/control-plane/src/sayfirst_control_plane/access/effective_access.py:229-295 | unknown if and only if nobody's right is found and something on the way cannot be read |
| AccessByName.MaskIsHeeded | packages/control-plane/src/sayfirst_control_plane/access/effective_access.py:212-226 | a writer is named by an access list if and only if an entry has the write bit and the first mask, where there is one, has it too |
| AccessByName.OutsiderWritesExactlyWhereOpen | packages/control-plane/src/sayfirst_control_plane/access/effective_access.py:229-295 | some outsider can write if and only if, on the way down to some name, a component with all below it readable is open to one by its owner, its grants and, in a sticky directory, the owner of the entry standing directly in it |
| AccessByName.ExposedExactlyWhereOpenOrForeignlyLinked | packages/control-plane/src/sayfirst_control_plane/access/effective_access.py:298-354 | a name is exposed if and only if some way down has such a component or a link owned by a stranger |
| AccessByName.ExposedExactlyWhenSomeOutsiderWrites | packages/control-plane/src/sayfirst_control_plane/access/effective_access.py:212-377 | so the two judgements agree if and only if there is no foreign link or some component is open besides |
| AccessByName.ForeignLinkIsExposedThoughNoOutsiderWrites | packages/control-plane/src/sayfirst_control_plane/access/effective_access.py:339-345 | the one exception, on a concrete file system |
| OutcomeLog.OutcomeLog.Record | packages/boundary/src/sayfirst_boundary/evidence.py:90-104 | one record more, the oldest shed and counted when there is no room |
| OutcomeLog.OutcomeLog.Flush | packages/boundary/src/sayfirst_boundary/evidence.py:106-125 | everything held is handed over in order, each stamped with the losses so far, refusals counted |
| OutcomeTrace.RecordIsARun | packages/boundary/src/sayfirst_boundary/evidence.py:90-104 | whatever else is half way, an undisturbed call is a run of the interleaved system, statement by statement |
| OutcomeMarkers.FlushIsARun | packages/boundary/src/sayfirst_boundary/evidence.py:106-125 | and so is an undisturbed flush, one record at a time |
| OutcomeTrace.StepKeeps | packages/boundary/src/sayfirst_boundary/evidence.py:90-125 | with any number of records and flushes under way, every statement keeps places apart, none forgotten, and every marker accounted for |
| OutcomeTrace.EveryRecordMadeIsAccountedFor | packages/boundary/src/sayfirst_boundary/evidence.py:90-125 | in every interleaving, begun = delivered + lost + pending + out + under way + raised, and the log's count of losses is short by those between their shed and its counting |
| OutcomeMarkers.MarkerIsExactlyOff | packages/boundary/src/sayfirst_boundary/evidence.py:106-125 | in every interleaving, by how much a marker is off what was lost of the records appended earlier, and that it is exact if and only if the excess and the shortfall are as many |
| OutcomeMarkers.MarkerIsExactUnlessACompanionIsLost | packages/boundary/src/sayfirst_boundary/evidence.py:106-125 | with nothing lost between its pop and its stamp and every loss counted, exact if and only if no earlier record out with it was lost, and never too high |
| OutcomeMarkers.GapsAreDeclaredExactly | packages/boundary/src/sayfirst_boundary/evidence.py:90-125 | with one flush at a time, and any number of records made meanwhile, records are delivered in the order appended, and a marker is the number appended earlier that were never accepted, plus those lost between its pop and its stamp, less those not counted by then: exact if and only if the two are as many |
| OutcomeMarkers.SequenceIsThePlaceAndThoseBeside | packages/boundary/src/sayfirst_boundary/evidence.py:92-103 | in every interleaving a delivered sequence is the record's place, plus how many were under way beside it, plus how many had raised |
| OutcomeMarkers.NumberedInOrderExactly | packages/boundary/src/sayfirst_boundary/evidence.py:92-103 | records are numbered by their places and the raises before them if and only if none is appended while another is under way |
| OutcomeMarkers.NumbersDifferExactly | packages/boundary/src/sayfirst_boundary/evidence.py:92-103 | no two records share a sequence if and only if one begins between any two appends |
| OutcomeMarkers.SequenceGapsAreDeclaredExactly | packages/boundary/src/sayfirst_boundary/evidence.py:90-125 | with one flush at a time and none appended beside another, delivered sequences rise, and a marker is the number of lower sequences never accepted, plus those lost between its pop and its stamp, less those not counted and those raised: exact if and only if they are as many |
| OutcomeMarkers.UndisturbedMarkersAreExact | packages/boundary/src/sayfirst_boundary/evidence.py:90-125 | and exact throughout when no shed comes before a stamp is taken, no stamp between a shed and its counting, and no look finds full a log emptied before its shed |
| OutcomeBound.WithinBoundExactly | packages/boundary/src/sayfirst_boundary/evidence.py:93-95 | in every interleaving the log stays within its capacity throughout if and only if nothing is appended to a full log |
| OutcomeBound.FitsExactly | packages/boundary/src/sayfirst_boundary/evidence.py:93-96 | what is held and what is still to come fit throughout if and only if each look that finds room finds fewer than `capacity` held and to come, and then the log stays within its capacity |
| OutcomeBound.OverfilledExactly | packages/boundary/src/sayfirst_boundary/evidence.py:93-96 | from any state, some run overfills the log with no further look if and only if more is held and to come than there is room for |
| OutcomeBound.OverfullNeverSheds | packages/boundary/src/sayfirst_boundary/evidence.py:93-95 | past its capacity, with none about to shed, the log sheds nothing until a flush takes from it: it grows by every append, and only what had left it is lost |
| OutcomeBound.RaisesExactly | packages/boundary/src/sayfirst_boundary/evidence.py:93-94 | a record that found the log full raises if and only if the others removed before its shed all that was held at its look and all appended since |
| OutcomeBound.RaiseReachableExactly | packages/boundary/src/sayfirst_boundary/evidence.py:93-94 | from any state, some record raises with no further look and no flush if and only if more are about to shed than are held |
| OutcomeBound.FlushRaisesExactly | packages/boundary/src/sayfirst_boundary/evidence.py:112-113 | a flush that saw a record finds none to take if and only if all held then and all appended since was removed before its pop |
| OutcomeSchedules.OverlappingFlushesUnderReport | packages/boundary/src/sayfirst_boundary/evidence.py:106-125 | a concrete overlap that under-reports |
| OutcomeSchedules.LateStampsOverReport | packages/boundary/src/sayfirst_boundary/evidence.py:112-120 | a concrete single flush whose first record declares a loss that came after it |
| OutcomeSchedules.UncountedShedsUnderReport | packages/boundary/src/sayfirst_boundary/evidence.py:92-95 | a concrete single flush that stamps between a shed and its counting |
| OutcomeSchedules.AFlushMakesARecordRaise | packages/boundary/src/sayfirst_boundary/evidence.py:90-95 | a concrete single flush that makes a record raise and go uncounted |
| OutcomeSchedules.ARecordMakesAnotherRaise | packages/boundary/src/sayfirst_boundary/evidence.py:90-95 | two concrete records, and no flush, of which the second raises |
| OutcomeSchedules.TwoOverfillALogOfOne | packages/boundary/src/sayfirst_boundary/evidence.py:92-104 | two concrete records that find room for one: both are held, under one sequence, and a third with them |
| GrantFreshness.LiveExactly | packages/boundary/src/sayfirst_boundary/freshness.py:83-121 | a grant permits acting exactly when its channel is live and has not ended it, it is unexpired, it was heard from within its lifetime, and it was minted for this very question |
| GrantFreshness.EndingIsExact | packages/boundary/src/sayfirst_boundary/freshness.py:83-121 | each way a grant stops permitting, exactly |
| GrantFreshness.SilenceIsNeverExpiry | packages/contract/src/sayfirst_contract/grants.py:151-185 | a spent lifetime is never reported as silence |
| GrantFreshness.SignalEndsExactly | packages/boundary/src/sayfirst_boundary/signals.py:97-105 | a signal ends a usable grant exactly when it is an ending that carries a reason |
| GrantFreshness.SignalIsHeard | packages/boundary/src/sayfirst_boundary/signals.py:97-105 | from a signal on, an unexpired, matching, usable grant may be acted on until, and not after, its lifetime has passed in silence |
| GrantFreshness.EndingIsTold | packages/boundary/src/sayfirst_boundary/signals.py:97-105 | what ends a grant is told as given, whatever is signalled after it |
| GrantFreshness.NothingRevives | packages/boundary/src/sayfirst_boundary/signals.py:97-105 | no signal and no end of a channel makes an unusable grant usable |
| GrantFreshness.ReasonlessEndingKeepsTheGrant | packages/boundary/src/sayfirst_boundary/signals.py:97-105 | an ending without a reason leaves the grant live and freshly heard from |
| GrantStore.SignalReader.Apply | packages/boundary/src/sayfirst_boundary/signals.py:97-105 | an ending is final; anything else is news |
| GrantStore.SignalReader.Close | packages/boundary/src/sayfirst_boundary/signals.py:117-127 | the grant is unusable at once and the channel given up |
| GrantStore.GrantStore.Put | packages/boundary/src/sayfirst_boundary/cache.py:48-55 | the reader is held under its own question, the one it displaces is closed, and itself is not |
| GrantStore.GrantStore.Take | packages/boundary/src/sayfirst_boundary/cache.py:57-79 | a reader is answered exactly when it may be used for this question; otherwise the one held is dropped and closed |
| GrantStore.GrantStore.Close | packages/boundary/src/sayfirst_boundary/cache.py:81-87 | nothing is held and every reader that was is closed |
| GrantProtocol.StepKeepsInv | packages/boundary/src/sayfirst_boundary/cache.py:48-87 | every step of the interleaved store, readers and closers keeps the invariant |
| GrantProtocol.NoReaderIsOrphaned | packages/boundary/src/sayfirst_boundary/cache.py:48-87 | in every interleaving a question has at most one held reader, and a reader no longer held is given up or about to be by a close under way |
| GrantProtocol.SettledReadersAreHeldOrGivenUp | packages/boundary/src/sayfirst_boundary/cache.py:81-87 | with no close under way every reader is held or given up |
| GrantProtocol.TakenGrantsCoverTheirQuestion | packages/boundary/src/sayfirst_boundary/cache.py:57-79 | whatever was returned was, as it was looked at, usable, unexpired, recently heard from and minted for the question |
| GrantProtocol.SpentReadersAreNeverReturned | packages/boundary/src/sayfirst_boundary/signals.py:76-127 | once ended or closed, no later step makes `take` return a reader it had not already looked at |
| BodyFraming.Connection.SkipChunked | packages/control-plane/src/sayfirst_control_plane/adapters/http_surface.py:469-501 | the nested reading loops answer the specified end of the body, or fail |
| BodyFraming.Connection.RefuseFraming | packages/control-plane/src/sayfirst_control_plane/adapters/http_surface.py:446-467 | the connection is kept exactly when the chunked body was skipped |
| BodyFraming.Connection.ConsumeBody | packages/control-plane/src/sayfirst_control_plane/adapters/http_surface.py:410-444 | either the connection is to close or the stream stands exactly after the framed body; and which of the two, and what is read |
| BodyFraming.GrammarSizeIsRead | packages/control-plane/src/sayfirst_control_plane/adapters/http_surface.py:476-483 | a size line announces what its digits spell, extensions and blanks notwithstanding |
| LooseFraming.SizeIsAnnouncedExactly | packages/control-plane/src/sayfirst_control_plane/adapters/http_surface.py:476-483 | a size is announced if and only if a run of hex digits, not empty, stands between blanks before the end of the line or a semicolon, and it is their value |
| LooseFraming.SkippedExactly | packages/control-plane/src/sayfirst_control_plane/adapters/http_surface.py:469-501 | from any place of any stream, the skipper succeeds if and only if a body of the grammar it tolerates stands there, within the bounds, and then stops exactly after it: the chunked coding with blanks around a size, any text after a semicolon and bare line feeds let by, and nothing else |
| BodyFraming.ChunkedBodyIsSkippedExactly | packages/control-plane/src/sayfirst_control_plane/adapters/http_surface.py:469-501 | for every body of section 7.1 of RFC 9112 and whatever follows it, the skipper succeeds exactly when the body is within the bounds, and stops exactly after its trailer section |
| ChunkedGrammar.FramingIsUnambiguous | packages/control-plane/src/sayfirst_control_plane/adapters/http_surface.py:446-501 | any two grammatical readings that start at one byte of a stream, within the bounds or not, are one and the same, and so end at one byte |

## Left out

- Clock readings, minted references and file contents are parameters; the identifier factory never repeats a reference.
- The binary heap under the two due-time indexes is the language's own library: an index is kept as the ascending list its pushes and pops show.
- `domain/approval.py` renders documents and zone offsets besides what is modelled: instants are integers of one clock.
- A non-`Exception` raise out of the append, which the service's `finally` treats as a refusal, is not a step of the ask; every other early exit is one, as `Stops`.
- The provider's own judgement, the event recorder, the policy archive and grant registration are not part of this model; the decision authority is its three append outcomes.
- SHA-256, canonical JSON, instant rendering and the policy parser are function parameters, with injectivity stated where it is used; strings stand for their UTF-8 encodings.
- Raw JSON members a reader could refuse are not modelled: entries are those `_read_entry` accepted, and what may still be wrong in a bundle is kept as data.
- The rendering order of grades in a verdict document is not modelled: they are a map.
- EvidenceExport.VerifyExport: its verdict has no policy states, recipe names, answers computed, re-derived, confirmed or declared-missing identifiers, and no grades the server asserted: each is read off the entries it reports on.
- Path components come from the path library, so the branch of `directories_crossed` that skips an empty or `.` component is not modelled; neither is joining a relative name to the working directory.
- File systems do not change during one walk, and `lstat` fails only for a missing name or one below no directory.
- macOS access lists and the raw bytes of POSIX ones: an access list is its entries, or unreadable.
- Mode bits are the four that are read: sticky, group write, other write, and the kind.
- One statement of the outcome log is one step: an interruption inside one is not modelled, as of a `+=` that loses a count, or of an append between reading its sequence and taking its place.
- A pop from a log emptied since the flush looked changes nothing, and is where the code raises out of that flush; `OutcomeBound.FlushRaisesExactly` says when, but that the flush then ends is not a step.
- `GrantStore.take` returning a reader that ends between its look and its answer is in the model; what the caller then does is not.
- GrantProtocol.SpentReadersAreNeverReturned: excludes a `take` that had already looked while the reader was usable, which the code also lets through.
- BodyFraming.Connection.ConsumeBody: takes both headers as read, so the integer reading of Content-Length and the trimming of Transfer-Encoding are parameters; a stream that ends early is read short without a refusal, as in the code.
- The answer written after a refusal, sockets, header parsing and threads as such are not modelled.
- `bootstrap.py`, `settings.py`, the command lines, the launcher, the contract stub and the document readers would add only easy members.
