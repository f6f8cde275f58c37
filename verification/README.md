# Verified model of the PJUD worker

A Dafny 4.11 model of the parts of the worker and of its operations tooling whose correctness lies in interleavings,
crash points and persisted identity, with proofs of what they keep. Check it with `dafny verify dfyconfig.toml`.

Everything the outside world decides (clocks, replies, lost replies, crashes, the order of interleaved tasks) is an
argument of a step or an arbitrary choice, so every theorem holds for all of it. What changes state in place in the
source is a class whose methods are proved equal to a function on states; the theorems are about runs of that function.

| files | what they model |
|---|---|
| `MaintenanceProtocol`, `MaintenanceSafety`, `MaintenanceProgress`, `WorkerMaintenance` | the admission protocol between worker and operator: control file, ACK file, journals, shared and exclusive lease, as one machine with a crash possible before every durable write |
| `Drain` | joining the auxiliaries of one operation while they register more |
| `Handoff` | the handoff of checkout, record and receipt, rerun after crashes |
| `SnapshotRead` | reading a file that a writer keeps replacing |
| `KeyText`, `MovementKeys`, `MovementTheorems`, `KeyStability`, `KeyAgreement`, `KeyOrdering`, `KeyRerun`, `KeyHistory` | collapsing scraped movements and giving each its persisted key |
| `SlotLifecycle`, `SlotSafety`, `SlotBorrowing` | one slot of the session pool with its durable bundle: mint, revalidate, prepare, return; when a borrow succeeds |
| `SessionPool`, `PoolTheorems`, `ResidentialPool`, `CookieStore` | the pool as a state machine, its theorems, the pool object, and the file of bundles behind it |
| `BundleAge` | the age of a bundle under jumping wall clocks |
| `ProxyControl` | the revisioned fail-closed switch of the paid proxy |
| `ProxyUsage` | recording usage exactly once over a database whose replies get lost |
| `AlertPolicy`, `AlertRuns`, `AlertTiming` | the alert state machine, what runs of it guarantee, and which tick announces what |
| `CandidateBatch` | deduplicating and cutting a batch of candidates to an exact byte size |

## Where the code does not do what one would expect

Each of these is a lemma; the matching positive theorem carries the exact condition.

- **A slot can be lost for good.** When a restarted worker finds a stored bundle, its first validation puts the slot
  into `validate_before_reuse` before the slot has recorded any `saved_at`. If that validation fails in whatever way,
  every later borrow compares the stored `saved_at` with nothing and raises (`SlotSafety.SticksIff`,
  `PoolTheorems.FailedStartupLosesTheSlot`, `PoolTheorems.LostAtStartupIsFinal`). Since the first idle slot is always
  chosen, a lost slot 0 refuses every lone borrower although other slots are fine
  (`PoolTheorems.LostFirstSlotRefusesEveryone`).
- **A second Familia release is not caught**: of an idle slot it creates a permit out of nothing
  (`PoolTheorems.ReturnBalancesIff`), and of a slot lent again meanwhile it frees another borrower's slot, whose session
  the next borrower is then given too (`PoolTheorems.LateReleaseLendsTwice`). A second guest release is a no-op only until
  the same session is lent again (`PoolTheorems.SameSessionIsLentAgain`).
- **Releasing a slot as `cooldown` imposes no wait** (`SlotSafety.ReleasedAsCooldownDoesNotWait`), and **a release that
  says both healthy and `replace_before_reuse` is refused with an error and leaves the slot healthy**
  (`PoolTheorems.ReleaseNotes`).
- **A mint rolled back because its bundle could not be read back restores the slot but not the old bundle**
  (`SlotBorrowing.MintFailsAs`).
- **A failed mint does not always keep the old session**, as its documentation says: if reading the saved bundle back
  raises, the candidate is already installed (`SlotSafety.FailedMintKeepsSlot`). And if the store was written but the
  mint failed and closing the candidate is then cancelled, the slot keeps another address than its stored bundle
  (`SlotSafety.AgreementIsLostIff`). Such a slot is minted anew before it is lent, with one exception: with
  revalidation, if the mint was due to a cookie expiry and the wall clock is set back before it
  (`SlotSafety.TornBundleIsLent`, `SlotSafety.MismatchIsLentIff`, `PoolTheorems.LoansMatchIff`,
  `PoolTheorems.LoansMatchTheirAddress`).
- **Saving one slot erases every bundle that is not readable at that moment**, among them those dated more than a minute
  ahead after the wall clock was set back (`CookieStore.SaveKeepsExactlyTheReadable`).
- **A crash inside the write of the original record or inside the very first receipt write blocks every rerun of the
  handoff**: the temporary file it leaves is a name the receipt directory must not hold (`Handoff.RecoversIff`,
  `Handoff.TornOriginalBlocks`, `Handoff.TornReceiptBlocks`).
- **Two replacements within one read attempt fail it outright**, without the remaining attempts
  (`SnapshotRead.FailsOutrightIff`, `SnapshotRead.TwoReplacementsRefuse`, `SnapshotRead.ReadFailsAtOnce`).
- **A fresh key can be another movement's stored key**: exactly when a row recognised for another base has an unreserved
  key of this base, e.g. because its folio ends in `#` and digits, and there are enough new movements, beside whatever
  siblings are stored already, to reach it (`KeyStability.FreshKeyIsNobodys`, `KeyStability.ExposedKeyIsTakenIff`,
  `KeyStability.SuffixedFolioIsStolen`). The owner's row is then overwritten (`KeyRerun.NothingIsLostIff`), or, if the owner
  was scraped as well, the whole sync is refused because it names a key twice (`KeyAgreement.RepeatsIff`,
  `KeyRerun.OutputIsDistinct`, `KeyRerun.SuffixedFolioIsRefused`). A movement that lost its key may be given another one
  later (`KeyRerun.TheftChangesLaterKey`, `KeyRerun.SyncsAgreeIff`).
- **The order of scraped rows can decide keys**: exactly where which of two new movements of a base sorts first depends on
  which duplicate was scraped first (`KeyOrdering.OrderMattersIff`). That takes folio and null-folio rows in one base, so a
  case number with a colon or `pjud` (`KeyOrdering.NumberApartNeverFlips`), and a folio equal to the SHA-256 digest of
  another row's fields (`KeyOrdering.DigestFolioFlips`, `KeyOrdering.FlipExists`), which no real case is expected to have.
- **The alert cooldown can be cut short by less than a second**, because the time of delivery is stored in whole seconds
  (`AlertRuns.CooldownCutShort`); **a crash between sending and saving sends a firing or the day's heartbeat again**
  (`AlertRuns.LostRecordingRepeats`, `AlertRuns.LostHeartbeatRepeats`), as does a clock set back
  (`AlertRuns.ClockSetBackResends`, `AlertRuns.ClockSetBackRepeats`); and **a restart seen while a notified episode is open is forgotten**
  (`AlertRuns.IncreaseIsKeptIff`, `AlertRuns.IncreaseDropped`).
- **A severity change is not announced at once if the new severity must persist**: the cooldown of the alert before it
  then holds it back, so memory that turns critical after the delivered warning stays silent for up to three hours
  (`AlertTiming.ChangeIsAnnouncedIff`, `AlertTiming.LastingIsAnnouncedIff`, `AlertTiming.CriticalMemoryIsHeldBack`).
- **A restart counter that cannot be read once is forgotten**: a restart meanwhile is never announced
  (`AlertTiming.UnreadCounterIsForgotten`).
- **A trip taken with no known revision is undone by the next `enabled` row** (`ProxyControl.NextReadOpensIff`).
- **Re-anchoring a bundle gives away the time between its two clock readings**, and nothing else
  (`BundleAge.AgeIsKept`, `BundleAge.AgeKeepsUpIff`, `BundleAge.ReanchoringLosesTime`).

## Model

| member | source | states |
|---|---|---|
| MaintenanceProtocol.StepKeepsInv | estrado-pjud-service/worker/maintenance.py:105-219 | every micro-step of worker, operator or crash keeps the invariant tying tasks, count, leases, ACK, control, journals and the operator's progress |
| MaintenanceProtocol.RunKeepsInv | estrado-pjud-service/worker/maintenance.py:163-219 | so does every interleaving of any length |
| MaintenanceSafety.RunningMeansDraining | estrado-pjud-service/worker/maintenance.py:163-205 | in every reachable state, from the call of a body until its operation is counted out with all auxiliaries done, the ACK on disk is this process's own `draining` with a positive count, the shared lease is held, and nobody holds the exclusive one |
| MaintenanceSafety.ExclusiveMeansNoneRunning | estrado-pjud-service/worker/maintenance_store.py:439-461 | a holder of the exclusive lease knows that nothing runs or is being drained |
| MaintenanceSafety.QuietUntilReopened | estrado-pjud-service/worker/maintenance.py:171-191 | once the exclusive lease was held over a hold, nothing runs or starts until control reopens, even after the lease is dropped and across worker restarts |
| MaintenanceSafety.MarkedInFlightIsPinned | estrado-pjud-service/worker/maintenance.py:105-119 | with an operation in flight the process holds a shared lease |
| MaintenanceSafety.MarkedIdleIsPinnedIff | estrado-pjud-service/worker/maintenance.py:105-119 | marking an idle process pins it exactly when a lease is held or the shared lock is granted |
| MaintenanceSafety.UncertaintyIsPermanent | estrado-pjud-service/worker/maintenance.py:105-136 | a pinned uncertain process keeps a shared lease, admits nothing and publishes no `quiescent` until it dies, over any run |
| MaintenanceSafety.ControlAlternates | estrado-pjud-service/worker/maintenance_store.py:422-437 | control alternates: a hold opens under its own identifier, an open one is held under another |
| MaintenanceSafety.JournalsMatchControl | ops/worker-maintenance.py:356-410 | over all runs with crashes between any two writes, an open control has a succeeded journal and a begun hold has a journal |
| MaintenanceSafety.CriticalWasChecked | ops/worker-maintenance.py:380-406 | an operator past its check has held lease and hold without interruption since that check succeeded, and nothing ran |
| MaintenanceSafety.ReopenedAfterCheck | ops/worker-maintenance.py:381-410 | control opens only after quiescence, or the stop of a drained identity, was checked under an exclusive lease kept ever since, and the journal records it |
| MaintenanceSafety.FinishCompletes | ops/worker-maintenance.py:380-410 | a finish issued over a live quiescent ACK opens control under its identifier, and changes nothing else but its journal, which then names the drained process and says `succeeded` |
| MaintenanceSafety.FinishRecovers | ops/worker-maintenance.py:398-410 | a finish cut short before its last write leaves control held, and reissued it completes |
| MaintenanceSafety.RepeatedFinishChangesNothing | ops/worker-maintenance.py:375-379 | in every reachable state after opening, a repeated finish is answered as already finished, because the journal says so, and leaves the state unchanged |
| MaintenanceProgress.PublicationSays | estrado-pjud-service/worker/maintenance.py:121-132 | a publication leaves exactly the ACK of this process, control identifier and count, `quiescent` if and only if control is closed, nothing is in flight and the process is certain |
| MaintenanceProgress.IdleWorkerIsQuiescent | estrado-pjud-service/worker/maintenance.py:121-132 | a certain idle worker under a hold makes itself known as quiescent for it |
| MaintenanceProgress.OpenAdmits | estrado-pjud-service/worker/maintenance.py:175-191 | with control open and no exclusive lease the body is called, counted, leased and acknowledged as `draining` |
| MaintenanceProgress.HoldRefuses | estrado-pjud-service/worker/maintenance.py:175-220 | under a hold it is not called, nothing is counted and the lease is given back |
| MaintenanceProgress.ExclusiveRefuses | estrado-pjud-service/worker/maintenance.py:175-220 | nor while the operator holds the exclusive lease |
| MaintenanceProgress.UncertainRefuses | estrado-pjud-service/worker/maintenance.py:177-220 | nor by an uncertain process |
| MaintenanceProgress.ReturnEnds | estrado-pjud-service/worker/maintenance.py:190-220 | a body that returns is counted out, its lease given back, and the ACK says so |
| MaintenanceProgress.UnwindEnds | estrado-pjud-service/worker/maintenance.py:206-220 | how `run` ends after that: a refusal or an error from further down is acknowledged before the lease is looked at, an error marks the process |
| MaintenanceProgress.RanUntilClosed | estrado-pjud-service/worker/maintenance.py:185-205 | from the call of its body an operation stays accounted for, its own failure included, until it is counted out or the process dies |
| MaintenanceProgress.AtWorkUntilEnded | estrado-pjud-service/worker/maintenance.py:189-205 | over any run, a body at work is not counted out before it returns or raises or the process dies |
| MaintenanceProgress.MarkedIffFailed | estrado-pjud-service/worker/maintenance.py:105-220 | the steps that mark a process are exactly those that fail |
| MaintenanceProgress.BeginHolds | ops/worker-maintenance.py:366-374 | a begun window ends in a hold under its identifier, with a journal that names the worker |
| MaintenanceProgress.CheckPassesIff | ops/worker-maintenance.py:392-399 | the check accepts exactly the ACK of the live process for this window, `quiescent` with nothing in flight, under the exclusive lease |
| MaintenanceProgress.StoppedPassesIff | ops/worker-maintenance.py:382-385 | without a live process exactly one that the window's journal says has drained |
| MaintenanceProgress.FinishReplyIff | ops/worker-maintenance.py:375-380 | how a finish is answered before anything is checked |
| MaintenanceProgress.StoppedIsReleased | ops/worker-maintenance.py:380-406 | a window whose worker drained and was stopped can be finished |
| MaintenanceProgress.WindowCompletes | ops/worker-maintenance.py:366-406 | with one operation running, a window begins, drains as the body returns, and finishes with control open and the drained process in its journal |
| WorkerMaintenance.MarkedIsSteps | estrado-pjud-service/worker/maintenance.py:105-119 | marking is two steps of the protocol |
| WorkerMaintenance.PublishedIsSteps | estrado-pjud-service/worker/maintenance.py:121-132 | publishing an ACK is the protocol's request, read and write, a failed one marking the process once |
| WorkerMaintenance.BestEffortIsSteps | estrado-pjud-service/worker/maintenance.py:134-139 | a best-effort publication anywhere in `run` is the same with a second attempt at the shared lock after a failure |
| WorkerMaintenance.EnteredIsSteps | estrado-pjud-service/worker/maintenance.py:163-219 | entering `run`, refused for whatever reason or admitted, is one fixed sequence of protocol accesses |
| WorkerMaintenance.Coordinator.MarkUncertain | estrado-pjud-service/worker/maintenance.py:105-119 | the method does what the two steps do |
| WorkerMaintenance.Coordinator.PublishAck | estrado-pjud-service/worker/maintenance.py:121-132 | the method does what the steps of publishing do, for every failing access; an ACK written carries this process, the control's identifier and the count, and is `quiescent` if and only if control is closed, nothing is in flight and the process is certain |
| WorkerMaintenance.Coordinator.PublishBestEffort | estrado-pjud-service/worker/maintenance.py:134-139 | the method does what a best-effort publication does |
| WorkerMaintenance.Coordinator.Enter | estrado-pjud-service/worker/maintenance.py:163-219 | the body is called exactly when the process is certain, lock, control and ACK were accessible and control is open; in every case, refusals included, the state becomes that of the protocol's accesses |
| WorkerMaintenance.Coordinator.Close | estrado-pjud-service/worker/maintenance.py:196-205 | the operation leaves the table, the count goes down by one, and an uncertain process without a safety lease keeps this one |
| WorkerMaintenance.Coordinator.Leave | estrado-pjud-service/worker/maintenance.py:213-219 | the lease is given back unless it became the safety lease |
| Drain.Operation.TrackAuxiliary | estrado-pjud-service/worker/maintenance.py:58-84 | a closed operation or a cancelled future is refused and marks the process; otherwise the future is registered |
| Drain.Operation.FinishAuxiliaries | estrado-pjud-service/worker/maintenance.py:141-161 | when the drain gives up its place every registered future is done, also those registered meanwhile, and the process is uncertain exactly if it was, one failed or was cancelled, or the waiter was cancelled |
| Drain.OnlyGrows | estrado-pjud-service/worker/maintenance.py:58-84 | nothing registered is dropped and nothing settled changes |
| Handoff.OnlyThreePairs | ops/bootstrap-worker-handoff.py:171-260 | after any number of runs cut anywhere, each finding a hold, evidence and snapshot of its own, checkout and record are old/old, new/old or new/new |
| Handoff.RecoversIff | ops/bootstrap-worker-handoff.py:171-260 | from any state such runs lead to, a run goes through if and only if tree, hold and evidence are accepted and it finds the receipt's snapshot, or no receipt and no temporary file; then it ends new/new with a committed receipt, otherwise it changes nothing |
| Handoff.FirstRun | ops/bootstrap-worker-handoff.py:188-260 | a run over an untouched host makes six writes and ends with checkout, record, original and committed receipt as named |
| Handoff.PresentedOrNothing | ops/bootstrap-worker-handoff.py:171-225 | which hosts a run accepts, check by check; on any other it plans nothing |
| Handoff.NothingIsWrittenTwice | ops/bootstrap-worker-handoff.py:226-260 | directory, original, first receipt and checkout are written only if they are not there yet |
| Handoff.CleanCrashesRecover | ops/bootstrap-worker-handoff.py:188-260 | without torn writes one whole run that finds the receipt's snapshot completes the handoff, and one more changes nothing |
| Handoff.TornReceiptBlocks | ops/bootstrap-worker-maintenance.py:262-285 | a crash inside the first receipt write blocks every later run, whatever it finds |
| Handoff.TornOriginalBlocks | ops/bootstrap-worker-maintenance.py:262-285 | so does a crash inside the write of the original record |
| Handoff.PlanInOrder | ops/bootstrap-worker-handoff.py:188-260 | the writes a run plans keep every ordering constraint and, unless there are none, end committed |
| Handoff.CrashKeepsRecoverable | ops/bootstrap-worker-handoff.py:171-260 | a run cut before any write leaves the host recoverable |
| Handoff.Host.Run | ops/bootstrap-worker-handoff.py:171-260 | the writes done in order, cut where the machine dies, are the planned ones; without accepted tree, hold or evidence nothing is written and no success reported; success means new checkout, new record and a committed receipt |
| SnapshotRead.ReadVerdictIs | estrado-pjud-service/worker/maintenance_store.py:350-359 | what was read is returned exactly if all looks agree, and read again exactly if only the name has moved on |
| SnapshotRead.FailsOutrightIff | estrado-pjud-service/worker/maintenance_store.py:278-320 | when exactly an attempt fails without retry, inode numbers being used again once a file is neither named nor open |
| SnapshotRead.FailsOutrightWithoutReuse | estrado-pjud-service/worker/maintenance_store.py:278-320 | without such reuse: exactly when the file was replaced between name and open and again before the descriptor was looked at |
| SnapshotRead.TwoReplacementsCanFail | estrado-pjud-service/worker/maintenance_store.py:278-320 | such an attempt exists with two replacements |
| SnapshotRead.TwoReplacementsRefuse | estrado-pjud-service/worker/maintenance_store.py:289-320 | a writer that replaces the file before it is opened and again before its descriptor is looked at makes the opening fail for good |
| SnapshotRead.ReadFailsAtOnce | estrado-pjud-service/worker/maintenance_store.py:327-336 | with such a writer the whole read ends in an error, although two attempts are left |
| SnapshotRead.Reader.OpenNamed | estrado-pjud-service/worker/maintenance_store.py:289-320 | what is opened is the version that was named and still linked, or the attempt is refused for a replacement or two; which of these, as a function of what the writer does between the accesses |
| SnapshotRead.Reader.ReadAll | estrado-pjud-service/worker/maintenance_store.py:338-350 | pieces of any size add up to the content of the opened version |
| SnapshotRead.Reader.ReadSnapshot | estrado-pjud-service/worker/maintenance_store.py:338-361 | content returned is the whole of the version still named at the last look; retry means one replacement, failure two |
| SnapshotRead.Reader.Read | estrado-pjud-service/worker/maintenance_store.py:327-336 | a normal return is the complete content of one version named during the call; at most three attempts, failure implies two replacements, and an opening that fails for good ends the read |
| KeyText.CandidateInjective | estrado-pjud-service/worker/engine.py:562-569 | different suffix numbers give different keys |
| KeyText.FamiliesMeetIff | estrado-pjud-service/worker/engine.py:383-387 | two bases share a key if and only if one is itself a key of the other |
| KeyText.CandidatesMeet | estrado-pjud-service/worker/engine.py:562-569 | different bases have a suffix candidate in common only if one is a candidate of the other |
| KeyText.AllocateKey | estrado-pjud-service/worker/engine.py:561-569 | the suffix search ends for every set of taken keys, at the first free candidate |
| MovementKeys.MergeDocuments | estrado-pjud-service/worker/engine.py:477-490 | the loop appends exactly the documents not seen before |
| MovementKeys.Collapse | estrado-pjud-service/worker/engine.py:502-516 | the loop builds the groups by base and identity, in insertion order |
| MovementKeys.Index | estrado-pjud-service/worker/engine.py:528-544 | the loop indexes stored keys by identity and by the base that recognised them |
| MovementKeys.AssignGroup | estrado-pjud-service/worker/engine.py:549-571 | the loop gives the sorted rows of one base their keys one after the other |
| MovementKeys.PrepareMovements | estrado-pjud-service/worker/engine.py:493-573 | the whole computation is the function the theorems speak of |
| MovementTheorems.OneRowPerIdentity | estrado-pjud-service/worker/engine.py:502-516 | collapsing leaves exactly one row per dated base and identity |
| MovementTheorems.CollapsingLosesNothing | estrado-pjud-service/worker/engine.py:458-490 | documents are the union over the duplicates, and each linked group is copied whole from a duplicate of maximal completeness |
| KeyStability.KeysAreStable | estrado-pjud-service/worker/engine.py:549-571 | with unique stored keys, a stored movement gets the least-ranked of its stored keys whatever else was scraped or stored |
| KeyStability.KeyOrigin | estrado-pjud-service/worker/engine.py:549-571 | every assigned key is a stored key of that identity or a free key of its base |
| KeyStability.FreshKeyIsFree | estrado-pjud-service/worker/engine.py:561-569 | a new movement gets a key of its base that no row recognised for that base has |
| KeyStability.FreshKeyIsNobodys | estrado-pjud-service/worker/engine.py:537-569 | it is nobody's stored key at all, unless a recognised row of another base has an unreserved key of that base |
| KeyStability.FreshKeysInOrder | estrado-pjud-service/worker/engine.py:549-571 | whatever siblings are stored already, new movements of a base take its unreserved keys in order, one each, leaving none out |
| KeyStability.ExposedKeyIsTakenIff | estrado-pjud-service/worker/engine.py:537-571 | such an exposed stored key is taken if and only if the base has more new movements than unreserved keys before it |
| KeyStability.SuffixedFolioIsStolen | estrado-pjud-service/worker/engine.py:383-387 | an exposed key exists: a folio ending in `#2` loses its key to a sibling |
| KeyStability.BestIsLeast | estrado-pjud-service/worker/engine.py:552-559 | the chosen historical key is the least by rank and text among those not yet taken |
| KeyStability.RankOfCandidate | estrado-pjud-service/worker/engine.py:390-397 | the rank of a suffixed key is its number |
| KeyAgreement.KeysAreDistinct | estrado-pjud-service/worker/engine.py:546-571 | one key belongs to one logical movement over all bases of a result, unless new movements of one base reach the first key of new movements of another, or the stored key of a movement scraped too |
| KeyAgreement.RepeatsIff | estrado-pjud-service/worker/engine.py:546-571 | and in exactly those cases a result gives one key to two movements |
| KeyAgreement.TakenIsGiven | estrado-pjud-service/worker/engine.py:561-569 | an unreserved suffix candidate with fewer unreserved ones before it than there are new movements is given to one of them |
| KeyAgreement.ClashingBasesClash | estrado-pjud-service/worker/engine.py:546-571 | where new movements of one base reach the first key of new movements of another, both are given that key |
| KeyAgreement.PreparedIsWanted | estrado-pjud-service/worker/engine.py:493-573 | the output lists exactly the dated logical movements |
| KeyAgreement.PreparedGets | estrado-pjud-service/worker/engine.py:546-573 | every listed pair is a collapsed row with the key its movement gets |
| KeyAgreement.GetsPrepared | estrado-pjud-service/worker/engine.py:546-573 | and every key given is listed |
| KeyHistory.SameMovementIff | estrado-pjud-service/worker/engine.py:340-366 | which fields decide that two rows are one movement |
| KeyHistory.ListedIff | estrado-pjud-service/worker/engine.py:504-573 | the result lists exactly the dated movements |
| KeyHistory.RowIsFullest | estrado-pjud-service/worker/engine.py:458-516 | a row has the linked values, as a whole, of the duplicate with most of them, and the documents of all |
| KeyHistory.FirstKeyIsText | estrado-pjud-service/worker/engine.py:399-420 | the key of the first movement of an empty case, as text |
| KeyHistory.HistoricalSpellingIsKept | estrado-pjud-service/worker/engine.py:421-560 | a movement stored once, under a key spelled with a historical case number, with or without a suffix number, is given that very key |
| KeyHistory.ForeignIff | estrado-pjud-service/worker/engine.py:530-538 | a stored row counts for nothing if and only if its key is spelled with none of the case's numbers |
| KeyHistory.ForeignRowsAreIgnored | estrado-pjud-service/worker/engine.py:530-544 | such a row changes nothing of the result |
| KeyHistory.LowestNumberIsKept | estrado-pjud-service/worker/engine.py:553-560 | of the suffix numbers stored for a movement the lowest is kept |
| KeyHistory.NewNumbersFollowOrder | estrado-pjud-service/worker/engine.py:369-380 | of two new movements of a base the one with tramite or etapa, or else the smaller digest, has the lower number |
| KeyOrdering.SortedIsUnique | estrado-pjud-service/worker/engine.py:369-380 | identities compared alike have one sorted order |
| KeyOrdering.OrderDoesNotMatter | estrado-pjud-service/worker/engine.py:493-573 | permuting scraped or stored rows changes no key of a base, unless two of its new movements flip: which sorts first depends on which duplicate was scraped first |
| KeyOrdering.OrderMatters | estrado-pjud-service/worker/engine.py:369-380 | where two new movements flip, some permutation of the scraped rows changes a key, whatever siblings are stored |
| KeyOrdering.OrderMattersIff | estrado-pjud-service/worker/engine.py:493-573 | some two permutations of the scraped rows give a movement of a base different keys if and only if two of its new movements flip |
| KeyOrdering.DigestFolioFlips | estrado-pjud-service/worker/engine.py:400-418 | a flip exists in a case numbered `pjud` with a folio equal to the digest of a null-folio row's fields |
| KeyOrdering.FlipExists | estrado-pjud-service/worker/engine.py:369-418 | so it does for a concrete injective digest |
| KeyOrdering.NumberApartNeverFlips | estrado-pjud-service/worker/engine.py:400-418 | no case number without a colon other than `pjud` makes a flip possible |
| KeyRerun.OutputIsDistinct | estrado-pjud-service/worker/engine.py:493-573 | the rows of a result are pairwise different movements, and pairwise different in key if and only if no key is given twice |
| KeyRerun.StoredAfterSync | estrado-pjud-service/worker/engine.py:1981-1988 | after an upsert that goes through, a movement's recognised keys are the one it was given and its old ones that no other movement took |
| KeyRerun.NothingIsLostIff | estrado-pjud-service/worker/engine.py:1981-1988 | a sync takes no stored movement any of its keys if and only if it is refused or new movements of no base reach the stored key of another |
| KeyRerun.SuffixedFolioIsRefused | estrado-pjud-service/worker/engine.py:1981-1988 | a sync names one key twice, and is refused, when two new movements share a folio and a third has that folio and `#2` |
| KeyRerun.OneOwnerIff | estrado-pjud-service/worker/engine.py:528-571 | among stored and given rows no key has two owners if and only if neither kind of clash is there |
| KeyRerun.SyncKeepsUnique | estrado-pjud-service/worker/engine.py:1981-1988 | storing a result keeps keys unique |
| KeyRerun.SyncsKeepUnique | estrado-pjud-service/worker/engine.py:528-571 | over any number of syncs |
| KeyRerun.SyncsAgree | estrado-pjud-service/worker/engine.py:493-573 | over any sequence of syncs, a movement that was given a key by one that went through is given the same key every later time, whatever else is scraped then and in between, unless in between new movements of another base take that very key |
| KeyRerun.GivenIff | estrado-pjud-service/worker/engine.py:546-571 | a scraped movement is given a key if and only if that is the least of its stored keys, or it has none and the key is the unreserved candidate at its place among the new movements of its base |
| KeyRerun.SyncsAgreeIff | estrado-pjud-service/worker/engine.py:493-573 | after any sequence of syncs, thefts and refusals among them, exactly then is it given that key again |
| KeyRerun.TheftChangesLaterKey | estrado-pjud-service/worker/engine.py:493-573 | a run in which a stolen key is given back later to its owner scraped alone, but another key to the owner scraped behind a new sibling |
| KeyRerun.NextSyncAgrees | estrado-pjud-service/worker/engine.py:493-573 | the very next sync always agrees with one that went through |
| SlotSafety.BuildCounts | estrado-pjud-service/worker/session_pool.py:337-435 | attempts stay within their bound, and a candidate exists exactly when one more attempt was started than failed |
| SlotSafety.FailedMintKeepsSlot | estrado-pjud-service/worker/session_pool.py:315-492 | a mint that succeeds leaves a ready slot whose new bundle is stored; one that fails leaves the slot alone if and only if it did not get as far as a raising read-back |
| SlotSafety.BackoffIsBounded | estrado-pjud-service/worker/session_pool.py:277-303 | a cooldown lasts between one and thirty-two pauses |
| SlotSafety.CooldownKeepsIntent | estrado-pjud-service/worker/session_pool.py:277-311 | a cooldown lasts to its probe time and then restores validation or replacement |
| SlotSafety.PreparedIsSane | estrado-pjud-service/worker/session_pool.py:862-948 | in both reuse modes and from every disposition a successful preparation ends healthy with a live session; any outcome leaves address and token together |
| SlotSafety.UnmintedBuysNothing | estrado-pjud-service/worker/session_pool.py:718-948 | a borrow not marked as minted uses an address the slot or its stored bundle already had |
| SlotSafety.MintedBuysNoMore | estrado-pjud-service/worker/session_pool.py:1092-1110 | a borrow that minted cannot mint again when given back |
| SlotSafety.AgreementIsLostIff | estrado-pjud-service/worker/session_pool.py:437-480 | a preparation separates a ready slot from its stored bundle if and only if a mint forced by age or expiry wrote the store, failed, and closing its candidate was cancelled |
| SlotSafety.StaleIsReplaced | estrado-pjud-service/worker/session_pool.py:897-931 | a ready slot past its age or expiry is lent only with a newly minted address and the bundle stored for it |
| SlotSafety.StaleIsNeverLent | estrado-pjud-service/worker/session_pool.py:862-948 | a slot separated from its bundle stays past its age or expiry and is not lent, as long as an expiry found before is found again |
| SlotSafety.MismatchIsLentIff | estrado-pjud-service/worker/session_pool.py:862-948 | a borrow lends a slot whose bundle is another's if and only if it was ready, already differed, and is judged neither too old nor expired nor due for validation |
| SlotSafety.TornBundleIsLent | estrado-pjud-service/worker/session_pool.py:904-931 | with revalidation, if a cookie expiry made the slot mint and the wall clock is then set back before it, the mismatched bundle is lent |
| SlotSafety.ReturnedIsSane | estrado-pjud-service/worker/session_pool.py:1076-1124 | a returned slot is idle and tidy whatever the release arguments and the re-mint do |
| SlotSafety.ReturnedAgrees | estrado-pjud-service/worker/session_pool.py:1076-1124 | and still agrees with its stored bundle whenever it can be lent |
| SlotSafety.StuckRefusesEveryBorrow | estrado-pjud-service/worker/session_pool.py:865-872 | a slot awaiting validation against a bundle that is not its own refuses every borrow and is left unchanged |
| SlotSafety.SticksIff | estrado-pjud-service/worker/session_pool.py:791-860 | with a store nobody else writes, a preparation leaves a slot so if and only if it was a first validation after startup and failed |
| SlotSafety.ReturnNeverSticks | estrado-pjud-service/worker/session_pool.py:1089-1124 | returning a slot never does |
| SlotSafety.ReleasedAsCooldownDoesNotWait | estrado-pjud-service/worker/session_pool.py:305-311 | a slot released as `cooldown` is replaced at the very next borrow |
| SlotBorrowing.AttemptsAre | estrado-pjud-service/worker/session_pool.py:337-342 | how many addresses a mint tries: one to three, and one on behalf of a waiting borrower |
| SlotBorrowing.BuildSucceedsIff | estrado-pjud-service/worker/session_pool.py:356-435 | the attempts succeed if and only if one is good and all before it allowed to go on |
| SlotBorrowing.BuildFailsAs | estrado-pjud-service/worker/session_pool.py:356-435 | otherwise they fail as the first one that does not go on says, with its counts |
| SlotBorrowing.MintSucceedsIff | estrado-pjud-service/worker/session_pool.py:337-485 | when exactly a mint goes well, and the bundle, address, session and record it leaves |
| SlotBorrowing.MintFailsAs | estrado-pjud-service/worker/session_pool.py:437-485 | what one that fails leaves of slot and store, by where it failed |
| SlotBorrowing.BackoffDoubles | estrado-pjud-service/worker/session_pool.py:277-303 | the cooldown is one pause, doubling with each failure in a row up to thirty-two |
| SlotBorrowing.VerdictIs | estrado-pjud-service/worker/session_pool.py:616-681 | when exactly a validation confirms or rejects a bundle, and what it installs |
| SlotBorrowing.RaisedSwapIs | estrado-pjud-service/worker/session_pool.py:647-660 | a compare-and-set that raises leaves the slot alone and stops or cools down |
| SlotBorrowing.ValidationSucceedsIff | estrado-pjud-service/worker/session_pool.py:773-817 | when exactly a validation with its one replacement goes well |
| SlotBorrowing.InconclusiveCoolsDown | estrado-pjud-service/worker/session_pool.py:773-817 | a validation that says nothing cools the slot down to be validated again |
| SlotBorrowing.StopQuarantines | estrado-pjud-service/worker/session_pool.py:773-817 | one that is stopped leaves the slot to be validated |
| SlotBorrowing.LostRaceQuarantines | estrado-pjud-service/worker/session_pool.py:649-660 | a bundle another process put there meanwhile is not touched |
| SlotBorrowing.ReuseSucceedsIff | estrado-pjud-service/worker/session_pool.py:862-948 | when exactly a borrow succeeds with revalidation |
| SlotBorrowing.LegacySucceedsIff | estrado-pjud-service/worker/session_pool.py:1022-1057 | and without, and when the slot is lent as it is |
| SlotBorrowing.ReturnRemints | estrado-pjud-service/worker/session_pool.py:1092-1117 | a slot given back for replacement is replaced at once unless its borrow has just paid for a mint, and what a failure to do so leaves |
| SessionPool.RunKeepsInv | estrado-pjud-service/worker/session_pool.py:968-1206 | in every reachable state of any interleaving: permits, busy slots and choosing borrowers add up to the pool size, sessions differ, checkouts match their slots, lent slots are ready |
| SessionPool.FirstFree | estrado-pjud-service/worker/session_pool.py:979-987 | the choice is the first idle slot that is not cooling down |
| SessionPool.FinishedKeepsInv | estrado-pjud-service/worker/session_pool.py:1005-1057 | finishing a borrow, in success or failure, keeps all that |
| SessionPool.SlotReturnedKeepsInv | estrado-pjud-service/worker/session_pool.py:1076-1124 | so does giving back a held slot |
| PoolTheorems.RefusedIff | estrado-pjud-service/worker/session_pool.py:977-990 | a borrower with a permit is refused if and only if every idle slot is cooling down, and there is an idle slot |
| PoolTheorems.BorrowersHoldDistinctSlots | estrado-pjud-service/worker/session_pool.py:1126-1133 | in every reachable state capacity balances and checked-out sessions sit on different busy slots |
| PoolTheorems.ReleaseChangesNothingIff | estrado-pjud-service/worker/session_pool.py:1135-1154 | a guest release changes nothing if and only if the session is not checked out, in particular the second time |
| PoolTheorems.ReleaseNotes | estrado-pjud-service/worker/session_pool.py:1060-1091 | a release that does not reject the session only notes the disposition it names; a contradictory one is refused and notes nothing |
| PoolTheorems.ReleaseRejects | estrado-pjud-service/worker/session_pool.py:1065-1124 | one that rejects it leaves the slot with another session or to be replaced |
| PoolTheorems.RejectedIsRetired | estrado-pjud-service/worker/session_pool.py:1065-1154 | a guest's session given back for replacement is checked out by nobody, and its slot is to be replaced or has another |
| PoolTheorems.RejectedIsNeverLent | estrado-pjud-service/worker/session_pool.py:862-1154 | and it is lent to nobody any more, over any later run of the pool |
| PoolTheorems.SameSessionIsLentAgain | estrado-pjud-service/worker/session_pool.py:920-931 | a session that stays good is lent again under the same identity |
| PoolTheorems.GivenBackIsFree | estrado-pjud-service/worker/session_pool.py:1118-1124 | a slot given back is free with its permit, and nothing else of the pool changes |
| PoolTheorems.ReturnBalancesIff | estrado-pjud-service/worker/session_pool.py:1189-1206 | giving back an idle slot adds a permit, giving back a busy one keeps the balance |
| PoolTheorems.LateReleaseLendsTwice | estrado-pjud-service/worker/session_pool.py:1189-1206 | a second Familia release after a guest was lent the slot frees it under the guest, and the next guest is lent the same session |
| PoolTheorems.FailedBorrowRestores | estrado-pjud-service/worker/session_pool.py:1005-1057 | a failed borrow leaves permits, phases, checkouts, all other slots and bundles as before |
| PoolTheorems.LoansMatchTheirAddress | estrado-pjud-service/worker/session_pool.py:1156-1187 | over all runs in which nobody else puts bundles into the store and no expiry found reached, of a slot that differs from its bundle, is later found not reached, torn commits included: whoever holds a slot holds a healthy one with a live session, and its stored bundle carries the token of the slot's proxy address |
| PoolTheorems.LoansMatchIff | estrado-pjud-service/worker/session_pool.py:1156-1187 | over all runs in which nobody else puts bundles into the store, every loan in every state matches if and only if no borrow finishes on a slot that already differs and is judged good as it is |
| PoolTheorems.LegacyRunsAreSafe | estrado-pjud-service/worker/session_pool.py:1022-1057 | without revalidation the condition on expiries is void |
| PoolTheorems.LostForGood | estrado-pjud-service/worker/session_pool.py:862-880 | a lost slot is never lent again over any run without another writer of its bundle |
| PoolTheorems.LostAtStartupIsFinal | estrado-pjud-service/worker/session_pool.py:862-880 | a slot lost at startup is never lent again over any run, other writers of its bundle included |
| PoolTheorems.FailedStartupLosesTheSlot | estrado-pjud-service/worker/session_pool.py:791-817 | any failure of the first validation after a restart loses the slot |
| PoolTheorems.LostFirstSlotRefusesEveryone | estrado-pjud-service/worker/session_pool.py:977-987 | while slot 0 is lost and idle, a lone borrower fails and the pool is unchanged |
| PoolTheorems.CleanRunFollows | estrado-pjud-service/worker/session_pool.py:437-485 | with a store nobody else writes and clean commits, each slot's bundle stays the stored one over all runs |
| PoolTheorems.PreparedSlotIsPrivate | estrado-pjud-service/worker/session_pool.py:977-1057 | no other step of the pool changes a slot being prepared or its bundle, so a preparation may count as one step |
| ResidentialPool.ResidentialPool.BuildCandidate | estrado-pjud-service/worker/session_pool.py:337-435 | the attempt loop ends as the specification says and counts attempts and failures |
| ResidentialPool.ResidentialPool.MintSlot | estrado-pjud-service/worker/session_pool.py:315-492 | attempts and commit together do what the specification of a mint says |
| ResidentialPool.ResidentialPool.CommitCandidate | estrado-pjud-service/worker/session_pool.py:437-488 | commit, swap, read-back and rollback, in this order |
| ResidentialPool.ResidentialPool.RevalidateBundle | estrado-pjud-service/worker/session_pool.py:616-681 | a validation swaps the session in only after its compare-and-set |
| ResidentialPool.ResidentialPool.RevalidateOrMintOnce | estrado-pjud-service/worker/session_pool.py:773-817 | quarantine, verdict and at most one replacement |
| ResidentialPool.ResidentialPool.PrepareReuseSlot | estrado-pjud-service/worker/session_pool.py:862-948 | the branches of preparing a slot with revalidation |
| ResidentialPool.ResidentialPool.PrepareLegacySlot | estrado-pjud-service/worker/session_pool.py:1022-1057 | the branches without revalidation |
| ResidentialPool.ResidentialPool.ChooseSlot | estrado-pjud-service/worker/session_pool.py:977-995 | the scan changes only the slot it chooses, and gives the permit back if there is none |
| ResidentialPool.ResidentialPool.Acquire | estrado-pjud-service/worker/session_pool.py:1126-1133 | a guest's borrow is the pool's step, and its session is registered for its slot |
| ResidentialPool.ResidentialPool.AcquireFamiliaBundle | estrado-pjud-service/worker/session_pool.py:1156-1187 | Familia gets the stored bundle with the slot's address; a failing load gives the slot back |
| ResidentialPool.ResidentialPool.ReturnSlot | estrado-pjud-service/worker/session_pool.py:1076-1124 | in every case the slot ends idle with its permit returned; given back for replacement, it has another session or is to be replaced |
| ResidentialPool.ResidentialPool.Release | estrado-pjud-service/worker/session_pool.py:1135-1154 | an unknown session changes nothing; a known one leaves the checkout, and its slot ends idle: retired if given back for replacement, as it was with an error if the release contradicts itself, and with its session and the disposition named otherwise |
| CookieStore.CookieStore.LoadAll | estrado-pjud-service/app/cookie_store.py:335-343 | exactly the readable entries |
| CookieStore.CookieStore.SaveSlot | estrado-pjud-service/app/cookie_store.py:274-297 | the file is rebuilt from the readable entries and the new one, or left alone on failure |
| CookieStore.CookieStore.ReplaceSlotCookiesIfCurrent | estrado-pjud-service/app/cookie_store.py:299-330 | only the cookies of the still current bundle change, and only then is success reported |
| CookieStore.SaveKeepsExactlyTheReadable | estrado-pjud-service/app/cookie_store.py:282-297 | saving one slot keeps what is readable then for all later times and erases the rest |
| CookieStore.SavedIsRead | estrado-pjud-service/app/cookie_store.py:130-140 | a saved bundle is read back at every time at which its date is not more than a minute ahead |
| CookieStore.StoreRefinesMap | estrado-pjud-service/app/cookie_store.py:274-343 | on readable bundles both writes are updates of one map entry, as the pool assumes |
| BundleAge.Slot.BundleAge | estrado-pjud-service/worker/session_pool.py:515-532 | reading an age is the specified function of the slot and both clocks, and records its floor |
| BundleAge.Slot.AnchorBundle | estrado-pjud-service/worker/session_pool.py:534-545 | anchoring keeps an age already reached for the same bundle |
| BundleAge.AgeIsKept | estrado-pjud-service/worker/session_pool.py:515-545 | for arbitrary clocks the age stays above its floor and above anchored age plus elapsed monotonic time, less the gaps inside re-anchorings |
| BundleAge.GapIsLost | estrado-pjud-service/worker/session_pool.py:534-545 | with the wall clock not past `saved_at` the age is short of anchored age plus elapsed time by exactly those gaps |
| BundleAge.AgeKeepsUpIff | estrado-pjud-service/worker/session_pool.py:515-545 | the age keeps up with the monotonic clock for every wall clock if and only if no re-anchoring takes time between its two readings |
| BundleAge.ReanchoringLosesTime | estrado-pjud-service/worker/session_pool.py:534-545 | one re-anchoring that takes time makes the reported age fall short by it |
| BundleAge.AnotherBundleStartsAnew | estrado-pjud-service/worker/session_pool.py:534-545 | another bundle starts from its own wall-clock age, whatever the one before had reached |
| BundleAge.FirstReportAnchors | estrado-pjud-service/worker/session_pool.py:515-532 | a bundle never anchored is anchored by its first report |
| BundleAge.ReportsNeverDecrease | estrado-pjud-service/worker/session_pool.py:515-545 | reported ages of one bundle never decrease |
| BundleAge.HardLimitIsSticky | estrado-pjud-service/worker/session_pool.py:515-545 | once past a limit, a bundle stays past it until another is installed |
| BundleAge.AnchoredAgePlusElapsed | estrado-pjud-service/worker/session_pool.py:534-545 | a fresh anchor bounds the age by wall age plus elapsed monotonic time |
| ProxyControl.ProxyControl.Refresh | estrado-pjud-service/worker/proxy_control.py:52-105 | the method is the specified step: a failed read closes the switch at the revision seen before, a newer row not closed by a trip is taken over as it is, an older one is ignored |
| ProxyControl.ProxyControl.Trip | estrado-pjud-service/worker/proxy_control.py:121-185 | the method is the specified step, knowing only what the compare-and-set confirmed: closed, with status, revision and reason as confirmed or not |
| ProxyControl.FailedReadCloses | estrado-pjud-service/worker/proxy_control.py:96-105 | a failed read closes the switch and keeps revision and trip |
| ProxyControl.RowOpensIff | estrado-pjud-service/worker/proxy_control.py:60-95 | when exactly a row read leaves the switch open |
| ProxyControl.AllowedMeansLastRead | estrado-pjud-service/worker/proxy_control.py:52-185 | over any run from a closed switch, an open one means that some read found an `enabled` row at the revision now seen and that after it no read failed and nothing was tripped |
| ProxyControl.AnsweredTripClosesEveryone | estrado-pjud-service/worker/proxy_control.py:121-185 | an answered trip writes the next revision, and whoever reads that row is closed |
| ProxyControl.LostTripWrites | estrado-pjud-service/worker/proxy_control.py:121-185 | what a trip leaves in the database when its request or its reply is lost |
| ProxyControl.StaleTripWritesNothing | estrado-pjud-service/worker/proxy_control.py:121-185 | a row changed meanwhile is not overwritten, and the switch is closed here all the same |
| ProxyControl.SeenRevisionNeverDecreases | estrado-pjud-service/worker/proxy_control.py:52-105 | under any interleaving the seen revision never decreases |
| ProxyControl.TrippedStaysClosed | estrado-pjud-service/worker/proxy_control.py:52-185 | after a trip with a known revision traffic is allowed only on an `enabled` row of a strictly larger revision, over any run |
| ProxyControl.LostReplyClosesNextRevision | estrado-pjud-service/worker/proxy_control.py:121-185 | a committed trip whose reply was lost closes its own revision too |
| ProxyControl.NextReadOpensIff | estrado-pjud-service/worker/proxy_control.py:121-185 | an unconfirmed trip is undone by an `enabled` row if and only if no revision was known or the row's is larger |
| ProxyUsage.PersistUsageEvent | estrado-pjud-service/worker/proxy_usage.py:398-438 | a normal return means one row under the key, equal to the payload, however replies and writes were lost or late; the requests sent are an insert, then upserts, each looked after, and the result is a success exactly if the last reply shows the row, an error only after one that ends the attempts or after three writes |
| ProxyUsage.RecordedAtOnce | estrado-pjud-service/worker/proxy_usage.py:398-420 | an insert that is answered is the only request, and succeeds exactly at a free key |
| ProxyUsage.LostReplyIsReconciled | estrado-pjud-service/worker/proxy_usage.py:421-433 | an insert that took effect but lost its reply is found again by the look after it |
| ProxyUsage.ThirdWriteRecords | estrado-pjud-service/worker/proxy_usage.py:398-438 | after two attempts without any answer the third one still records |
| ProxyUsage.UnansweredGivesUp | estrado-pjud-service/worker/proxy_usage.py:398-438 | without any answer there are three writes and three looks, and an error |
| ProxyUsage.FinalizeBudget | estrado-pjud-service/worker/proxy_usage.py:1061-1138 | a normal return means the reservation has the expected final status; finalizations and looks alternate, and the result is a success exactly if the last reply shows that status |
| ProxyUsage.FinalizedAtOnce | estrado-pjud-service/worker/proxy_usage.py:1078-1085 | the first finalization, answered, is the only request, and succeeds unless refused |
| ProxyUsage.LostFinalizationIsReconciled | estrado-pjud-service/worker/proxy_usage.py:1105-1128 | one that took effect but lost its reply is found again by the look after it |
| ProxyUsage.ConstraintIsReconciledOnce | estrado-pjud-service/worker/proxy_usage.py:1086-1130 | a violated constraint is looked into once: no error exactly if the status is the one asked for |
| ProxyUsage.ThirdFinalizationSettles | estrado-pjud-service/worker/proxy_usage.py:1075-1138 | after two attempts without any answer the third one still settles |
| ProxyUsage.UnansweredFinalizationGivesUp | estrado-pjud-service/worker/proxy_usage.py:1075-1138 | without any answer there are three finalizations and three looks, and an error |
| ProxyUsage.PersistAndFinalize | estrado-pjud-service/worker/proxy_usage.py:921-1059 | a finalized reservation has its event row and a released one had no provider request, whether it returns or raises; if it returns, released exactly when no request was counted, and what was counted is in the row; on a database without trouble it does return, after at most two requests |
| ProxyUsage.CalmOperation | estrado-pjud-service/worker/proxy_usage.py:921-1059 | without trouble one request records and one settles |
| ProxyUsage.Settle | estrado-pjud-service/worker/proxy_usage.py:921-1138 | requests arriving later change none of that |
| AlertPolicy.AdvanceState | ops/monitoring/alert_policy.py:408-515 | the loop over rules and the heartbeat are the specified functions |
| AlertPolicy.AdvanceEntry | ops/monitoring/alert_policy.py:422-491 | the entry rewritten field by field is the specified one |
| AlertPolicy.EntriesAreIndependent | ops/monitoring/alert_policy.py:422-491 | each rule is advanced from its own entry alone, and its event is its own |
| AlertPolicy.OthersAreUntouched | ops/monitoring/alert_policy.py:422-491 | an entry no rule has is left alone |
| AlertRuns.WatchedInv | ops/monitoring/alert_policy.py:408-544 | what every run of ticks, deliveries and lost recordings keeps of an entry and of all that was sent |
| AlertRuns.ResolvedAfterFiring | ops/monitoring/alert_policy.py:475-491 | a resolution is emitted only after a firing of that episode was delivered, for any clock and cooldowns |
| AlertRuns.FiringsAreSpaced | ops/monitoring/alert_policy.py:448-473 | for a clock that does not go back, of two firings sent without inactive tick or severity change between, the later is at least the least cooldown away, counted from the second stored for the earlier, unless the recording of the earlier was lost |
| AlertRuns.FiringIsRepeatedIff | ops/monitoring/alert_policy.py:443-473 | after any run, for any clock and cooldowns, a tick of the same condition sends a firing again if and only if its cooldown is over, or a tick since the recorded firing was due and could not be sent |
| AlertRuns.ClockSetBackResends | ops/monitoring/alert_policy.py:443-446 | with a clock set back, a firing that was due but could not be sent is sent at any distance from the one before |
| AlertRuns.NextTickRepeatsIff | ops/monitoring/alert_policy.py:443-473 | the next tick of the same condition sends again if and only if the last was not recorded as sent or the cooldown is over |
| AlertRuns.LostRecordingRepeats | ops/monitoring/monitor.py:267-285 | a crash between sending and saving makes the next tick send the firing again, at any distance |
| AlertRuns.CooldownCutShort | ops/monitoring/alert_policy.py:627-630 | the full cooldown is missed whenever the first delivery falls inside a second |
| AlertRuns.PendingIsReemitted | ops/monitoring/alert_policy.py:443-446 | a pending event is emitted again at every tick until delivered while condition and severity stay |
| AlertRuns.IncreaseIsKeptIff | ops/monitoring/alert_policy.py:277-302 | a restart increase not delivered at once is kept if and only if no notified episode is open |
| AlertRuns.WaitingTick | ops/monitoring/alert_policy.py:277-302 | while waiting, each tick is active and emits as soon as the cooldown allows |
| AlertRuns.NoSilentRestart | ops/monitoring/alert_policy.py:277-302 | an increase so kept stays active over any ticks, counters, clocks and failed or unrecorded deliveries until a firing is delivered |
| AlertRuns.RestartTickKeepsInv | ops/monitoring/alert_policy.py:294-302 | restart rules never emit a resolution |
| AlertRuns.IncreaseDropped | ops/monitoring/alert_policy.py:448-491 | an increase seen inside a notified episode's cooldown is never announced |
| AlertTiming.NewIsAnnouncedIff | ops/monitoring/alert_policy.py:429-473 | a new condition is announced at its first tick if and only if it need not persist and the rule resolves or the cooldown is over |
| AlertTiming.ChangeIsAnnouncedIff | ops/monitoring/alert_policy.py:431-473 | a changed severity is announced at once, inside the cooldown too, if and only if the rule need not persist |
| AlertTiming.SameIsAnnouncedIff | ops/monitoring/alert_policy.py:441-473 | the same condition is announced if and only if it has persisted and the cooldown is over, or a firing is pending |
| AlertTiming.EndIsAnnouncedIff | ops/monitoring/alert_policy.py:475-491 | the end of a condition is announced if and only if a firing of it was delivered and the rule resolves, or a resolution is pending; with which severity and message |
| AlertTiming.LastingIsAnnouncedIff | ops/monitoring/alert_policy.py:431-473 | over any ticks of a new condition or severity that must persist, the first announcement comes exactly when it has lasted and the cooldown since whatever was sent last is over |
| AlertTiming.LastingIsHeldBack | ops/monitoring/alert_policy.py:431-473 | so inside that cooldown it is never announced |
| AlertTiming.CriticalMemoryIsHeldBack | ops/monitoring/alert_policy.py:142-175 | memory turning critical after the delivered warning is not announced for three hours |
| AlertTiming.UnreadCounterIsForgotten | ops/monitoring/alert_policy.py:277-302 | after a counter that could not be read, no value of it counts as an increase |
| AlertTiming.BeatIsSentIff | ops/monitoring/alert_policy.py:493-513 | after any run of ticks a tick sends the heartbeat if and only if nothing is active and none is recorded for its date |
| AlertRuns.RepeatedHeartbeatIsExplained | ops/monitoring/alert_policy.py:493-513 | for any clock, a heartbeat is sent twice on one date only if the recording of the first was lost or another date was recorded in between |
| AlertRuns.OneHeartbeatPerDate | ops/monitoring/alert_policy.py:493-513 | with a clock that does not go back, at most one heartbeat is sent per UTC date unless the recording of the earlier one was lost |
| AlertRuns.LostHeartbeatRepeats | ops/monitoring/monitor.py:267-285 | a crash between sending and saving sends the heartbeat of that date again |
| AlertRuns.ClockSetBackRepeats | ops/monitoring/alert_policy.py:493-513 | so does a clock set back to the day before once that day's heartbeat was recorded |
| CandidateBatch.Index | estrado-pjud-service/worker/import_jobs.py:285-317 | either the fault of the first bad row, or all rows accepted and merged by hash in first-occurrence order |
| CandidateBatch.LastValueWins | estrado-pjud-service/worker/import_jobs.py:310-317 | the last non-null value of a field wins |
| CandidateBatch.HashesAre | estrado-pjud-service/worker/import_jobs.py:307-309 | the order lists each hash once |
| CandidateBatch.ArrayGrows | estrado-pjud-service/worker/import_jobs.py:321-331 | the running size is the byte length of the serialized array |
| CandidateBatch.Cut | estrado-pjud-service/worker/import_jobs.py:319-331 | the loop keeps the longest prefix that fits |
| CandidateBatch.CandidatePayloads | estrado-pjud-service/worker/import_jobs.py:285-335 | the result is the longest prefix with at most 1000 items and 1048576 bytes, `truncated` exactly when something was dropped; an error names the first reason of the first bad row |
| CandidateBatch.FaultIff | estrado-pjud-service/worker/import_jobs.py:288-306 | which rows are refused, and for which of several reasons |
| CandidateBatch.HashIsKept | estrado-pjud-service/worker/import_jobs.py:302-317 | each merged payload carries the hash it is filed under |
| CandidateBatch.SerializedAs | estrado-pjud-service/worker/import_jobs.py:321-331 | the serialized text whose bytes are counted |

## Left out

- HTTP, browser, database and messaging calls are steps that succeed, fail, or take effect and lose their answer; the SQL behind the RPCs is a contract (a unique key, an append-only table, a compare-and-set).
- File permissions, ownership, symbolic links, unit files, health checks and git authentication are guards assumed to pass or given as one answer; `git switch` and atomic replacement are single steps, except that a crash inside the latter can leave its temporary file.
- SHA-256 is an injective function and a file's hash stands for its content; Unicode normalisation, case folding and digits outside ASCII are not modelled, and identities are the normalised values.
- Times are integers or reals: floating-point rounding is not modelled.
- The check that `run` is not nested and the rest of the operator's commands (`status`, delegated checks) are left out: single branches without state.
- WorkerMaintenance.Coordinator.Enter: interleavings inside one call are those of `MaintenanceProtocol`; the object's methods run without other tasks in between.
- Drain.Operation.FinishAuxiliaries: the order in which a pending set is visited is arbitrary, and a script of happenings that ends early stands for a drain still waiting.
- KeyOrdering.OrderDoesNotMatter: assumes an injective digest and unique stored keys.
- KeyRerun.StoredAfterSync: the table has one row per case and key; an upsert that names a key twice is refused as a whole, as PostgreSQL does. What an upsert keeps of a payload is its identity fields and folio.
- PoolTheorems.LoansMatchTheirAddress: a bundle another process puts under the slot's index can be lent with the wrong address, and so can a torn commit once an expiry is undone (`SlotSafety.TornBundleIsLent`).
- When a slot grows old and whether its cookies are found expired are inputs of the pool's steps; `BundleAge` has the ages themselves and that a limit reached stays reached. No hard age limit is claimed for slots awaiting validation: that path does not check one.
- A whole preparation or return is one step of the pool; `PoolTheorems.PreparedSlotIsPrivate` is why, and another process writing the bundle in between is part of the step.
- Prewarming at startup, `close_all`, the closing of retired sessions, the global rate limit and telemetry of session cycles; exceptions that are not ordinary ones raised inside a file write.
- Budget reservation, `track` and the trial variants of usage recording: the same retry loop around other calls.
- AlertRuns.FiringsAreSpaced: assumes a clock that does not go back; `AlertRuns.ClockSetBackResends` shows why, and `AlertRuns.FiringIsRepeatedIff` is exact for any clock.
- Rules other than the restart rules, and the remaining alert messages: thresholds without state.
- CandidateBatch.CandidatePayloads: a merged candidate is not compared with the size limit of a single candidate again, in the source as in the model; validating and hashing a candidate are given.
- KeyHistory.HistoricalSpellingIsKept: which historical spellings a case number has is given with the case, as it is to the function that assigns keys.
- ProxyUsage.LostReplyIsReconciled: like the other lemmas on what a plan of replies leads to, for a key that is free at first and nobody else's; with other writers `ProxyUsage.PersistUsageEvent` says what each reply leads to. The pauses between attempts are not modelled.
- HTML parsing, routes, configuration, log redaction, and the rest of `engine.py` and `import_jobs.py`.
