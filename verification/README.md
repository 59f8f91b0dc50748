# benix-claim-agent: verified model of the ownership protocol

A factory-fresh box shows a 26-character code. Whoever reads it off the screen
claims the box over the local network: client and box prove to each other that
they know the 128-bit secret behind the code, the box discards its TPM lockout
authority, writes a claimed marker, deletes the secret and records its owner in
a binding. Later the owner may join the box to a hub. This project models that
protocol and the data structures it stands on, and proves that every
interleaving of requests, joins, reboots, failures and machine crashes keeps
its promises.

## How it is put together

| file | models |
|---|---|
| `AtomicWrite.dfy` | `write_private_atomic` over a file system with unsynced data and directory entries; the class `FileStore` runs the helper call by call |
| `DurableFile.dfy` | what `AtomicWrite` shows of one file: what a read returns, and the set of values a crash may leave |
| `SharedDirectory.dfy`, `OverlappingCalls.dfy`, `StateFiles.dfy` | all files in one directory with one sync, seen from each file as `AtomicWrite`; calls for different files that interleave; the five state files, tied to the disk of the step system |
| `ClaimSystem.dfy` | the protocol as a step system: one step is one lock operation, TPM call, file replacement, challenge-store access or computation on a request's own data |
| `ClaimInvariants.dfy` | the inductive invariant of that system |
| `ClaimTheorems.dfy` | ownership, custody, agreement and retry, over all runs from a fresh box |
| `Interleavings.dfy` | that every finish is answered, and what a correct and what a late one are answered, whatever interleaves with them |
| `Answers.dfy` | for every answer a finish can get, exactly the step of an interleaving that gives it |
| `OwnerRecord.dfy` | what marker, binding and secret file say over all runs, and exactly when |
| `PendingHistory.dfy` | the challenge store's theorems, for the pending challenges of every reachable state |
| `Writers.dfy` | what two writers of one file can do, and who they can be |
| `SoloRuns.dfy` | what one challenge, one finish, one hub join and one boot do from start to end, as functions proved to be runs of the step system |
| `SecretStability.dfy` | the displayed secret across boots and crashes, and exactly when a crash can change it |
| `ClaimFinality.dfy` | exactly when a claim is final, and what a claim leaves behind |
| `StateDir.dfy`, `ClaimHandlers.dfy` | the mutable objects: state directory, `AppState`, request handlers, hub-join task, boot sequence, verified against `SoloRuns` |
| `Handshake.dfy`, `LocalAccountBinding.dfy`, `Tpm.dfy` | the two HMACs and the request checks; the owner record; detection and the hex text sent to `tpm2_changeauth` |
| `ChallengeStore.dfy` | the bounded, expiring challenge map against an unbounded map and against a queue |
| `RateLimit.dfy` | the token bucket against a sliding-window limiter |
| `Crockford.dfy`, `Word32.dfy`, `Digits.dfy` | the Base32 loops over a 32-bit accumulator, as positional numerals |
| `CrockfordReference.dfy` | the code in terms of its own: which character stands for which value, and which bits of the secret it carries |

In the step system everything the environment decides (clock readings, which
system call fails and where, what survives a crash, scheduling, the network) is
a parameter of a step, so a theorem about all step sequences is about all
schedules and all failures. A write ends in one of three ways: `Synced` (`Ok`),
`Failed` (an error before the rename) or `Unsynced` (an error after it, when the
file is already visible). HMAC-SHA256 (section 2 of RFC 2104) is a symbolic
constructor: a network party can compute tags with any key but a box's secret,
and repeat everything that was ever sent. Ed25519 (section 5.1.7 of RFC 8032)
signatures are symbolic too.

## Where the code does less than its comments promise

Both cases come from an error that `write_private_atomic` reports after the
rename has taken effect, when only the directory sync failed.

* The comment at `src/state.rs:47-51` promises that the code on the screen
  survives a restart. When the first boot's secret write fails after the rename,
  the process exits; the restarted process reads the file, which nobody has
  synced, and displays it; a machine crash can then lose the file, and the next
  boot displays another code (`SecretCanChange`). `StableIffNoWriteInDoubt` gives
  the exact condition: a secret just displayed is shown for ever after if and
  only if no secret write has ended `Unsynced` since the last successful write in
  the directory or the last machine crash. `Unsynced` also stands for a process
  killed between the rename and the sync, which leaves the same disk; to the
  process itself it is the same error as a write that failed before the rename.
* A 500 from the marker write does not mean the box is unclaimed: the claim may
  be visible, and a machine crash may still undo it and let somebody else claim
  the box (`TentativeClaimCanBeLost`). The owner register therefore has a state
  `Tentative` between `Unclaimed` and `Claimed`. `FinalIffNotInDoubt` gives the
  exact condition for a visible claim to be final, in the same terms, and
  `OneCommitUnlessHalfWritten` shows that without such an error only one finish
  of a run ever creates the marker.

Three more things a reader might expect do not hold, and the model keeps the
code as it is.

* The marker does not keep the owner's key. A hub join overwrites it
  (`src/state.rs:153-158`): `HubReplacesOwnerKey` is such a run, and
  `MarkerHoldsOwnerIff` says that the marker holds the owner's key exactly until
  an approved join's write of it reaches the rename. Who owns the box is
  therefore stated of the binding (`OwnerStability`).
* A claimed box may have no binding and may keep its secret file, because both
  writes are best effort (`src/local_claim.rs:505-521`): `ClaimWithoutBinding`
  is such a run. `BindingExistsIffWritten` and `SecretExistsIffKept` say over all
  runs exactly when each is there, and `BindingIsFinalIffDurable` exactly when a
  binding can no longer be lost.
* Because the clock is read before the lock (`src/local_claim.rs:337-340`,
  `386-390`), a lookup may miss a challenge that is alive at its own reading but
  that a later insertion has swept (`EarlierReadingMissesSweptChallenge`);
  `PeekIsReferenceExceptRemoved` says exactly what every lookup answers, and
  `LookupInRun` that this is so of the running box.

## Model

| member | source | states |
|---|---|---|
| AtomicWrite.StepKeepsInv | src/state.rs:58-91 | Every file-system call, failure and crash keeps the invariant: the temporary name never shares an inode with the target or with any inode a crash could make the target, and those inodes hold synced data |
| AtomicWrite.CrashLeavesExactlyCandidates | src/state.rs:72-90 | A value can be recovered by some crash if and only if it is in the candidate set: sound and complete, over all subsets of surviving directory changes and all garbage in unsynced files |
| AtomicWrite.StepRefines | src/state.rs:58-91 | Each concrete step changes the visible contents and the crash candidates exactly as the abstract file of `DurableFile` says; only the rename makes new contents visible |
| AtomicWrite.NeverTorn | src/state.rs:43-46 | Over any run of writes, failures and crashes, whatever is readable or recoverable is the entire contents of one call, or was there before |
| AtomicWrite.DuringCall | src/state.rs:72-90 | During one call the candidates grow by at most the new contents, and a call whose last step is the directory sync leaves the new contents as the only candidate |
| AtomicWrite.OldOrNew | src/state.rs:43-51 | After a crash at any point of a call the target is exactly the new contents or exactly what a crash before the call could have left: the old contents, when those were settled; and the new ones once the call returned `Ok` |
| AtomicWrite.SettledStaysUntilRename | src/state.rs:72-90 | Settled contents outlive any number of crashes and of calls that fail before their rename |
| AtomicWrite.FileStore.constructor | src/state.rs:58 | A store starts on any file system that satisfies the invariant, with nothing recorded |
| AtomicWrite.FileStore.OpenTmp | src/state.rs:74-80 | Opening and truncating the temporary file changes nothing visible and nothing recoverable |
| AtomicWrite.FileStore.WriteAndFlush | src/state.rs:81-82 | Writing any part or all of the contents and syncing them changes nothing visible, wherever it fails |
| AtomicWrite.FileStore.Stage | src/state.rs:59-83 | Every failure before the rename leaves the file as it was; success leaves the whole contents synced in the temporary file |
| AtomicWrite.FileStore.RenameTmpOverTarget | src/state.rs:85 | The rename makes the new contents visible at once; a crash may still give any earlier candidate |
| AtomicWrite.FileStore.SyncDirectory | src/state.rs:87-88 | The directory sync leaves what is visible as the only thing a crash can leave |
| AtomicWrite.FileStore.Publish | src/state.rs:85-88 | From the synced temporary file: `Ok` means durable, an error means unchanged or visible and not yet durable |
| AtomicWrite.FileStore.WritePrivateAtomic | src/state.rs:58-91 | `Ok` means new contents, durable; an error means unchanged, or new contents not yet durable; there is no fourth outcome, and the steps taken are those of one call |
| SharedDirectory.CallOfPart | src/state.rs:58-91 | In a directory shared by all files, a call of one file is a step of that file's own `AtomicWrite` system and, if it is the directory sync, a sync for every other; nothing else changes |
| SharedDirectory.CrashOfPart | src/state.rs:43-51 | A crash of the shared directory is a crash of every file's own system |
| SharedDirectory.StepKeepsInv | src/state.rs:58-91 | Every call and crash keeps every file's invariant |
| SharedDirectory.CallRefines | src/state.rs:87-88 | A call changes what is visible and what a crash may leave of its own file as proved there, settles all files if it syncs, and leaves them alone otherwise |
| SharedDirectory.CrashLeavesAnyCombination | src/state.rs:43-51 | The files' fates are independent: a crash can leave a combination of contents if and only if each is a candidate of its file |
| SharedDirectory.CallIsReplacement | src/state.rs:58-91 | A whole call met by no other, wherever it fails, is one replacement with one of the three outcomes for the whole directory, and `Synced` exactly when it returned `Ok` |
| OverlappingCalls.CallsAreReplacements | src/state.rs:58-91 | However calls of different files interleave and fail, once none is in progress all files are as whole replacements leave them in some order, each of contents some call wrote to that file, the successful ones being the calls that returned `Ok`, in that order |
| StateFiles.CallIsWrite | src/state.rs:160-178 | A real call for any state file, met by no other, does to all files what the step system's one-step write does, for any encoding of the contents |
| StateFiles.OverlappingCallsAreWrites | src/state.rs:160-178 | Real calls for different state files that interleave do what the step system's one-step writes do in some order |
| StateFiles.UnlinkIsRemoval | src/state.rs:189-195 | So does the removal of the secret file |
| StateFiles.CrashCanHappen | src/state.rs:43-51 | Every crash the step system takes is a crash of the real directory |
| StateFiles.CrashIsKnown | src/state.rs:43-51 | And every crash of the real directory is one the step system takes |
| Handshake.TranscriptLayout | src/local_claim.rs:281-290 | The transcript is 80 bytes: the nonce, then the owner key, then the box key |
| Handshake.TranscriptInjective | src/local_claim.rs:284-290 | So the fixed layout determines nonce, owner key and box key |
| Handshake.TagMessages | src/local_claim.rs:121-126 | Both tags are keyed with the secret, over the byte string of their own role's label followed by nonce, owner key and box key, every field at its offset |
| Handshake.TagsInjective | src/local_claim.rs:292-297 | A client or box tag determines the whole handshake, and the labels make the two directions disjoint |
| Handshake.VerdictIs | src/local_claim.rs:393-430 | Exactly which requests on a live challenge get 400, which get 401 and which pass, from the fields that decode and the tag and signature owed |
| LocalAccountBinding.NewActiveLocal | src/local_account_binding.rs:197-219 | Field by field what a local claim records: the owner key twice, an active interactive account, schema 0, the custody, no hub and nothing revoked |
| LocalAccountBinding.BindingRecord.RecordHubJoin | src/local_account_binding.rs:229-231 | A hub join stores its device id and changes no other field |
| ClaimInvariants.PassedProofIsGenuine | src/local_claim.rs:387-430 | A proof that passes the checks was made by a holder of the secret for this very nonce, owner key and box key, even when the network replays box proofs |
| ClaimInvariants.AcceptedIsReturned | src/local_claim.rs:525-526 | A box proof that verifies under a secret the network lacks was returned by a finish |
| ClaimInvariants.StepKeepsInv | src/local_claim.rs:353-541 | Every step of every request, join, boot, exit and crash keeps the invariant of disk, memory, lock, network and history |
| ClaimInvariants.RunKeepsInv | src/local_claim.rs:353-541 | Hence so does every run |
| ClaimTheorems.StepAndTheMarker | src/state.rs:147-179 | Only a finish on an unclaimed box creates the marker, with the committed owner's key and time in it; only an approved join rewrites it, on a claimed box; nothing but a crash can lose it |
| ClaimTheorems.WinnerIsLastForever | src/local_claim.rs:437-503 | Once no crash can lose the marker, no run adds a commit or makes the marker losable again |
| ClaimTheorems.RefinesRegister | src/local_claim.rs:353-541 | Every step of every interleaving moves a write-once owner register: unclaimed to the asking finish's key, tentative to claimed or, by a machine crash only, back; claimed never changes |
| OwnerRecord.RunKeepsMarkerNamesOwner | src/state.rs:170-179 | Over all runs every local marker, on disk or recoverable by a crash, holds the key and time of the last commit, and every hub marker the device and account of an approved join |
| OwnerRecord.HubOnDiskIffWritten | src/state.rs:147-161 | Over all runs the marker names a hub if and only if an approved join's write of it reached the rename, a crash giving back what it recovered |
| OwnerRecord.MarkerHoldsOwnerIff | src/state.rs:122-139 | On every reachable claimed box the marker is the owner's, with the register's key in it, if and only if no such join write has happened |
| OwnerRecord.HubReplacesOwnerKey | src/state.rs:153-158 | A run to a settled claim whose marker no longer holds the owner's key |
| ClaimTheorems.ClaimedForever | src/state.rs:118-120 | No run leaves `Claimed` or changes its owner |
| ClaimTheorems.OneSuccess | src/local_claim.rs:432-446 | Over all runs at most one finish is ever answered 200, and its key is the owner in the register |
| Interleavings.LateFinishGets409 | src/local_claim.rs:366-446 | Over all continuations of a claim that holds (settled, or no machine crash): a finish that reaches the unlocked or the locked look at the marker is answered 409 if at all, and has no effect |
| Interleavings.AnsweredAfterThirteen | src/local_claim.rs:353-541 | In every interleaving without a crash a finish that has taken thirteen steps of its own has been answered |
| Interleavings.NeverStuck | src/local_claim.rs:437-523 | While finishes are in flight one of them can move: whoever holds the commit lock never waits for it |
| Answers.GivesRateLimited | src/local_claim.rs:358-360 | In every reachable state: a step newly answers a finish 429 if and only if it is that finish's arrival, over budget |
| Answers.GivesAlreadyClaimed | src/local_claim.rs:366-446 | 409 if and only if it is that finish's unlocked or locked look at the marker, and a marker is there |
| Answers.GivesChallengeNotFound | src/local_claim.rs:385-391 | 410 if and only if it is the lookup of a well-formed request whose challenge is missing or expired |
| Answers.GivesMalformed | src/local_claim.rs:374-419 | 400 if and only if the body is malformed, key or proof does not decode, or after a matching proof the signature does not decode or the key is off the curve |
| Answers.GivesInvalidProof | src/local_claim.rs:401-430 | 401 if and only if key and proof decode and the proof is not the keyed tag over label, nonce, owner key and box key, or it is and the decoded signature is not the owner key's over challenge and proof |
| Answers.GivesInternal | src/local_claim.rs:458-503 | 500 if and only if the TPM is there but unreachable, its discard fails, or the marker write does not end in `Ok` |
| Answers.GivesClaimed | src/local_claim.rs:523-541 | 200 if and only if the finish has dropped the lock after its commit |
| Answers.AnswerHasItsStep | src/local_claim.rs:353-541 | Every answer of a run was given by exactly such a step, from a reachable state, and is final |
| Answers.NonceIsOfItsChallenge | src/local_claim.rs:385-395 | Over all runs the nonce a finish is judged by is that of its own challenge, found alive at its own lookup |
| Interleavings.CorrectFinishWins | src/local_claim.rs:353-541 | Over all interleavings without a crash: a correct finish whose challenge is alive at its lookup and whose own TPM and marker steps succeed is answered within thirteen own steps, with 200 and owns the box, or with 409 because another finish committed first |
| Interleavings.RetryWins | src/local_claim.rs:218-228 | The same for a retry on the same challenge after any interleaving of refused finishes, which have left files and challenges as they were |
| ClaimTheorems.StepRefusesOthers | src/local_claim.rs:366-446 | On a claimed box every new answer to anyone but the winner is a refusal, the step that gives it changes no file, challenge, TPM or commit, and old answers stay |
| ClaimTheorems.OthersRefusedForever | src/local_claim.rs:366-446 | The same over whole runs once the claim is settled |
| ClaimTheorems.OwnerStability | src/local_account_binding.rs:197-231 | In every reachable state a binding has the owner, principal, custody and creation time of the one winning finish, and any hub device id is that of an approved join |
| ClaimTheorems.BindingNeverRewritten | src/handlers.rs:210-233 | Between any two states of a run only the hub device id of the binding can differ |
| ClaimTheorems.OnlyWinnerWrites | src/local_claim.rs:500-523 | On a claimed box a finish changes files only between its own marker write and its own binding write |
| ClaimTheorems.StepLeavesBindingLost | src/handlers.rs:234-240 | While the box stays claimed, no step creates a binding that the winner failed to write |
| ClaimTheorems.MissingBindingStaysMissing | src/handlers.rs:223-240 | Once the claim is settled and the winner is gone, no sequence of joins, finishes, crashes or reboots creates a binding |
| ClaimTheorems.ClaimHasItsFinish | src/state.rs:141-147 | Whatever the run, a claimed box was claimed by a step of a local finish, and its marker has been there since |
| ClaimTheorems.HubNeverEstablishesOwnership | src/handlers.rs:97-104 | A join in flight implies a claimed box, stored credentials a settled claim and an approval with just these, and every claimed box has such a finish |
| ClaimTheorems.TpmFailsClosed | src/local_claim.rs:458-495 | Every commit of every run had a TPM reading of absent, or present with a successful discard by the same finish; the recorded custody says which; discard is never called on a claimed box |
| ClaimTheorems.MutualAgreement | src/local_claim.rs:387-526 | A committed claim was proved by a secret holder for exactly its nonce, owner and box key, and its owner's key signed that challenge id and proof; a client that accepts a box proof under a box's secret is right that the box has durably claimed exactly that |
| ClaimTheorems.EffectsAreRecorded | src/local_claim.rs:353-541 | A finish not on record for an effect has changed no file, challenge, TPM or commit |
| ClaimTheorems.FailedAttemptsBurnNothing | src/local_claim.rs:218-228 | However many finishes interleave, if all end in 400, 401, 409, 410 or 429 then files, challenges and TPM are untouched and no lock is held |
| SoloRuns.DriveVerified | src/local_claim.rs:437-541 | A verified finish that takes the free lock, on whatever disk it finds, ends exactly as the critical section's function says |
| SoloRuns.FinishAloneIsRun | src/local_claim.rs:353-541 | A finish met by no other request is a run of the step system with exactly the answer, files, challenges, commit, discard and box proof of `FinishAttempt` |
| SoloRuns.ChallengeAloneIsRun | src/local_claim.rs:301-349 | A challenge request met by no other is a run that changes nothing, or leaves its nonce pending until 120 seconds after its clock reading |
| SoloRuns.JoinAloneIsRun | src/handlers.rs:182-263 | A hub join met by no other is a run that leaves exactly what `JoinAttempt` says and records exactly what the hub approved |
| SoloRuns.BootIsRun | src/main.rs:159-242 | A boot is a run that serves, displays or exits exactly as `BootAttempt` says |
| SoloRuns.CorrectAttempt | src/local_claim.rs:366-430 | A correct request on an unclaimed box passes every check before the critical section |
| SoloRuns.CorrectFinishSucceeds | src/local_claim.rs:353-541 | From every reachable state a correct finish on a live challenge has a run that answers it 200 and makes its sender the settled owner |
| SoloRuns.RetrySucceeds | src/local_claim.rs:218-228 | So has a correct finish on the same challenge after any interleaving of refused ones: none of them can have blocked it |
| SecretStability.SecretFileAlways16 | src/secret.rs:75-89 | No run and no crash ever leaves a secret file of another length, so the wrong-length branch is never taken |
| SecretStability.SettledSecretIsStable | src/main.rs:190-229 | A secret displayed from a settled file is the one every later boot displays |
| SecretStability.SecretStable | src/state.rs:47-51 | Unless a secret write failed after its rename, all boots that display a secret display the same one |
| SecretStability.StableIffSettled | src/secret.rs:75-89 | A displayed secret is displayed for ever after, in all continuations, if and only if its file was settled when displayed |
| SecretStability.LosableIffInDoubt | src/state.rs:85-88 | Over all runs to an unsettled claim or none: a crash can change the secret file if and only if a secret write is in doubt, in terms of how the run's writes ended |
| SecretStability.StableIffNoWriteInDoubt | src/state.rs:47-51 | So a secret just displayed is displayed for ever after if and only if no secret write is in doubt |
| SecretStability.SecretCanChange | src/state.rs:85-88 | A run in which the displayed secret changes |
| SecretStability.BootShows | src/main.rs:182-229 | When the record of a display says settled, for each branch of the load |
| ClaimFinality.TentativeClaimCanBeLost | src/local_claim.rs:500-504 | A run in which a claim answered 500 holds, is undone by a crash, and another owner claims the box |
| ClaimFinality.ClaimIsFinalIffSettled | src/state.rs:118-120 | In every reachable claimed state the box stays claimed in all continuations if and only if no crash can take its marker |
| ClaimFinality.FinalIffNotInDoubt | src/local_claim.rs:500-504 | That is, if and only if the write that made the marker did not end `Unsynced`, or a write in the directory has succeeded or the machine has crashed since |
| ClaimFinality.OneCommitUnlessHalfWritten | src/local_claim.rs:432-446 | At most one finish of a run ever replaces an absent marker, and its claim is final at once, unless a marker write failed after its rename |
| ClaimFinality.LeftBehind | src/local_claim.rs:505-521 | For one finish alone: which of binding and secret file its 200 leaves, by how their writes ended |
| OwnerRecord.BindingExistsIffWritten | src/local_claim.rs:512-521 | Over all runs a binding exists if and only if a winner's write of it reached the rename, whatever joins, finishes and reboots follow, a crash giving back what it recovered |
| OwnerRecord.BindingNamesLastJoin | src/handlers.rs:223-231 | Over all runs the binding names device `d` if and only if the last join write of it that reached the rename was for `d` and no winner has written the binding since, a crash giving back what it recovered |
| OwnerRecord.BindingIsFinalIffDurable | src/state.rs:239-245 | A binding is there in every continuation of a reachable state if and only if no crash can take it now |
| OwnerRecord.DurableBindingStays | src/state.rs:239-245 | No run takes the durability of a binding away |
| OwnerRecord.SecretExistsIffKept | src/state.rs:181-195 | Over all runs a secret file exists if and only if one was written and no winner has removed it, a crash giving back what it recovered |
| ClaimFinality.ClaimWithoutBinding | src/local_claim.rs:505-521 | A run to a settled claim with no binding, nobody left to write one, and the secret still on disk |
| ClaimFinality.MissingUntilCrash | src/handlers.rs:223-240 | A binding the winner failed to write stays missing also on a claim that is not settled, through any joins, finishes and reboots, until a machine crash |
| Tpm.HexAuthLayout | src/tpm.rs:318-325 | The text, character by character: `hex:`, then the high and the low lower-case digit of each byte |
| Tpm.HexAuthExact | src/tpm.rs:313-325 | The text reads back to the auth value it was made from and to no other, and is the only text that does |
| Tpm.HexAuthHasNoNul | src/tpm.rs:298-308 | The text holds hex digits only and no zero character |
| Tpm.SystemTpm.Detect | src/tpm.rs:220-247 | Absent exactly when the node is not found and no hardware signal exists; present exactly when it opens |
| Tpm.SystemTpm.WriteHexAuth | src/tpm.rs:318-325 | The loop produces that text within a buffer of `4 + 2n` characters that is never grown |
| Tpm.SystemTpm.DiscardLockoutAuth | src/tpm.rs:249-289 | `Ok` exactly when a child got the whole text and exited with success; a failed write may have passed a beginning of the text, and nothing else crosses |
| StateDir.StateDirectory.MarkClaimed | src/state.rs:147-161 | Replaces the marker, local owner included; the new state of all files is that of a real call with the given outcome (`StateFiles.CallIsWrite`) |
| StateDir.StateDirectory.MarkClaimedLocal | src/state.rs:170-179 | Replaces the marker by the local owner's, with the effect on all files of a real call with the given outcome |
| StateDir.StateDirectory.DeleteClaimSecret | src/state.rs:189-195 | Removes the secret without syncing; a missing file is no error |
| StateDir.StateDirectory.PersistPairCredentials | src/state.rs:215-225 | Replaces the credentials, with the effect on all files of a real call with the given outcome |
| StateDir.StateDirectory.PersistLocalAccountBinding | src/state.rs:239-245 | Replaces the binding, with the effect on all files of a real call with the given outcome |
| StateDir.StateDirectory.LoadLocalAccountBinding | src/state.rs:259-265 | A missing file is `Ok(None)`; only a present one can fail to load |
| StateDir.StateDirectory.LoadOrCreateSecret | src/secret.rs:75-89 | A stored 16-byte secret is returned and nothing is written; otherwise a fresh one, returned only if its write succeeded |
| ClaimHandlers.AppState.LocalClaimChallenge | src/local_claim.rs:301-349 | Refusals in the source's order leave the challenges alone; otherwise the challenge is pending until 120 seconds after the reading, and no other entry is added or changed |
| ClaimHandlers.AppState.VerifyFinish | src/local_claim.rs:366-430 | The checks before the lock change nothing; 400, 401, 409 and 410 each if and only if the marker, the pending challenge, the decoded fields, the keyed tag over label, nonce, owner key and box key, and the signature say so; otherwise the handshake is proved |
| ClaimHandlers.AppState.DecideCustody | src/local_claim.rs:458-495 | Lockout discarded if and only if the node opens and the child exits with success, no TPM if and only if the node is not found and no signal exists, else the claim is aborted; the TPM is touched only when present |
| ClaimHandlers.AppState.CommitLocked | src/local_claim.rs:437-541 | The critical section on whatever disk it finds: when it answers 200, 409 or 500, and in each case the marker, the secret, the owner record field by field, the challenges and the TPM text; the box proof of a 200 is keyed with the secret over label, nonce, owner key and box key; a synced binding write has settled the secret's removal |
| ClaimHandlers.AppState.LocalClaimFinish | src/local_claim.rs:353-541 | A whole finish: 429, 409, 410, 400, 401, 500 and 200 each if and only if budget, marker, challenge, fields, proof, signature, TPM and marker write say so; a 200 leaves the sender's key in the marker and returns the box proof; in every case the outcome is that of the run `FinishAttempt` describes |
| ClaimHandlers.AppState.OnboardClaim | src/handlers.rs:66-177 | A join task is started exactly on a 202, which needs budget and a claimed box; each refusal has exactly its own condition |
| ClaimHandlers.AppState.RunWaitForResult | src/handlers.rs:182-263 | What every file holds after an approved join for each way its writes can end: the hub's marker, the credentials, and the device id in the binding exactly when the first two writes returned `Ok`, a binding was loaded and its own write reached the rename; a binding exists after if and only if before |
| ClaimHandlers.Start | src/main.rs:159-242 | Boot: it serves if and only if the key is stored and a 16-byte secret was found or written; which secret that is and what its file then holds; the screen shows the grouped code of that secret if and only if it serves unclaimed, and the code decodes to it |
| ChallengeStore.PendingChallengeStore.constructor | src/local_claim.rs:186-190 | Starts with no pending challenge |
| ChallengeStore.PendingChallengeStore.Insert | src/local_claim.rs:197-216 | Sweeps what has expired, evicts one soonest-to-expire entry exactly when still full, and adds the new one |
| ChallengeStore.PendingChallengeStore.Peek | src/local_claim.rs:222-228 | Finds a challenge without consuming it, exactly while it is alive |
| ChallengeStore.PendingChallengeStore.Invalidate | src/local_claim.rs:233-238 | Removes that challenge and no other |
| ChallengeStore.StoreBounded | src/local_claim.rs:119 | At most 256 challenges, after any history with any clock readings |
| ChallengeStore.StoreWithinReference | src/local_claim.rs:197-238 | The store is a part of the unbounded, never swept map; what is missing was evicted or swept |
| ChallengeStore.PeekIsReferenceExceptRemoved | src/local_claim.rs:222-228 | For any readings of the clock, before or after any sweep, a lookup answers exactly what the reference answers, except none for ids that were evicted or swept |
| ChallengeStore.SweptHadExpired | src/local_claim.rs:199 | What a sweep removed had expired at the latest sweep |
| ChallengeStore.AgreesIffNothingAliveWasRemoved | src/local_claim.rs:197-228 | All lookups with a reading agree with the reference if and only if nothing evicted or swept is still alive at that reading |
| ChallengeStore.PeekSound | src/local_claim.rs:222-228 | At any time at all, a lookup never returns what the reference would not |
| ChallengeStore.AgreesIffNothingAliveWasEvicted | src/local_claim.rs:197-228 | For a reading not before the latest sweep, if and only if no evicted challenge is still alive |
| ChallengeStore.EarlierReadingMissesSweptChallenge | src/local_claim.rs:337-340 | With the 120-second lifetime and readings taken before the lock, a lookup can miss a challenge that is alive at its reading |
| ChallengeStore.VictimIsOldestEntry | src/local_claim.rs:200-208 | With fresh ids and increasing times the entry evicted is the 256th latest, and only while it is alive |
| ChallengeStore.StoreIsQueue | src/local_claim.rs:197-216 | With fresh ids and increasing times the map is exactly the latest 256 insertions not expired at the newest |
| ChallengeStore.SurvivesNext255 | src/local_claim.rs:115-119 | A challenge answers lookups within its lifetime through the next 255 insertions |
| ChallengeStore.GoneAfter256 | src/local_claim.rs:200-208 | And is gone after 256 |
| PendingHistory.PendingIsHistory | src/local_claim.rs:176-180 | In every reachable state the pending challenges are what a legal history of insertions and invalidations since the boot leaves |
| PendingHistory.PendingBounded | src/local_claim.rs:115-119 | So there are never more than 256 of them, whatever interleaves |
| PendingHistory.LookupInRun | src/local_claim.rs:385-390 | And a lookup of the running box answers what the unbounded map answers, except for evicted and swept ids |
| PendingHistory.LookupSucceeds | src/local_claim.rs:385-390 | A challenge of the running box is found within its 120 seconds through the next 255, with fresh ids, increasing times and no invalidation |
| Writers.TwoWritersTear | src/state.rs:74-85 | Two overlapping calls for one file can return `Ok` with a target that holds neither contents: they share the temporary name |
| Writers.OnlyJoinsOverlap | src/handlers.rs:182-233 | In every reachable state two tasks about to write the same file are both hub joins |
| RateLimit.RateLimiter.constructor | src/ratelimit.rs:36-43 | Capacity is the given number, at least one, and sixty seconds of refill are one capacity |
| RateLimit.RateLimiter.Allow | src/ratelimit.rs:47-66 | Grants exactly when every window of this IP's own earlier calls has room for one more grant within capacity and capacity per 60 000 000 000 ns of forward movement, whatever the clock did; other buckets are untouched; tokens stay within 0 and capacity |
| RateLimit.TokensAreLeastSlack | src/ratelimit.rs:55-63 | The tokens a call finds are the least slack over all window starts of the sliding-window reference |
| RateLimit.GrantedIffEveryWindowHasRoom | src/ratelimit.rs:55-65 | A call is granted if and only if for every earlier call as window start the grants in the window, this one included, stay within capacity + capacity * nanoseconds of forward clock movement / 60 000 000 000 |
| RateLimit.WindowBudget | src/ratelimit.rs:25-27 | No window of calls is granted more than that budget, also when the clock steps back |
| RateLimit.PlainDuration | src/ratelimit.rs:55 | With a clock that never steps back, that movement is the last reading less the window's first |
| RateLimit.PlainBudget | src/ratelimit.rs:25-27 | Then a window is granted at most capacity + capacity * (last - first) / 60 000 000 000 |
| RateLimit.FullAfterAMinute | src/ratelimit.rs:50-57 | The other direction: a first call, and one a minute or more after the one before, finds exactly capacity tokens |
| RateLimit.GrantedAfterOneShare | src/ratelimit.rs:55-62 | And a call 60 / capacity seconds or more after the one before finds a token |
| RateLimit.BucketWithinCapacity | src/ratelimit.rs:56-61 | A bucket always holds between 0 and capacity |
| RateLimit.NonInterference | src/ratelimit.rs:47-66 | From any two bucket maps that agree on one IP, removing all other IPs' calls changes no answer the map gives to that IP, nor its bucket |
| CrockfordReference.EncodedBits | src/secret.rs:159-181 | The code bit by bit: the i-th of its 26 characters stands for bits 5i to 5i + 4 of the secret, highest bit of the first byte first, zeros after the last |
| CrockfordReference.AlphabetMembers | src/secret.rs:60-64 | A character can be printed if and only if it is a digit or a capital letter other than I, L, O and U |
| Crockford.AlphabetAscends | src/secret.rs:60-64 | And the printable characters stand for their values in ascending order |
| Crockford.EncodeCrockford | src/secret.rs:163-181 | The loop, with its accumulator losing high bits, yields those 26 symbols: the base-32 numeral of the secret's 128 bits and two zeros |
| Crockford.EncodeDisplay | src/secret.rs:97-108 | Those symbols in five dash-separated groups |
| CrockfordReference.DisplayLayout | src/secret.rs:91-108 | 30 characters: groups of five, five, five, five and six symbols in order, a dash after each but the last |
| Crockford.PushSymbol | src/secret.rs:141-149 | One turn of the loop keeps the symbols read equal to the bytes written followed by the low bits of the wrapping accumulator |
| Crockford.Decode | src/secret.rs:129-157 | The loop yields the upper 128 of the input's 130 bits exactly for 26 symbols with a value; the final length check never fails |
| Crockford.ReadDigit | src/secret.rs:143 | Shifting a digit in keeps the digits read equal to the digits written and the low bits of the wrapping accumulator |
| Crockford.WriteDigit | src/secret.rs:145-148 | Masking a digit out keeps the same equation |
| Crockford.LastSymbol | src/secret.rs:176-179 | The last symbol carries three bits and two zeros |
| CrockfordReference.SymbolValueIs | src/secret.rs:187-197 | For every character there is, its value from its code point alone: a digit its own, O zero, I and L one, another letter of either case ten plus the number of admitted letters before it, all else none |
| CrockfordReference.SeparatorIs | src/secret.rs:130-133 | The decoder skips the dash and the 25 characters that are Unicode white space, and nothing else |
| CrockfordReference.CleanedIs | src/secret.rs:130-133 | Every other character is kept, in order |
| Crockford.RoundTrip | src/secret.rs:91-157 | For all 2^128 secrets, decoding what is displayed, grouped or not, gives the secret |
| Crockford.TypedFormDecodes | src/secret.rs:110-119 | Case, separators, blanks and the look-alikes O, I and L do not change what is decoded |
| Crockford.DisplayInjective | src/secret.rs:97-108 | Different secrets are displayed differently |
| Crockford.DecodedExactly | src/secret.rs:129-157 | An input decodes if and only if 26 valued characters remain, and to a secret if and only if its upper 128 bits are that secret's |
| Crockford.DecodeKernel | src/secret.rs:129-157 | Two accepted inputs give the same secret if and only if they agree on the first 25 values and the top three bits of the 26th |

## Left out

- AtomicWrite.FileStore.WritePrivateAtomic: one writer per file. All writers of a file share one temporary name (`src/state.rs:74`), and two of them can tear it (`TwoWritersTear`). Only two hub joins can be those two (`OnlyJoinsOverlap`); the step system takes their replacements as atomic.
- StateFiles.OverlappingCallsAreWrites: of the files once no call is in progress. In the step system a replacement is one step, so a process never looks at a file between another call's rename and its sync.
- AtomicWrite.StepKeepsInv: the state directory itself exists durably; its creation and its parent's missing sync (`src/state.rs:65`) are not modelled.
- AtomicWrite.NeverTorn: a crash is a crash of the whole machine, and reads of an existing file succeed.
- RateLimit.RateLimiter.Allow: tokens are reals, so rounding of `f64` is not modelled.
- RateLimit.WindowBudget: the bound is stated with forward clock movement; `PlainBudget` states it in elapsed time for a clock that never steps back.
- Handshake.TagsInjective: HMAC and Ed25519 are symbolic; nothing is said of the hash itself, constant-time comparison or zeroization.
- ClaimSystem: the device key and host name of a boot are chosen freely at each boot; the key file's own contents are not tracked, only the directory sync its write causes.
- ClaimSystem: loading the secret and displaying it are one step, and the delay before the display is left out.
- ClaimHandlers.AppState.LocalClaimFinish: one call at a time; interleaved calls are the step system's subject.
- ClaimHandlers.AppState.OnboardClaim: the hub's acknowledgement is a yes or no, and the wait's result is approved credentials or nothing; `src/pairing.rs`, the timeout and the hub connection are not part of this model.
- Interleavings.CorrectFinishWins: the request is admitted by the rate limiter, which `RateLimit` treats on its own.
- HTTP, JSON, base64, content types and body limits: a request is a decoded record with a flag for anything malformed ahead of the checks; the Ed25519 point check is a flag as well.
- Wall-clock fields: carried as data; the source decides nothing by them.
- Credentials: only the device and account ids of the persisted pair credentials; the tokens and the sealing key seed are carried along by the source unread.
- The TPM child process: how it ends is a parameter; argument list, environment and the TPM's own state are not modelled.
- `src/qr.rs`, `src/qr_payload.rs`, `src/render.rs`, `src/config.rs`, `src/net.rs`, `src/error.rs`: screens, configuration, address classes and the status table would only add easy members.
- File modes, logging and mutex poisoning.
