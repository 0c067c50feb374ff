# Vote2Trust commit-reveal voting, modelled in Dafny

Vote2Trust is a commit-reveal voting system. This model has three parts.

- The Algorand application `Vote2Trust`:
  - An admin moves a poll through five phases: 0 setup, 1 registration, 2 commit, 3 reveal, 4 completed.
  - Accounts register once and commit a byte string.
  - In the reveal phase an account shows the choice and salt behind its commitment. The reveal is counted only when `itob(choice) ++ salt` equals what was committed.
- The in-memory ledger the frontend uses in place of the deployed application (`RealVote2TrustClient`).
- The pure logic of the React components:
  - how the dashboard decodes ledger replies and builds commitments;
  - the results panel;
  - the admin form;
  - the two self-contained dashboards (the production commit-reveal dashboard and the public referendum), which keep their state in component state and `localStorage`.

Every operation is a pure function over immutable datatypes. The contract's methods take the current state, the sender and the latest block timestamp. Each returns either the next state or the failed `assert` as an `Error`; a failed call changes nothing.

Modules, one per source file plus shared primitives:

| module | models |
|---|---|
| `Contract`, `ContractProps` | `contract.py`: the ABI methods, and lemmas over one call, several calls and every reachable state |
| `MockClient` | `VT.ts`: the client ledger and `arraysEqual` |
| `RealDashboard`, `PollView` | `RealVotingDashboard.tsx`: decoding, commit bytes, handlers, phase buttons |
| `ResultsDisplay` | `ResultsDisplay.tsx`: total, percentage, winner |
| `AdminPanel` | `AdminPanel.tsx`: poll creation and option editing |
| `DashboardCommon`, `ProductionDashboard` | `ProductionVotingDashboard.tsx` |
| `PublicReferendum` | `PublicReferendumDashboard.tsx` |
| `Wrappers`, `Bytes`, `Hex`, `Utf8`, `JsText` | `Option`/`Result`, bytes and `itob`, hex text, UTF-8, JavaScript `trim`/`indexOf`/decimal text |

Parameters stand in for the environment:
- The clock is a `now` argument (seconds for the contract, milliseconds for the frontend).
- Random bytes are a `random` argument of 32 bytes.
- Random transaction ids are a `txHash` argument.
- `JSON.parse` of the option text is an `Option` argument that is `None` when parsing throws.
- `localStorage` is a `map<string, string>`.

The contract source comments that phase 0 is registration, but its code uses 0 for setup and 1 for registration. The model follows the code.

## Model

| member | source | states |
|---|---|---|
| Contract.Create | projects/Vote2Trust-contracts/smart_contracts/v_t/contract.py:34-44 | The creator becomes admin. The phase is 0, both totals and every counter are 0, and no account has local state. |
| Contract.CreatePoll | projects/Vote2Trust-contracts/smart_contracts/v_t/contract.py:46-73 | Succeeds exactly for the admin in phase 0; a non-admin sender fails with the admin error. It sets the texts, commit deadline = now + commit duration and reveal deadline = commit deadline + reveal duration, so commit <= reveal. It zeroes total_votes and the counters, and keeps total_voters, every account and the phase. |
| Contract.StartRegistration | projects/Vote2Trust-contracts/smart_contracts/v_t/contract.py:75-81 | Succeeds exactly for the admin in phase 0, and then changes only the phase, to 1. |
| Contract.RegisterVoter | projects/Vote2Trust-contracts/smart_contracts/v_t/contract.py:83-90 | Succeeds exactly in phase 1 for an account not yet registered. Another phase fails with the phase error. A success sets that account's flag, adds exactly one to total_voters and leaves every other account and global unchanged. |
| Contract.StartCommitPhase | projects/Vote2Trust-contracts/smart_contracts/v_t/contract.py:92-98 | Succeeds exactly for the admin in phase 1, and then changes only the phase, to 2. |
| Contract.CommitVote | projects/Vote2Trust-contracts/smart_contracts/v_t/contract.py:100-109 | Succeeds exactly in phase 2 for a registered, not yet committed account with now <= commit deadline; an unregistered account fails with the registration error. A success stores the hash, sets the committed flag and touches nothing else. |
| Contract.StartRevealPhase | projects/Vote2Trust-contracts/smart_contracts/v_t/contract.py:111-117 | Succeeds exactly for the admin in phase 2, and then changes only the phase, to 3. |
| Contract.ContractCommitment | projects/Vote2Trust-contracts/smart_contracts/v_t/contract.py:131 | The expected bytes are 8 bytes whose big-endian value is the choice, followed by the salt unchanged. |
| Contract.RevealVote | projects/Vote2Trust-contracts/smart_contracts/v_t/contract.py:119-150 | Succeeds if and only if: the phase is 3, the account has committed and not revealed, now <= reveal deadline, choice < 5, and itob(choice) ++ salt equals the stored hash. If only the hash differs, the error is the hash mismatch. A success adds one to total_votes and to the chosen counter, leaves the other four counters unchanged, marks the account revealed with that choice, and changes nothing else. |
| Contract.CompleteVoting | projects/Vote2Trust-contracts/smart_contracts/v_t/contract.py:152-159 | Succeeds exactly for the admin in phase 3 once now > reveal deadline, and then changes only the phase, to 4. |
| Contract.EmergencyStop | projects/Vote2Trust-contracts/smart_contracts/v_t/contract.py:194-198 | Succeeds exactly for the admin from any phase, and resets only the phase to 0. |
| Contract.GetPollInfo | projects/Vote2Trust-contracts/smart_contracts/v_t/contract.py:161-172 | Reports all seven fields in the source's order: title, description, options text, phase, total_voters, total_votes and the commit deadline. The reveal deadline is not reported. |
| Contract.GetVoteCounts | projects/Vote2Trust-contracts/smart_contracts/v_t/contract.py:174-183 | Reports five entries; entry i is counter i. |
| Contract.GetVoterStatus | projects/Vote2Trust-contracts/smart_contracts/v_t/contract.py:185-192 | Reports three 0/1 entries. Each is 1 exactly when the sender's matching flag is set. An account with no local state reads [0, 0, 0]. |
| Contract.Counts.Increment | projects/Vote2Trust-contracts/smart_contracts/v_t/contract.py:140-149 | One more vote for option i raises counter i by one, leaves the other four, and raises their sum by one. |
| Contract.Step | projects/Vote2Trust-contracts/smart_contracts/v_t/contract.py:46-198 | The router dispatches each call to its ABI method. No successful call changes the admin. Only the admin, through one of the four advance calls or emergency_stop, changes the phase. Only reveal_vote and create_poll change total_votes, and only register_voter changes total_voters. |
| Contract.Apply | projects/Vote2Trust-contracts/smart_contracts/v_t/contract.py:46-198 | Applying a sequence of transactions, a rejected one leaving the state as it was, never changes the admin; when no transaction comes from the admin, the phase ends where it started. |
| ContractProps.CreateEstablishesInvariant | projects/Vote2Trust-contracts/smart_contracts/v_t/contract.py:34-44 | The state after creation satisfies the invariant: phase <= 4, total_votes = the sum of the counters, revealed => committed => registered per account, total_voters = number of registered accounts, total_votes <= number of revealed accounts, commit deadline <= reveal deadline. |
| ContractProps.CreatePollPreservesInvariant | projects/Vote2Trust-contracts/smart_contracts/v_t/contract.py:67-73 | create_poll keeps the invariant, because it zeroes total_votes together with all five counters. |
| ContractProps.PhaseChangePreservesInvariant | projects/Vote2Trust-contracts/smart_contracts/v_t/contract.py:75-117 | Any call that only changes the phase, to a phase in 0..4, keeps the invariant. |
| ContractProps.RegisterPreservesInvariant | projects/Vote2Trust-contracts/smart_contracts/v_t/contract.py:83-90 | register_voter keeps the invariant: the registered set and total_voters each grow by exactly one. |
| ContractProps.CommitPreservesInvariant | projects/Vote2Trust-contracts/smart_contracts/v_t/contract.py:100-109 | commit_vote keeps the invariant: it sets only a flag that neither counted set depends on, and only on a registered account. |
| ContractProps.RevealPreservesInvariant | projects/Vote2Trust-contracts/smart_contracts/v_t/contract.py:134-150 | reveal_vote keeps the invariant: the revealed set, total_votes and one counter each grow by one. |
| ContractProps.StepPreservesInvariant | projects/Vote2Trust-contracts/smart_contracts/v_t/contract.py:46-198 | Every successful ABI call keeps the invariant. |
| ContractProps.VotesAtMostVoters | projects/Vote2Trust-contracts/smart_contracts/v_t/contract.py:119-138 | In any state with the invariant, total_votes <= total_voters. |
| ContractProps.GettersAgreeWithInvariant | projects/Vote2Trust-contracts/smart_contracts/v_t/contract.py:161-192 | In any state with the invariant, the five counters get_vote_counts reports add up to the total_votes get_poll_info reports, which is at most its total_voters; the reported phase is at most 4; and get_voter_status is one of [0,0,0], [1,0,0], [1,1,0], [1,1,1]. |
| ContractProps.PhaseMovesInOrder | projects/Vote2Trust-contracts/smart_contracts/v_t/contract.py:75-159 | A successful call raises the phase by at most one, and only through an admin advance call. Only emergency_stop lowers it, always to 0. Only complete_voting, from 3 and after the reveal deadline, reaches 4. |
| ContractProps.CommitmentIsFinal | projects/Vote2Trust-contracts/smart_contracts/v_t/contract.py:100-109 | No successful call clears a set flag. A stored commitment and a recorded choice are never changed afterwards. |
| ContractProps.StopKeepsVotersLockedOut | projects/Vote2Trust-contracts/smart_contracts/v_t/contract.py:194-198 | After emergency_stop and a new registration phase, total_voters is unchanged and an already registered account is refused with the already-registered error. An account that revealed can never reveal again. |
| ContractProps.ApplyPreservesInvariant | projects/Vote2Trust-contracts/smart_contracts/v_t/contract.py:6-198 | Any sequence of transactions, rejected ones included, leads from a state with the invariant to a state with the invariant. |
| ContractProps.ReachableVotesConsistent | projects/Vote2Trust-contracts/smart_contracts/v_t/contract.py:34-150 | In every state reachable from creation: total_votes equals the sum of the five counters, total_votes <= total_voters, and the phase is in 0..4. |
| ContractProps.CommitRevealRoundTrip | projects/Vote2Trust-contracts/smart_contracts/v_t/contract.py:75-150 | From phase 0 with a fresh account, all six calls of a round succeed: open registration, register, open commit, commit itob(choice) ++ salt, open reveal, reveal. The round ends in phase 3 with the account revealed for that choice, and it adds exactly one vote to that choice and to no other. |
| Bytes.Itob | projects/Vote2Trust-contracts/smart_contracts/v_t/contract.py:131 | UInt64 .bytes is 8 bytes whose big-endian value is the number. |
| Bytes.ItobInjective | projects/Vote2Trust-contracts/smart_contracts/v_t/contract.py:131-132 | Distinct numbers give distinct 8-byte encodings. |
| Bytes.ToUint8 | projects/Vote2Trust-frontend/src/contracts/VT.ts:146 | Storing a number in a Uint8Array keeps it modulo 256: in range it is unchanged. |
| Bytes.ArraysEqual | projects/Vote2Trust-frontend/src/contracts/VT.ts:167-173 | The loop returns true exactly when the lengths match and every element is equal. |
| MockClient.Initial | projects/Vote2Trust-frontend/src/contracts/VT.ts:74-86 | The client starts in phase 1 with every counter and flag 0 and nothing committed. Its commit deadline is floor(now/1000) + 3600 seconds. |
| MockClient.CreatePoll | projects/Vote2Trust-frontend/src/contracts/VT.ts:89-101 | Only title, description and options change; the phase, counters, flags and stored commitment stay. |
| MockClient.SetPhase | projects/Vote2Trust-frontend/src/contracts/VT.ts:103-164 | Writing a phase number sets it whatever the current phase is, and changes nothing else. |
| MockClient.StartRegistration | projects/Vote2Trust-frontend/src/contracts/VT.ts:103-108 | Sets phase 1 from any phase; every other field is kept. |
| MockClient.StartCommitPhase | projects/Vote2Trust-frontend/src/contracts/VT.ts:118-123 | Sets phase 2 from any phase; every other field is kept. |
| MockClient.StartRevealPhase | projects/Vote2Trust-frontend/src/contracts/VT.ts:134-139 | Sets phase 3 from any phase; every other field is kept. |
| MockClient.CompleteVoting | projects/Vote2Trust-frontend/src/contracts/VT.ts:159-164 | Sets phase 4 from any phase; every other field is kept. |
| MockClient.RegisterVoter | projects/Vote2Trust-frontend/src/contracts/VT.ts:110-116 | Sets the registered flag and adds one to totalVoters on every call, with no check. |
| MockClient.CommitVote | projects/Vote2Trust-frontend/src/contracts/VT.ts:125-132 | Sets the committed flag and stores the hash, replacing any earlier one. |
| MockClient.MockCommitment | projects/Vote2Trust-frontend/src/contracts/VT.ts:146 | The rebuilt bytes are one choice byte followed by the salt. A number in 0..255 is kept as is, any other number is kept modulo 256, and `undefined` is stored as 0. |
| MockClient.RevealVote | projects/Vote2Trust-frontend/src/contracts/VT.ts:141-157 | Succeeds if and only if a commitment is stored and equals [choice byte] ++ salt. A success sets the revealed flag and adds one to totalVotes. For a number in 0..4 it adds one to that counter; every counter not named by the choice, all five for `undefined`, is unchanged. |
| MockClient.CheckReveal | projects/Vote2Trust-frontend/src/contracts/VT.ts:147-149 | The element-by-element check accepts exactly the reveals RevealVote accepts. |
| MockClient.NonRevealCallsKeepTally | projects/Vote2Trust-frontend/src/contracts/VT.ts:84-138 | The initial state, and every call other than reveal, keep totalVotes equal to the sum of the five counters. |
| MockClient.RevealInRangeKeepsTally | projects/Vote2Trust-frontend/src/contracts/VT.ts:149-153 | A successful reveal with a choice in 0..4 keeps totalVotes equal to the sum of the counters. |
| MockClient.RevealWithoutCounterBreaksTally | projects/Vote2Trust-frontend/src/contracts/VT.ts:149-153 | A successful reveal whose choice names no counter (a number outside 0..4, or `undefined`) leaves every counter as it was while totalVotes gains one, so a consistent tally always becomes inconsistent. |
| MockClient.RevealOutOfRangeBreaksTally | projects/Vote2Trust-frontend/src/contracts/VT.ts:152 | Committing [5] and revealing choice 5 with an empty salt succeeds. totalVotes becomes 1 while the five counters still sum to 0. |
| MockClient.RevealVoteChecked | projects/Vote2Trust-frontend/src/contracts/VT.ts:141-157 | With the contract's range check added, a reveal succeeds exactly when the unchecked reveal succeeds and the choice is in 0..4, with the same result. |
| MockClient.CheckedRevealKeepsTally | projects/Vote2Trust-frontend/src/contracts/VT.ts:141-157 | Every successful checked reveal keeps totalVotes equal to the sum of the counters. |
| MockClient.CommitThenRevealSucceeds | projects/Vote2Trust-frontend/src/contracts/VT.ts:125-157 | Committing [choice] ++ salt makes the matching reveal succeed, even when an earlier commitment was stored. |
| MockClient.MockSkipsContractGuards | projects/Vote2Trust-frontend/src/contracts/VT.ts:103-165 | Registering twice counts two voters, a second commit replaces the first, the phase can move backwards, and an accepted reveal is accepted again and counted again, because the stored commitment is kept: none of these is possible on the contract. |
| RealDashboard.DecodePhase | projects/Vote2Trust-frontend/src/components/RealVotingDashboard.tsx:106-108 | Numbers 0..4 decode to the phase at that position of registration, commit, reveal, tally, completed; any other number decodes to registration. |
| RealDashboard.DecodeIndex | projects/Vote2Trust-frontend/src/components/RealVotingDashboard.tsx:107-108 | Decoding a phase's own position gives that phase back. |
| RealDashboard.DecodeStatus | projects/Vote2Trust-frontend/src/components/RealVotingDashboard.tsx:110-123 | Each flag is set exactly when the matching status entry is 1. Without a status all three are false. |
| RealDashboard.ResultsFrom | projects/Vote2Trust-frontend/src/components/RealVotingDashboard.tsx:126-130 | The keys of the results object are exactly the options. |
| RealDashboard.DecodeResults | projects/Vote2Trust-frontend/src/components/RealVotingDashboard.tsx:125-131 | Without a counts payload the results are empty; with one, the keys are exactly the options. |
| RealDashboard.ResultsFromLastPosition | projects/Vote2Trust-frontend/src/components/RealVotingDashboard.tsx:128-130 | An option's result is the count at its last position, or 0 past the end of the counts. |
| RealDashboard.DistinctOptionsResults | projects/Vote2Trust-frontend/src/components/RealVotingDashboard.tsx:128-130 | With distinct options, option i is shown with counts[i], or 0 when the counts stop short. |
| RealDashboard.OrText | projects/Vote2Trust-frontend/src/components/RealVotingDashboard.tsx:91-92 | The fallback text replaces only an empty string. |
| RealDashboard.CommitEndMs | projects/Vote2Trust-frontend/src/components/RealVotingDashboard.tsx:140 | The shown commit end is the contract's commit deadline in seconds, converted to whole milliseconds. |
| RealDashboard.RevealEndMs | projects/Vote2Trust-frontend/src/components/RealVotingDashboard.tsx:141 | The shown reveal end is one hour after the shown commit end. |
| RealDashboard.ShownRevealEndMatchesContract | projects/Vote2Trust-frontend/src/components/RealVotingDashboard.tsx:140-141 | The poll query does not return the reveal deadline, so for a poll the contract created, the shown reveal end equals the contract's reveal deadline exactly when the reveal duration was 3600 s. It is earlier exactly when the duration was longer. |
| RealDashboard.LoadPollInfo | projects/Vote2Trust-frontend/src/components/RealVotingDashboard.tsx:85-145 | The shown poll has the fallback texts, the parsed options or the default three, the decoded phase, both end times, totalVotes, and results keyed by the options. Without a wallet all three flags are false; with one, each flag is set exactly when its status entry is 1. |
| RealDashboard.CommitHash | projects/Vote2Trust-frontend/src/components/RealVotingDashboard.tsx:186-187 | The committed bytes are the choice's byte followed by the salt's UTF-8, the layout the client checks. |
| RealDashboard.HandleVoterRegistered | projects/Vote2Trust-frontend/src/components/RealVotingDashboard.tsx:153-174 | Without a client or a wallet nothing changes; otherwise the client registers and the poll shows registered. |
| RealDashboard.RegisteredSurvivesReload | projects/Vote2Trust-frontend/src/components/RealVotingDashboard.tsx:112-174 | After a registration, a reload reads the registered flag back from the client, as the handler set it locally; the voter count is one higher, and the other flags, the results and the vote total read back unchanged. |
| RealDashboard.HandleVoteCommitted | projects/Vote2Trust-frontend/src/components/RealVotingDashboard.tsx:176-200 | Without a client or a wallet nothing changes; otherwise the client stores the commit hash and the poll shows committed. |
| RealDashboard.HandleVoteRevealed | projects/Vote2Trust-frontend/src/components/RealVotingDashboard.tsx:202-231 | Without a client or a wallet nothing changes. A rejected reveal changes nothing. An accepted one keeps the client's new state and reloads the poll from it, which then shows revealed. |
| RealDashboard.CommitRevealRoundTrip | projects/Vote2Trust-frontend/src/components/RealVotingDashboard.tsx:176-231 | The dashboard's commit followed by its reveal of the same choice and salt always passes the client's check, counting exactly one more vote. |
| RealDashboard.NoArgumentVoteCountsNothing | projects/Vote2Trust-frontend/src/components/RealVotingDashboard.tsx:176-231 | Called with no arguments, as the phase components call them, the handlers commit the single byte 0 and the reveal is accepted. totalVotes gains one while every counter and every shown result stays as it was, so a consistent tally becomes inconsistent. |
| RealDashboard.ChosenVoteCounted | projects/Vote2Trust-frontend/src/components/RealVotingDashboard.tsx:176-231 | Given an option in 0..4 and a salt, the commit and reveal raise exactly that option's counter and totalVotes by one, and a consistent tally stays consistent. |
| RealDashboard.UpdatePollPhase | projects/Vote2Trust-frontend/src/components/RealVotingDashboard.tsx:233-266 | Without a client or admin rights nothing changes. Otherwise the target phase is shown and the matching setter runs; tally calls nothing, and the counters and flags stay. |
| RealDashboard.DecodePhaseOffByOne | projects/Vote2Trust-frontend/src/components/RealVotingDashboard.tsx:106-108 | Reading back what a phase button wrote shows the next phase: registration shows commit, commit shows reveal, reveal shows tally. The client's initial phase shows commit, and so does every contract state that accepts register_voter. |
| RealDashboard.DecodeContractPhase | projects/Vote2Trust-contracts/smart_contracts/v_t/contract.py:79-159 | Decoding with the contract's numbering: 2, 3 and 4 are commit, reveal and completed; everything else, 0 and 1 included, is registration; tally never appears. |
| RealDashboard.ContractPhaseAgreesWithGuards | projects/Vote2Trust-contracts/smart_contracts/v_t/contract.py:83-132 | Under the corrected decoder, a state that accepts register, commit or reveal shows that phase. Reading back what a phase button wrote shows that button's phase. |
| RealDashboard.DashboardCommitRejectedByContract | projects/Vote2Trust-contracts/smart_contracts/v_t/contract.py:131-132 | Whatever the choice and salt, the contract refuses the dashboard's reveal of its own commitment with a hash mismatch. |
| RealDashboard.ContractCommitHash | projects/Vote2Trust-contracts/smart_contracts/v_t/contract.py:131 | The corrected commitment is 8 bytes whose big-endian value is the choice, followed by bytes that decode back to the salt. |
| RealDashboard.ContractCommitAcceptedByContract | projects/Vote2Trust-contracts/smart_contracts/v_t/contract.py:119-132 | With the corrected commitment, the contract accepts the dashboard's reveal whenever the other guards hold. |
| ResultsDisplay.TotalVotesAppend | projects/Vote2Trust-frontend/src/components/ResultsDisplay.tsx:29 | The summed total splits over concatenated entry lists. |
| ResultsDisplay.CountAtMostTotal | projects/Vote2Trust-frontend/src/components/ResultsDisplay.tsx:29 | No single count exceeds the total. |
| ResultsDisplay.TotalVotes | projects/Vote2Trust-frontend/src/components/ResultsDisplay.tsx:29 | The summed total is 0 exactly when every count is 0. |
| ResultsDisplay.GetPercentage | projects/Vote2Trust-frontend/src/components/ResultsDisplay.tsx:36-39 | The result is 0 for a zero total. Otherwise it is 100 * votes / total rounded to nearest, halves up: 2tr <= 200v + t < 2t(r + 1). |
| ResultsDisplay.PercentageInRange | projects/Vote2Trust-frontend/src/components/ResultsDisplay.tsx:36-39 | For votes <= total the percentage is at most 100, and all of the total is exactly 100. |
| ResultsDisplay.PercentageMonotone | projects/Vote2Trust-frontend/src/components/ResultsDisplay.tsx:36-39 | More votes never show a smaller percentage. |
| ResultsDisplay.WinnerIndex | projects/Vote2Trust-frontend/src/components/ResultsDisplay.tsx:43 | The reduction ends on a maximal entry, with every later entry strictly smaller. |
| ResultsDisplay.WinnerIsLastMaximum | projects/Vote2Trust-frontend/src/components/ResultsDisplay.tsx:43 | Any maximal position with only smaller counts after it is the one the reduction picks: ties go to the last. |
| ResultsDisplay.GetWinningOption | projects/Vote2Trust-frontend/src/components/ResultsDisplay.tsx:41-44 | There is no winner exactly when there are no results. Otherwise the winner is the key of a maximal entry with only smaller counts after it. |
| ResultsDisplay.DisplayedVotes | projects/Vote2Trust-frontend/src/components/ResultsDisplay.tsx:112-113 | An option absent from the results is shown with 0 votes. |
| ResultsDisplay.DisplayedVotesOfPresent | projects/Vote2Trust-frontend/src/components/ResultsDisplay.tsx:112-113 | For distinct keys, an option that is present is shown with its own count. |
| ResultsDisplay.SampleResults | projects/Vote2Trust-frontend/src/components/ResultsDisplay.tsx:22-29 | On the sample results the total is 85, "Yes" wins, and 45 of 85 shows as 53 percent. |
| AdminPanel.KeptIffTrimmedNonEmpty | projects/Vote2Trust-frontend/src/components/AdminPanel.tsx:42 | An option passes the filter exactly when its trim is non-empty, that is when it is not all whitespace. |
| AdminPanel.ValidOptions | projects/Vote2Trust-frontend/src/components/AdminPanel.tsx:42 | The filter keeps at most as many options as it is given, and every kept option is a listed one that is not blank; ValidOptionsMembers, ValidOptionsAppend, ValidOptionsKeepsNonBlank and ValidOptionsDropsBlank state which ones, in which order. |
| AdminPanel.ValidOptionsMembers | projects/Vote2Trust-frontend/src/components/AdminPanel.tsx:42 | A text is among the valid options exactly when it is listed and not blank. |
| AdminPanel.ValidOptionsAppend | projects/Vote2Trust-frontend/src/components/AdminPanel.tsx:42 | Filtering commutes with concatenation, so the kept options stay in their original order. |
| AdminPanel.ValidOptionsKeepsNonBlank | projects/Vote2Trust-frontend/src/components/AdminPanel.tsx:42 | Options that are all non-blank are kept as they are, untrimmed. |
| AdminPanel.ValidOptionsDropsBlank | projects/Vote2Trust-frontend/src/components/AdminPanel.tsx:42 | Options that are all blank are all dropped. |
| AdminPanel.CreateNewPoll | projects/Vote2Trust-frontend/src/components/AdminPanel.tsx:36-69 | No poll is created exactly when the title or the description is blank or fewer than two options are valid. A created poll has the form's texts and the valid options. It starts in registration with 0 votes, no results and all flags false. It ends its phases one and two days after now, and its id is "poll-" followed by now in decimal. |
| AdminPanel.Submit | projects/Vote2Trust-frontend/src/components/AdminPanel.tsx:36-83 | A refused form leaves the form and the poll as they were. A success replaces the poll and resets the form to a blank title, a blank description and three empty options. |
| AdminPanel.EmptyFormRejected | projects/Vote2Trust-frontend/src/components/AdminPanel.tsx:14-16 | The form as first shown cannot create a poll. |
| AdminPanel.DuplicateOptionsAccepted | projects/Vote2Trust-frontend/src/components/AdminPanel.tsx:42-46 | Two copies of the same non-blank option are accepted. |
| AdminPanel.BlankOptionsDoNotCount | projects/Vote2Trust-frontend/src/components/AdminPanel.tsx:42-46 | One option among blanks leaves at most that one valid option, so creation is refused. |
| AdminPanel.AddOption | projects/Vote2Trust-frontend/src/components/AdminPanel.tsx:85-87 | Appends exactly one empty option and keeps the rest. |
| AdminPanel.DropAtRemovesOne | projects/Vote2Trust-frontend/src/components/AdminPanel.tsx:91 | The index filter removes exactly the element at that index, and nothing for an index outside the list. |
| AdminPanel.RemoveOption | projects/Vote2Trust-frontend/src/components/AdminPanel.tsx:89-93 | With more than two options, removes exactly the one at the index. Otherwise, or for an index outside the list, it is a no-op. At least two options remain whenever anything changed. |
| AdminPanel.UpdateOption | projects/Vote2Trust-frontend/src/components/AdminPanel.tsx:95-99 | Replaces only the option at the index and keeps the length. |
| AdminPanel.EditsUndo | projects/Vote2Trust-frontend/src/components/AdminPanel.tsx:85-99 | Writing the old text back undoes an edit, and removing a just-added option restores the list. |
| AdminPanel.UpdatePollPhase | projects/Vote2Trust-frontend/src/components/AdminPanel.tsx:18-34 | Sets any target phase and keeps the poll's identity, options, votes and results. |
| AdminPanel.PhaseChangesAreUnordered | projects/Vote2Trust-frontend/src/components/AdminPanel.tsx:18-34 | No order is enforced: any phase can follow any other, backwards included. |
| DashboardCommon.Label | projects/Vote2Trust-frontend/src/components/ProductionVotingDashboard.tsx:383-386 | Each select value is a non-empty label. |
| DashboardCommon.LabelInjective | projects/Vote2Trust-frontend/src/components/ProductionVotingDashboard.tsx:383-386 | Distinct ballots have distinct labels, of distinct lengths. |
| DashboardCommon.Tally.Bump | projects/Vote2Trust-frontend/src/components/ProductionVotingDashboard.tsx:120-123 | Counting a vote raises the chosen option by one, leaves the other two, and raises the total by one. The referendum counts a vote the same way, at PublicReferendumDashboard.tsx:117-120. |
| DashboardCommon.SecureSalt | projects/Vote2Trust-frontend/src/components/ProductionVotingDashboard.tsx:32-36 | The salt is 64 lower-case hex digits that decode back to the 32 random bytes. |
| DashboardCommon.TimelineDotActive | projects/Vote2Trust-frontend/src/components/ProductionVotingDashboard.tsx:165-170 | The current phase's own dot is lit, a name outside the order is always lit, and, when the current phase is outside the order, no name in it is lit. The referendum uses the same rule, at PublicReferendumDashboard.tsx:152-157. |
| DashboardCommon.TimelineDotActiveByPosition | projects/Vote2Trust-frontend/src/components/ProductionVotingDashboard.tsx:165-170 | For an order without repeats, the dot at position i is lit exactly when i <= the current position. A name outside the order (indexOf -1) is always lit. |
| ProductionDashboard.Initial | projects/Vote2Trust-frontend/src/components/ProductionVotingDashboard.tsx:5-15 | The dashboard starts in registration with no wallet, no choice, a zero tally and the browser's storage. |
| ProductionDashboard.SelectChoice | projects/Vote2Trust-frontend/src/components/ProductionVotingDashboard.tsx:372-386 | Selecting sets only the current choice. |
| ProductionDashboard.ConnectWallet | projects/Vote2Trust-frontend/src/components/ProductionVotingDashboard.tsx:39-54 | Connecting sets the wallet flag and leaves the tally and storage alone. |
| ProductionDashboard.HandleRegister | projects/Vote2Trust-frontend/src/components/ProductionVotingDashboard.tsx:56-68 | Without a wallet nothing changes. Otherwise the account is registered and the commit phase follows. The tally, storage and commit flag are untouched. |
| ProductionDashboard.HandleCommit | projects/Vote2Trust-frontend/src/components/ProductionVotingDashboard.tsx:70-96 | Without a wallet or a choice nothing changes. Otherwise the new salt and the choice label are stored, the vote is committed and the reveal phase follows. The tally is untouched. |
| ProductionDashboard.HandleReveal | projects/Vote2Trust-frontend/src/components/ProductionVotingDashboard.tsx:98-136 | A refused reveal changes nothing. An accepted one marks the vote revealed, adds one for the current choice, removes both stored entries and completes. |
| ProductionDashboard.DisconnectedHandlersAreNoOps | projects/Vote2Trust-frontend/src/components/ProductionVotingDashboard.tsx:56-102 | Without a wallet the register, commit and reveal handlers change nothing. |
| ProductionDashboard.RevealCountsOneVote | projects/Vote2Trust-frontend/src/components/ProductionVotingDashboard.tsx:119-123 | A successful reveal adds one to the current choice, nothing to the others, and one to the total. |
| ProductionDashboard.SecondRevealRefused | projects/Vote2Trust-frontend/src/components/ProductionVotingDashboard.tsx:104-127 | The stored entries are consumed, so an immediate second reveal is refused and changes nothing. |
| ProductionDashboard.RevealIgnoresSalt | projects/Vote2Trust-frontend/src/components/ProductionVotingDashboard.tsx:104-117 | Any two non-empty stored salts give the same acceptance and the same tally: the salt is never compared. |
| ProductionDashboard.ChangedChoiceRefused | projects/Vote2Trust-frontend/src/components/ProductionVotingDashboard.tsx:113-117 | After a commit, switching to a different choice makes the reveal refused. |
| ProductionDashboard.CommitThenRevealCounts | projects/Vote2Trust-frontend/src/components/ProductionVotingDashboard.tsx:70-136 | Commit followed by reveal of the same choice counts that choice once, completes, and leaves neither entry stored. |
| ProductionDashboard.AdminSetPhase | projects/Vote2Trust-frontend/src/components/ProductionVotingDashboard.tsx:607-649 | An admin button sets its phase directly and leaves the tally and storage alone. |
| ProductionDashboard.DotActiveIffNotLater | projects/Vote2Trust-frontend/src/components/ProductionVotingDashboard.tsx:165-170 | A phase's dot is lit exactly when that phase is not later than the current one in registration, commit, reveal, completed. |
| PublicReferendum.GenerateHash | projects/Vote2Trust-frontend/src/components/PublicReferendumDashboard.tsx:37-42 | The hash has exactly two lower-case hex digits per UTF-8 byte of choice ++ salt. |
| PublicReferendum.GenerateHashDecodes | projects/Vote2Trust-frontend/src/components/PublicReferendumDashboard.tsx:37-42 | Decoding the hex, then the UTF-8, gives back choice ++ salt: it is an encoding, not a digest. |
| PublicReferendum.GenerateHashInjective | projects/Vote2Trust-frontend/src/components/PublicReferendumDashboard.tsx:37-42 | Two hashes are equal exactly when their choice ++ salt texts are equal. |
| PublicReferendum.BallotHashInjective | projects/Vote2Trust-frontend/src/components/PublicReferendumDashboard.tsx:97-99 | For any salts, equal hashes mean the same ballot and the same salt, because the three labels start with distinct letters. |
| PublicReferendum.AddTransaction | projects/Vote2Trust-frontend/src/components/PublicReferendumDashboard.tsx:45-58 | The new transaction goes first and the old list follows unchanged, one longer. |
| PublicReferendum.AddTransactionsNewestFirst | projects/Vote2Trust-frontend/src/components/PublicReferendumDashboard.tsx:57 | Adding several transactions lists them newest first, ahead of the older ones. |
| PublicReferendum.HandleRegister | projects/Vote2Trust-frontend/src/components/PublicReferendumDashboard.tsx:68-85 | Without a wallet nothing changes. Otherwise the account is registered, a registration transaction is listed first and voting opens; the results are untouched. |
| PublicReferendum.HandleVote | projects/Vote2Trust-frontend/src/components/PublicReferendumDashboard.tsx:87-126 | Without a wallet or a choice nothing changes. Otherwise it stores the salt, the choice label and the hash, and lists a commit transaction carrying the salt. It counts the vote at once, with no reveal step, and completes. |
| PublicReferendum.VoteCountsOnce | projects/Vote2Trust-frontend/src/components/PublicReferendumDashboard.tsx:115-119 | A vote adds one to the chosen option and nothing to the others. Its hash decodes to the label followed by the salt. A repeated vote counts again. |
| PublicReferendum.DotActiveIffNotLater | projects/Vote2Trust-frontend/src/components/PublicReferendumDashboard.tsx:152-157 | A phase's dot is lit exactly when that phase is not later than the current one in registration, voting, completed. |
| PublicReferendum.AnnouncedWinner | projects/Vote2Trust-frontend/src/components/PublicReferendumDashboard.tsx:510 | The announced option has a count at least every other's, and it is the last such option in the order Yes, No, Abstain: "Yes" only when strictly ahead of both others, "No" only when strictly ahead of "Abstain". |
| PublicReferendum.TiesGoToLast | projects/Vote2Trust-frontend/src/components/PublicReferendumDashboard.tsx:510 | With all three level (no votes included), or with "Abstain" level at the top with either other option, "Abstain" is announced. With Yes and No level and ahead, "No" is. |
| PublicReferendum.AnnouncedWinnerIsLastMaximum | projects/Vote2Trust-frontend/src/components/PublicReferendumDashboard.tsx:510 | The announced option is decided by the counts alone, for each option in both directions: "Yes" exactly when it leads both others strictly, "No" exactly when it is at least "Yes" and strictly ahead of "Abstain", "Abstain" exactly when it is at least both others. |
| Hex.Encode | projects/Vote2Trust-frontend/src/components/ProductionVotingDashboard.tsx:35 | Two lower-case hex digits per byte. |
| Hex.DecodeEncode | projects/Vote2Trust-frontend/src/components/ProductionVotingDashboard.tsx:35 | Decoding the hex text gives back the bytes. |
| Hex.EncodeInjective | projects/Vote2Trust-frontend/src/components/PublicReferendumDashboard.tsx:41 | Distinct byte strings give distinct hex texts. |
| Utf8.Encode | projects/Vote2Trust-frontend/src/components/RealVotingDashboard.tsx:187 | TextEncoder produces the UTF-8 encoding of the text. |
| Utf8.DecodeEncode | projects/Vote2Trust-frontend/src/components/RealVotingDashboard.tsx:212 | Decoding the UTF-8 bytes gives back the text. |
| Utf8.EncodeInjective | projects/Vote2Trust-frontend/src/components/PublicReferendumDashboard.tsx:40 | Distinct texts have distinct UTF-8 encodings. |
| JsText.Trim | projects/Vote2Trust-frontend/src/components/AdminPanel.tsx:37 | The result is the infix s[i..j] left after removing a blank prefix s[..i] and a blank suffix s[j..]; when non-empty it neither starts nor ends with whitespace. |
| JsText.TrimEmptyIffBlank | projects/Vote2Trust-frontend/src/components/AdminPanel.tsx:37 | trim leaves nothing exactly when the text is all whitespace. |
| JsText.IndexOf | projects/Vote2Trust-frontend/src/components/ProductionVotingDashboard.tsx:167-168 | indexOf returns -1 exactly when the name is absent, and otherwise its first position. |
| JsText.NatToString | projects/Vote2Trust-frontend/src/components/AdminPanel.tsx:57 | The decimal text has at least one digit and no leading zero. |
| JsText.DecimalRoundTrip | projects/Vote2Trust-frontend/src/components/AdminPanel.tsx:57 | The decimal text reads back as the number, so distinct times give distinct poll ids. |

## Left out

- Clocks, randomness, network and wallet I/O, `alert`/snackbar messages, rendering and styling are not modelled; times, random bytes and ids are parameters.
- The `setTimeout` delays before a phase change are not modelled: each handler's phase change is applied at once, and the `await` delays of the client ledger are dropped.
- `JSON.parse` of the options text is not modelled: its outcome is a parameter.
- The contract's uint64 arithmetic is modelled with unbounded naturals, so an overflowing sum that would fail on chain is not modelled.
- The contract's account opt-in is not modelled: an account that never called it reads as all-zero local state.
- Admin identity is compared as `sender == admin`; the frontend's admin address list and admin flag are not modelled beyond the `isAdmin` guard of the dashboard.
- ResultsDisplay.GetPercentage: rounds the exact rational `100 * votes / total`, not the floating-point product `Math.round` sees, which may differ when a result lands within rounding error of a half.
- MockClient.RevealVote: a successful reveal whose choice names no counter keeps the five counters unchanged, whereas the client's `voteCounts[choice] += 1` writes `NaN` at a new index, or under the key "undefined" for `undefined`; the counted total is the same.
- MockClient.ChoiceArg: of the JavaScript values a caller could pass as the choice, only numbers and `undefined` are modelled; strings and other values are not.
- Utf8.Encode: text is a sequence of Unicode scalar values. A JavaScript string can also hold a lone surrogate, which `TextEncoder` encodes as U+FFFD; such strings are not modelled.
- AdminPanel.UpdateOption: requires an index inside the list; the component is only ever called with the index of a rendered input.
- RealDashboard.LoadPollInfo: uses the dashboard's decoder as written (the off-by-one finding below), and a fixed poll id; failures of the status fetch are modelled as no status only when no wallet is connected.
- The getters of the client ledger are read as fields of its state rather than as separate calls.
- The iteration order of objects with integer-like keys is not modelled; the results objects here have the keys "Yes", "No", "Abstain" or the option texts, in insertion order.
- The results panel's hard-coded sample results are modelled only by the lemma about them; its loading flag is not.
- The production dashboard's admin address list and the referendum's transaction ids, timestamps, fee and status text are not modelled.

## Findings

| source | as written | input that shows it | evidently intended | confidence | as-written member | corrected member |
|---|---|---|---|---|---|---|
| projects/Vote2Trust-frontend/src/components/RealVotingDashboard.tsx:187 | the commitment is one choice byte followed by the salt's UTF-8, while the contract recomputes 8-byte `itob(choice)` followed by the salt | any choice and salt: the lengths differ by 7, so `reveal_vote` fails with "Hash verification failed" | commit `itob(choice) ++ UTF8(salt)` so the contract's check can pass | high (not executed) | RealDashboard.DashboardCommitRejectedByContract | RealDashboard.ContractCommitAcceptedByContract |
| projects/Vote2Trust-frontend/src/components/RealVotingDashboard.tsx:107-108 | phase numbers decode as 0 registration, 1 commit, 2 reveal, 3 tally, 4 completed, but the contract and client write 1 for registration, 2 commit, 3 reveal, 4 completed | phase 1 (the client's initial phase, and the only phase in which `register_voter` succeeds) is shown as commit | 0 and 1 registration, 2 commit, 3 reveal, 4 completed | high (not executed) | RealDashboard.DecodePhaseOffByOne | RealDashboard.ContractPhaseAgreesWithGuards |
| projects/Vote2Trust-frontend/src/components/CommitPhase.tsx:70 | `onVoteCommitted()` and, in `RevealPhase.tsx`, `onVoteRevealed()` are called with no arguments, although the dashboard's handlers read a choice and a salt | any registered voter committing and revealing through the phase components: the commitment is `[0]`, the reveal is accepted, totalVotes rises by 1 and no option counter moves | pass the selected option's index and the salt to both callbacks | high (not executed) | RealDashboard.NoArgumentVoteCountsNothing | RealDashboard.ChosenVoteCounted |
| projects/Vote2Trust-frontend/src/contracts/VT.ts:141-153 | the client's reveal has no range check on the choice and compares only its low byte | commit `[5]`, reveal choice 5 with empty salt: accepted, totalVotes 1, counters sum to 0 | refuse a choice outside 0..4, as the contract does | medium (not executed) | MockClient.RevealOutOfRangeBreaksTally | MockClient.CheckedRevealKeepsTally |
