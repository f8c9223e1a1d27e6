# Verified models of the web3-tasks contracts

Dafny models of the stateful ledgers and the algorithms of this repository, and proofs of
what they promise over every run. Check everything with `dafny verify dfyconfig.toml`.

Each ledger comes in two layers. A specification module holds the storage as one value, a
`Step` function from a state and a call to the next state or the error, and `Run` over a
sequence of calls; the lemmas about runs are proved there. A class holds the source's own
storage items as fields and updates them in the source's order; the contract of each method
says that it is that step, with its error and no change otherwise, and the class invariant
`Valid` says that the storage is that of some run, so the lemmas about runs apply to it. What a
call needs in order to succeed, and which error it answers otherwise, is stated again on the
events or calls before it (the `Decided` lemmas), not on the storage the code checks.

| file | models |
|---|---|
| `AssetRegistry`, `AssetInvariants`, `AssetHistories`, `AssetTheorems`, `AssetCalls`, `AssetRegistryPallet` | the asset-registry pallet: one primary map, three derived indexes, a saturating id counter |
| `ProposalVoting`, `ProposalInvariants`, `ProposalTheorems`, `ProposalCalls`, `VotingPallet` | the voting pallet: proposals, votes, an incremental tally, the argmax that announces a winner |
| `Erc20`, `Erc20Contract` | the EIP-20 token: exact ledger, and the 256-bit wrapping code that refines it |
| `Begging`, `BeggingContract` | donations, withdrawal and the online top-three selection |
| `Roman` | the greedy numeral printer and the parser with checked subtraction |
| `GroupHeaders` | the order of cheatcodes and the headers inserted into the list being enumerated |
| `VoteReset` | votes over a candidate list that a reset clears but never shortens |
| `BinarySearch`, `MergeSortedArray` | the two array algorithms |
| `Prelude`, `Ledgers` | fixed-width arithmetic; zero-default mappings, their sums, distinct entries |

Boundary facts found and stated exactly:

- Asset and proposal ids are u32 and the counters saturate. The asset indexes are exact
  until U32_MAX is registered a second time and never afterwards. A closed proposal stays as
  it is exactly as long as its id is not created again, which only happens to U32_MAX. Runs
  reaching both are constructed. After a reuse the owner index lists U32_MAX in excess for
  exactly the accounts that somebody else's registration displaced and that did not hold it since.
- The cached count of an owner is, in every run, the true count plus the owner's transfers to
  itself plus the assets it lost to reuse of U32_MAX.
- An active proposal can be ended at some later block exactly if its end block is below the
  largest block number; a run reaching one that cannot is constructed.
- `romanToInt` reverts on every numeral that begins with a two-letter pair (4, 9, 40 to 49,
  90 to 99, 400 to 499, 900 to 999), because it subtracts before it adds.

Where the code and its documentation disagree the model follows the code: approve, reject
and suspend are documented as needing root or governance but accept any signed account, and
`docs/architecture.md` of the pallets lists `AssetsByOwner` as a map to vectors where the
code has a double map to units.

## Model

| member | source | states |
|---|---|---|
| `AssetTheorems.IndexesExact` | advanced2-contract-dev/task4/examples/substrate-dev/pallets/asset-registry/src/lib.rs:287-321 | after every run from genesis all three indexes agree with a scan of `Assets` if and only if U32_MAX was registered at most once, and so does the symbol index alone |
| `AssetTheorems.IdsExact` | advanced2-contract-dev/task4/examples/substrate-dev/pallets/asset-registry/src/lib.rs:299-321 | the ids are exactly 0 .. NextAssetId-1, and `total_assets` is the number of assets, if and only if no registration found the counter saturated |
| `AssetTheorems.CountsExact` | advanced2-contract-dev/task4/examples/substrate-dev/pallets/asset-registry/src/lib.rs:447-466 | in every run the cached count is the owned assets, plus the owner's transfers to itself, plus the assets it lost to reuse of U32_MAX; so it is between the true count and `MaxAssetsPerOwner`, and the true count if and only if there was neither; while U32_MAX is not reused nothing is lost |
| `AssetTheorems.OwnerIndexExact` | advanced2-contract-dev/task4/examples/substrate-dev/pallets/asset-registry/src/lib.rs:317-318 | after every run, even one that reuses U32_MAX, the owner index lists for an account what it owns, and U32_MAX too if and only if somebody else's registration displaced the account from it and it did not hold it since; so the index agrees with a scan if and only if nobody is displaced |
| `AssetTheorems.CountsNeverSaturate` | advanced2-contract-dev/task4/examples/substrate-dev/pallets/asset-registry/src/lib.rs:463-466 | in every run, whatever a successful call increments is below U32_MAX and whatever it decrements is positive, the self-transfer included, and each count changes by exact integer arithmetic: no saturating operation on a count saturates |
| `AssetTheorems.EventsTellOwners` | advanced2-contract-dev/task4/examples/substrate-dev/pallets/asset-registry/src/lib.rs:323-328 | after every run the registration and transfer events alone tell the owner of every id |
| `AssetTheorems.SymbolLookupIsScan` | advanced2-contract-dev/task4/examples/substrate-dev/pallets/asset-registry/src/lib.rs:491-494 | looking a symbol up answers the one asset with that symbol, and nothing if there is none |
| `AssetTheorems.ReuseIsReached` | advanced2-contract-dev/task4/examples/substrate-dev/pallets/asset-registry/src/lib.rs:321 | there is a run that registers U32_MAX twice, after which the symbol index and the owner index disagree with a scan |
| `AssetTheorems.SelfTransferCountsTwice` | advanced2-contract-dev/task4/examples/substrate-dev/pallets/asset-registry/src/lib.rs:448-466 | one registration and one transfer to oneself leave one owned asset with a count of two |
| `AssetHistories.RunHistory` | advanced2-contract-dev/task4/examples/substrate-dev/pallets/asset-registry/src/lib.rs:342-395 | after every run an asset's announced history ends in its stored status, reused or not, and is a prefix of Pending, Approved, Suspended or of Pending, Rejected if and only if its id was not reused; nothing is announced about an id without an asset |
| `AssetHistories.TermsNeverChange` | advanced2-contract-dev/task4/examples/substrate-dev/pallets/asset-registry/src/lib.rs:287-320 | in every continuation of every run an asset stays, and it keeps name, symbol, description, decimals, supply, flags and registration block if and only if its id is not registered again: its symbol is never freed, so a reuse always shows |
| `AssetHistories.ContentsValid` | advanced2-contract-dev/task4/examples/substrate-dev/pallets/asset-registry/src/lib.rs:264-284 | every stored asset at any time has non-empty bounded name and symbol, bounded description and metadata, at most 18 decimals and a positive supply |
| `AssetHistories.RegisteredInOrder` | advanced2-contract-dev/task4/examples/substrate-dev/pallets/asset-registry/src/lib.rs:299-310 | over every run whose blocks do not go back, registration blocks do not decrease with the id, even across reuse |
| `AssetCalls.LogIsLegal` | advanced2-contract-dev/task4/examples/substrate-dev/pallets/asset-registry/src/lib.rs:258-470 | over every run each event was deposited by a successful call whose caller it names, and the events before it allow it: ids are the number of earlier registrations (up to U32_MAX), symbols are new, the status announced last permits the change, and who updates metadata or transfers is the holder at that moment |
| `AssetCalls.TermsAreFiled` | advanced2-contract-dev/task4/examples/substrate-dev/pallets/asset-registry/src/lib.rs:299-317 | after every run each stored asset has the name, symbol, description, decimals, supply, three flags and block of the last successful call that registered its id |
| `AssetCalls.MetadataIsLatest` | advanced2-contract-dev/task4/examples/substrate-dev/pallets/asset-registry/src/lib.rs:416-424 | after every run the metadata of each asset is that given by the last successful call that registered or updated its id |
| `AssetCalls.RunCounters` | advanced2-contract-dev/task4/examples/substrate-dev/pallets/asset-registry/src/lib.rs:299-321 | after every run the next id is the number of registrations, up to U32_MAX, and the taken symbols are all those ever registered |
| `AssetCalls.RegisterDecided` | advanced2-contract-dev/task4/examples/substrate-dev/pallets/asset-registry/src/lib.rs:264-297 | in every reachable state a registration succeeds if and only if its ten requirements hold, the symbol being new in the log and the owner's assets, self-transfers and overwritten assets together below the limit; otherwise it answers the error of the first that fails |
| `AssetCalls.StatusDecided` | advanced2-contract-dev/task4/examples/substrate-dev/pallets/asset-registry/src/lib.rs:342-392 | in every reachable state approve and reject succeed if and only if the status announced last is Pending, suspend if and only if it is Approved; otherwise the error |
| `AssetCalls.MetadataDecided` | advanced2-contract-dev/task4/examples/substrate-dev/pallets/asset-registry/src/lib.rs:416-421 | in every reachable state a metadata update succeeds if and only if the events name the caller as holder and the length is within the limit; otherwise the error of the first check that fails |
| `AssetCalls.TransferDecided` | advanced2-contract-dev/task4/examples/substrate-dev/pallets/asset-registry/src/lib.rs:444-452 | in every reachable state a transfer succeeds if and only if the events name the caller as holder and the new owner is below the limit; otherwise the error of the first check that fails |
| `AssetInvariants.RegisterAdds` | advanced2-contract-dev/task4/examples/substrate-dev/pallets/asset-registry/src/lib.rs:286-321 | a successful registration stores an asset whose twelve fields are the caller, the block, Pending and the nine arguments each in its place, and what it does to indexes, counts and counter |
| `AssetInvariants.TransferMoves` | advanced2-contract-dev/task4/examples/substrate-dev/pallets/asset-registry/src/lib.rs:442-466 | what a successful transfer moves, the self-transfer included |
| `AssetInvariants.MovesExactly` | advanced2-contract-dev/task4/examples/substrate-dev/pallets/asset-registry/src/lib.rs:463-466 | the former owner's count is positive when it is decremented, so both updates are exact |
| `AssetInvariants.AddsSymbols` | advanced2-contract-dev/task4/examples/substrate-dev/pallets/asset-registry/src/lib.rs:286-320 | the second registration of U32_MAX leaves its first symbol mapped to an asset with another symbol, for good |
| `AssetInvariants.QuietStep` | advanced2-contract-dev/task4/examples/substrate-dev/pallets/asset-registry/src/lib.rs:342-424 | approve, reject, suspend and metadata updates keep every owner, term, index and count |
| `AssetInvariants.StepInv` | advanced2-contract-dev/task4/examples/substrate-dev/pallets/asset-registry/src/lib.rs:246-476 | every call keeps the index invariant |
| `AssetRegistryPallet.Pallet.constructor` | advanced2-contract-dev/task4/examples/substrate-dev/pallets/asset-registry/src/lib.rs:114-163 | empty storage is the genesis state of the runs |
| `AssetRegistryPallet.Pallet.RegisterAsset` | advanced2-contract-dev/task4/examples/substrate-dev/pallets/asset-registry/src/lib.rs:250-331 | the stepwise updates are the specified transition, with the first failing check's error and no change otherwise |
| `AssetRegistryPallet.Pallet.ApproveAsset` | advanced2-contract-dev/task4/examples/substrate-dev/pallets/asset-registry/src/lib.rs:336-354 | pending to approved, or the error and no change |
| `AssetRegistryPallet.Pallet.RejectAsset` | advanced2-contract-dev/task4/examples/substrate-dev/pallets/asset-registry/src/lib.rs:359-379 | pending to rejected, or the error and no change |
| `AssetRegistryPallet.Pallet.SuspendAsset` | advanced2-contract-dev/task4/examples/substrate-dev/pallets/asset-registry/src/lib.rs:384-404 | approved to suspended, or the error and no change |
| `AssetRegistryPallet.Pallet.UpdateAssetMetadata` | advanced2-contract-dev/task4/examples/substrate-dev/pallets/asset-registry/src/lib.rs:409-432 | only the owner, within the length; nothing else changes |
| `AssetRegistryPallet.Pallet.TransferOwnership` | advanced2-contract-dev/task4/examples/substrate-dev/pallets/asset-registry/src/lib.rs:437-475 | asset, both index entries and both counts in the code's order of reads and writes |
| `AssetRegistryPallet.Pallet.GetAssetsByOwner` | advanced2-contract-dev/task4/examples/substrate-dev/pallets/asset-registry/src/lib.rs:485-489 | each id the owner index lists, once, after any run: the owned ids, and U32_MAX if the account was displaced from it |
| `AssetRegistryPallet.Pallet.TotalAssets` | advanced2-contract-dev/task4/examples/substrate-dev/pallets/asset-registry/src/lib.rs:511-513 | the counter; the number of assets is the answer, or one more once U32_MAX is registered, and the ids in use are those below it and then U32_MAX |
| `ProposalTheorems.AnnouncedWinnerIsPlurality` | advanced2-contract-dev/task4/examples/substrate-dev/pallets/voting/src/lib.rs:292-325 | every announced winner of a proposal whose id was created once is the lowest option with the most votes announced for it in the whole run (counted up to U32_MAX), None if and only if nobody voted; the proposal is inactive and its end block was below the largest one |
| `ProposalCalls.AnnouncedWinnerAtItsCall` | advanced2-contract-dev/task4/examples/substrate-dev/pallets/voting/src/lib.rs:292-325 | every announced winner of any proposal, created once or again, was deposited by a call that ended it, active and past its end block, and is the lowest of the options it had then with the most votes announced for its id until then (counted up to U32_MAX) |
| `ProposalTheorems.CreatedOnceBelowLast` | advanced2-contract-dev/task4/examples/substrate-dev/pallets/voting/src/lib.rs:217-231 | in every run every id below U32_MAX is created at most once |
| `ProposalTheorems.TallyExact` | advanced2-contract-dev/task4/examples/substrate-dev/pallets/voting/src/lib.rs:274-278 | the stored result is the number of stored votes, which is the number of announced ones, capped at U32_MAX |
| `ProposalTheorems.InactiveIsFrozen` | advanced2-contract-dev/task4/examples/substrate-dev/pallets/voting/src/lib.rs:252-253 | once ended or cancelled, a proposal with any id stays the same at every moment of a continuation if and only if the continuation does not create its id again; then its votes, results and log of votes stay too |
| `ProposalTheorems.FrozenStep` | advanced2-contract-dev/task4/examples/substrate-dev/pallets/voting/src/lib.rs:217-231 | one call leaves a closed proposal as it is if and only if it does not create a proposal under its id; its votes and results stay in either case |
| `ProposalTheorems.ResultsAddUp` | advanced2-contract-dev/task4/examples/substrate-dev/pallets/voting/src/lib.rs:358-369 | with fewer than 2^32 voters the results of an id created at most once add up to the number of stored votes |
| `ProposalTheorems.VotesAreKept` | advanced2-contract-dev/task4/examples/substrate-dev/pallets/voting/src/lib.rs:264-274 | a stored vote is never changed or removed in any continuation |
| `ProposalTheorems.VotesNameOptions` | advanced2-contract-dev/task4/examples/substrate-dev/pallets/voting/src/lib.rs:259-272 | every stored vote on a proposal created once names one of its options |
| `ProposalTheorems.ClosedAtMostOnce` | advanced2-contract-dev/task4/examples/substrate-dev/pallets/voting/src/lib.rs:298-305 | an id is announced closed at most as often as it was created; created once, it is announced closed exactly when it is no longer active |
| `ProposalTheorems.VoteOrEnd` | advanced2-contract-dev/task4/examples/substrate-dev/pallets/voting/src/lib.rs:255-302 | at every block from now on an active proposal takes a new voter's valid vote if and only if it cannot be ended |
| `ProposalTheorems.EndableUnlessSaturated` | advanced2-contract-dev/task4/examples/substrate-dev/pallets/voting/src/lib.rs:301-302 | after every run an active proposal can be ended at some block from the current one on if and only if its end block is below the largest one |
| `ProposalTheorems.EndableFromCreation` | advanced2-contract-dev/task4/examples/substrate-dev/pallets/voting/src/lib.rs:218-219 | a proposal just created can be ended at some block if and only if its period ends below the largest block |
| `ProposalTheorems.NeverEndableIsReached` | advanced2-contract-dev/task4/examples/substrate-dev/pallets/voting/src/lib.rs:218-219 | a run reaching an active proposal that can never be ended exists |
| `ProposalTheorems.SaturatedNeverEnds` | advanced2-contract-dev/task4/examples/substrate-dev/pallets/voting/src/lib.rs:292-325 | no run announces the end of a proposal created once whose end block is the largest block |
| `ProposalTheorems.LastIdIsReopened` | advanced2-contract-dev/task4/examples/substrate-dev/pallets/voting/src/lib.rs:217-231 | a run that closes the proposal at U32_MAX and a call that makes it active again exist |
| `ProposalTheorems.WinnerIsLowestMax` | advanced2-contract-dev/task4/examples/substrate-dev/pallets/voting/src/lib.rs:307-317 | the specified winner is the lowest index of the largest positive count |
| `ProposalTheorems.LowestMaxUnique` | advanced2-contract-dev/task4/examples/substrate-dev/pallets/voting/src/lib.rs:307-317 | no other answer is |
| `ProposalTheorems.WinnerIsPlurality` | advanced2-contract-dev/task4/examples/substrate-dev/pallets/voting/src/lib.rs:307-317 | in a reachable state the argmax over the tally of an id created once is the plurality of the votes announced |
| `ProposalCalls.LogIsLegal` | advanced2-contract-dev/task4/examples/substrate-dev/pallets/voting/src/lib.rs:193-345 | over every run each event was deposited by a successful call, and the events before it allow it: ids are the number of earlier creations (up to U32_MAX), a vote is the caller's first on an open proposal, only an open proposal is closed, and who cancels is the proposer announced last for the id |
| `ProposalCalls.ProposalIsFiled` | advanced2-contract-dev/task4/examples/substrate-dev/pallets/voting/src/lib.rs:217-230 | after every run each stored proposal has the proposer, description, options and block of the last successful call that created its id, and its end block is that block plus the period, up to the largest |
| `ProposalCalls.EventsTellAll` | advanced2-contract-dev/task4/examples/substrate-dev/pallets/voting/src/lib.rs:217-341 | after every run the events alone tell the next id, who proposed each id last, whether it is active, and who voted for which option |
| `ProposalCalls.CreateDecided` | advanced2-contract-dev/task4/examples/substrate-dev/pallets/voting/src/lib.rs:201-215 | a creation succeeds if and only if there are options and options, description and period are within their limits, both ends of the period included; otherwise the error of the first check that fails |
| `ProposalCalls.VoteDecided` | advanced2-contract-dev/task4/examples/substrate-dev/pallets/voting/src/lib.rs:252-267 | in every reachable state a vote succeeds if and only if the log has the proposal open and no earlier vote of the caller, the block is within the window, both ends included, and the option exists; otherwise the error of the first check that fails |
| `ProposalCalls.EndDecided` | advanced2-contract-dev/task4/examples/substrate-dev/pallets/voting/src/lib.rs:298-302 | in every reachable state anybody ends a proposal if and only if the log has it open and its end block is past; otherwise the error |
| `ProposalCalls.CancelDecided` | advanced2-contract-dev/task4/examples/substrate-dev/pallets/voting/src/lib.rs:336-338 | in every reachable state a cancellation succeeds if and only if the log has the proposal open and the caller is the proposer announced last for it; otherwise the error |
| `ProposalInvariants.Reachable` | advanced2-contract-dev/task4/examples/substrate-dev/pallets/voting/src/lib.rs:188-349 | the invariant of every id after every run whose blocks do not go back |
| `ProposalInvariants.TouchesOne` | advanced2-contract-dev/task4/examples/substrate-dev/pallets/voting/src/lib.rs:188-349 | a call touches only the proposal its event names |
| `ProposalInvariants.VoteTally` | advanced2-contract-dev/task4/examples/substrate-dev/pallets/voting/src/lib.rs:274-278 | a vote keeps the tally exact |
| `VotingPallet.Pallet.constructor` | advanced2-contract-dev/task4/examples/substrate-dev/pallets/voting/src/lib.rs:88-128 | empty storage is the genesis state of the runs |
| `VotingPallet.Pallet.CreateProposal` | advanced2-contract-dev/task4/examples/substrate-dev/pallets/voting/src/lib.rs:193-240 | the specified transition, end block saturated, or the first failing check's error and no change |
| `VotingPallet.Pallet.Vote` | advanced2-contract-dev/task4/examples/substrate-dev/pallets/voting/src/lib.rs:245-287 | vote stored and tally incremented, or the first failing check's error and no change |
| `VotingPallet.Pallet.WinningOption` | advanced2-contract-dev/task4/examples/substrate-dev/pallets/voting/src/lib.rs:307-317 | the loop answers the lowest index of the largest positive count |
| `VotingPallet.Pallet.EndProposal` | advanced2-contract-dev/task4/examples/substrate-dev/pallets/voting/src/lib.rs:292-325 | deactivation and announcement of the winner, or the error and no change |
| `VotingPallet.Pallet.CancelProposal` | advanced2-contract-dev/task4/examples/substrate-dev/pallets/voting/src/lib.rs:330-348 | deactivation by the proposer, or the error and no change |
| `VotingPallet.Pallet.GetVoteResults` | advanced2-contract-dev/task4/examples/substrate-dev/pallets/voting/src/lib.rs:358-369 | option by option the number of votes announced, capped at U32_MAX; empty for an unknown id |
| `BeggingContract.BeggingContract.GetTop3Donors` | base2-smartcontractbase/task2/BeggingContract.sol:54-74 | the answer is the first three entries, zero-padded, of the one stable descending sort of the donors by donation |
| `BeggingContract.BeggingContract.SelectTop3` | base2-smartcontractbase/task2/BeggingContract.sol:58-73 | the online podium is that of the insertion-sorted donors |
| `BeggingContract.BeggingContract.Enter` | base2-smartcontractbase/task2/BeggingContract.sol:62-72 | the inner loops shift the podium down from the first slot the amount beats |
| `Begging.PodiumInsert` | base2-smartcontractbase/task2/BeggingContract.sol:62-72 | shifting a podium of three is inserting into the whole ranking |
| `Begging.RankingIsRanking` | base2-smartcontractbase/task2/BeggingContract.sol:54-74 | the stable descending sort exists |
| `Begging.RankingUnique` | base2-smartcontractbase/task2/BeggingContract.sol:54-74 | and is unique |
| `Begging.DonorListExact` | base2-smartcontractbase/task2/BeggingContract.sol:33-35 | after every run the donor list holds each address with a donation once, in the order of first donations |
| `Begging.EtherAccounted` | base2-smartcontractbase/task2/BeggingContract.sol:37-48 | after every run ether held plus ether paid out is the sum of the records, each record the sum of that donor's events, within 256 bits |
| `Begging.ParametersTold` | base2-smartcontractbase/task2/BeggingContract.sol:24-28 | after any run the owner and the period are those of the deployment and of the owner's own updates, and held and paid ether add up to all donations announced |
| `Begging.DeployDecided` | base2-smartcontractbase/task2/BeggingContract.sol:24-28 | a deployment succeeds if and only if the end of its period is a 256-bit word |
| `Begging.DonateDecided` | base2-smartcontractbase/task2/BeggingContract.sol:19-39 | after any run a donation succeeds if and only if it is within the period, both ends included, positive, and its donor's total stays a 256-bit word; it is then announced with donor, amount and time |
| `Begging.OwnerCallsDecided` | base2-smartcontractbase/task2/BeggingContract.sol:42-78 | after any run a withdrawal succeeds if and only if the owner calls, donations exceed what was paid out and the payment goes through; a new period if and only if the owner calls and its end is a 256-bit word; otherwise the error of the first check that fails |
| `Begging.PayoutExact` | base2-smartcontractbase/task2/BeggingContract.sol:42-48 | over any run a call lowers the ether held if and only if it is such a withdrawal, which pays out exactly what donations exceed earlier payouts by; records and log change only by donations |
| `BeggingContract.BeggingContract.constructor` | base2-smartcontractbase/task2/BeggingContract.sol:24-28 | the deployed state; a period end beyond 256 bits reverts |
| `BeggingContract.BeggingContract.Donate` | base2-smartcontractbase/task2/BeggingContract.sol:30-40 | the specified transition with the checked addition, or the error and no change |
| `BeggingContract.BeggingContract.Withdraw` | base2-smartcontractbase/task2/BeggingContract.sol:42-48 | the whole balance to the owner, or the error and no change |
| `BeggingContract.BeggingContract.UpdateDonationPeriod` | base2-smartcontractbase/task2/BeggingContract.sol:76-78 | a new end, or the error and no change |
| `Erc20.SupplyConserved` | base2-smartcontractbase/task2/MyERC20.sol:55-66 | after every run the balances sum to the deployed supply, which never changes, and any two balances fit in it |
| `Erc20.UncheckedTransferIsExact` | base2-smartcontractbase/task2/MyERC20.sol:60-63 | the wrapping updates of a transfer that passed its checks equal exact arithmetic, also when sender and receiver are one |
| `Erc20.LogReconstructsLedger` | base2-smartcontractbase/task2/MyERC20.sol:65-95 | the Transfer log alone, with address 0 as the mint source, reconstructs every balance and the supply |
| `Erc20.AllowanceAccounting` | base2-smartcontractbase/task2/MyERC20.sol:76-85 | over any run without an approve by the owner for the spender a finite allowance falls by exactly what was moved, and the unlimited one never changes |
| `Erc20.MovedWithinGrants` | base2-smartcontractbase/task2/MyERC20.sol:48-85 | over any run, what a spender moved plus what it may still move is at most all that was approved, unless the unlimited amount was |
| `Erc20.TransferDecided` | base2-smartcontractbase/task2/MyERC20.sol:55-58 | on every reachable ledger a transfer succeeds if and only if both addresses are non-zero and the amount is at most what the log gives the sender; otherwise the error of the first check that fails |
| `Erc20.TransferFromDecided` | base2-smartcontractbase/task2/MyERC20.sol:48-58 | the same for transferFrom, the allowance being checked first; an amount equal to the allowance or the balance is accepted |
| `Erc20.ApproveDecided` | base2-smartcontractbase/task2/MyERC20.sol:68-70 | an approval succeeds if and only if both addresses are non-zero; otherwise the error |
| `Erc20.DeployedLedger` | base2-smartcontractbase/task2/MyERC20.sol:87-95 | a deployment succeeds if and only if the deployer is non-zero, who then holds the whole supply; there are no allowances |
| `Prelude.WrapsModulo` | base2-smartcontractbase/task2/MyERC20.sol:60-63 | unchecked addition and subtraction are those of the integers modulo 2^256 |
| `Erc20Contract.MyERC20.constructor` | base2-smartcontractbase/task2/MyERC20.sol:17-22 | the mint of the whole supply to the deployer |
| `Erc20Contract.MyERC20.DoTransfer` | base2-smartcontractbase/task2/MyERC20.sol:55-66 | the wrapping body of `_transfer` is the exact ledger move, or its error and no change |
| `Erc20Contract.MyERC20.DoApprove` | base2-smartcontractbase/task2/MyERC20.sol:68-74 | the allowance is replaced, or the error and no change |
| `Erc20Contract.MyERC20.SpendAllowance` | base2-smartcontractbase/task2/MyERC20.sol:76-85 | the allowance is reduced unless it is unlimited |
| `Erc20Contract.MyERC20.Transfer` | base2-smartcontractbase/task2/MyERC20.sol:36-40 | true and the specified ledger, or the revert |
| `Erc20Contract.MyERC20.Approve` | base2-smartcontractbase/task2/MyERC20.sol:42-46 | true and the specified ledger, or the revert |
| `Erc20Contract.MyERC20.TransferFrom` | base2-smartcontractbase/task2/MyERC20.sol:48-53 | allowance and balances together; a failing transfer undoes the spent allowance |
| `Erc20Contract.MyERC20.BalanceOf` | base2-smartcontractbase/task2/MyERC20.sol:28-30 | the net of the Transfer log |
| `Roman.RoundTrip` | base2-smartcontractbase/task1/Roman2Int.sol:23-30 | for every n >= 1 parsing the printed numeral gives n back, except that the checked subtraction reverts exactly for n < 1000 with leading digit 4 or 9 |
| `Roman.StartsWithPairMeaning` | base2-smartcontractbase/task1/Roman2Int.sol:25-26 | that condition is the numeral beginning with a two-letter pair |
| `Roman.ContractRoundTrip` | base2-smartcontractbase/task1/Roman2Int.sol:18-34 | the same for the two contract functions with all their guards, for 1 .. 3999 |
| `Roman.PrintedLength` | base2-smartcontractbase/task1/Roman2Int.sol:21 | a printed numeral has 1 to 15 letters, so the length guard never rejects it |
| `Roman.ParseExact` | base2-smartcontractbase/task1/Roman2Int.sol:23-30 | what the parser accepts: letters none of whose signed partial sums is negative; it answers the signed sum |
| `Roman.AcceptedExact` | base2-smartcontractbase/task1/Roman2Int.sol:18-34 | `romanToInt` accepts exactly strings of 1 to 15 letters without a negative signed partial sum whose signed sum is from 1 to 3999, and answers that sum |
| `Roman.LetterExact` | base2-smartcontractbase/task1/Roman2Int.sol:6-16 | the parser's letters and values are exactly the one-letter rows of the printer's table |
| `Roman.NumeralInjective` | base2-smartcontractbase/task1/Int2Roman.sol:24-33 | different numbers print differently |
| `Roman.GreedyIsNumeral` | base2-smartcontractbase/task1/Int2Roman.sol:24-31 | the greedy loops print the positional numeral, for every natural number |
| `Roman.RunLoops` | base2-smartcontractbase/task1/Int2Roman.sol:24-31 | the nested loops with their early exit append what the greedy recursion does |
| `Roman.IntToRoman` | base2-smartcontractbase/task1/Int2Roman.sol:6-34 | the positional numeral within 1 .. 3999, a revert outside |
| `Roman.RomanToInt` | base2-smartcontractbase/task1/Roman2Int.sol:18-34 | the loop with both guards and 256-bit checked arithmetic is the parser |
| `GroupHeaders.PrefixWithGroupHeaders` | advanced2-contract-dev/task3/foundry-experience/lib/forge-std/scripts/vm.py:139-159 | the list with its headers for any upper-casing; it raises if and only if a group is empty, leaving the headers inserted before it |
| `GroupHeaders.PrefixWithHeaders` | advanced2-contract-dev/task3/foundry-experience/lib/forge-std/scripts/vm.py:139-151 | the loop over the list it inserts into terminates and gives the specified list, for any way of making headers that keeps the group |
| `GroupHeaders.OneHeaderPerGroup` | advanced2-contract-dev/task3/foundry-experience/lib/forge-std/scripts/vm.py:142-150 | each group gets exactly one header, immediately before its first member, and no other header is made |
| `GroupHeaders.OriginalsKept` | advanced2-contract-dev/task3/foundry-experience/lib/forge-std/scripts/vm.py:141-151 | deleting the headers gives back the list |
| `GroupHeaders.SortedGivesBlocks` | advanced2-contract-dev/task3/foundry-experience/lib/forge-std/scripts/vm.py:47-54 | on a list sorted by `cmp_cheatcode` each header starts one contiguous block holding all of its group |
| `GroupHeaders.EveryCheatcodeInItsBlock` | advanced2-contract-dev/task3/foundry-experience/lib/forge-std/scripts/vm.py:47-54 | if the partition assertion passes and no group is empty, every cheatcode stands in the result for its sorted part, in one block opened by a header and holding exactly its group in sorted order |
| `GroupHeaders.CompareExact` | advanced2-contract-dev/task3/foundry-experience/lib/forge-std/scripts/vm.py:126-135 | the comparison is negative if and only if the first of group, status, safety and id that differs is smaller in the first argument, positive if and only if it is larger |
| `GroupHeaders.LessExact` | advanced2-contract-dev/task3/foundry-experience/lib/forge-std/scripts/vm.py:128-134 | a string is less if and only if, equal up to some place, it ends there or has the smaller character |
| `GroupHeaders.HeaderText` | advanced2-contract-dev/task3/foundry-experience/lib/forge-std/scripts/vm.py:147-159 | a header reads `// ======== T ========`, T being its group with the first letter, or for the two acronyms every letter, in upper case; it has no description and is otherwise a copy |
| `GroupHeaders.FilterExact` | advanced2-contract-dev/task3/foundry-experience/lib/forge-std/scripts/vm.py:47-49 | the filter keeps exactly the cheatcodes with the given safety, as often as they occur |
| `GroupHeaders.FilterParts` | advanced2-contract-dev/task3/foundry-experience/lib/forge-std/scripts/vm.py:47-49 | and in their order: filtering a concatenation is filtering its parts |
| `GroupHeaders.CompareAntisymmetric` | advanced2-contract-dev/task3/foundry-experience/lib/forge-std/scripts/vm.py:126-135 | swapping the arguments negates the comparison, and only equal keys tie |
| `GroupHeaders.CompareTransitive` | advanced2-contract-dev/task3/foundry-experience/lib/forge-std/scripts/vm.py:126-135 | the comparison is transitive |
| `GroupHeaders.PartitionAssertion` | advanced2-contract-dev/task3/foundry-experience/lib/forge-std/scripts/vm.py:47-51 | the length assertion passes if and only if every cheatcode is safe or unsafe, and then none is lost |
| `VoteReset.ResetClearsEveryone` | base2-smartcontractbase/task1/Voting.sol:22-29 | a reset after any run leaves every address with zero votes |
| `VoteReset.VotesAreThoseSinceReset` | base2-smartcontractbase/task1/Voting.sol:9-15 | after any run a candidate's votes are those accepted since the last reset, as told from the calls alone, and whoever has votes is listed |
| `VoteReset.ListLengthExact` | base2-smartcontractbase/task1/Voting.sol:11-13 | the list's length is the number of different candidates of each period between resets, added up |
| `VoteReset.VoteDecided` | base2-smartcontractbase/task1/Voting.sol:9-15 | after any run a vote succeeds if and only if it is for somebody else and does not overflow the votes accepted since the last reset; a reset always succeeds |
| `VoteReset.Voting.constructor` | base2-smartcontractbase/task1/Voting.sol:5-7 | no votes, no candidates |
| `VoteReset.Voting.Vote` | base2-smartcontractbase/task1/Voting.sol:9-15 | the specified transition, or the revert |
| `VoteReset.Voting.GetVotes` | base2-smartcontractbase/task1/Voting.sol:17-20 | the votes accepted since the last reset |
| `VoteReset.Voting.ResetVotes` | base2-smartcontractbase/task1/Voting.sol:22-29 | the loop zeroes every address and keeps the list |
| `BinarySearch.Search` | base2-smartcontractbase/task1/BinarySearch.sol:6-23 | on any array the outcome of the search by halves; an index found holds the target and is no sentinel; on ascending arrays the search is complete and reverts exactly for an empty array or a target below its first element |
| `BinarySearch.MiddleFound` | base2-smartcontractbase/task1/BinarySearch.sol:10-14 | among equal entries the middle one is found, the left of two |
| `BinarySearch.SearchResult` | base2-smartcontractbase/task1/BinarySearch.sol:25-31 | found if and only if the target occurs, index 0 otherwise, with the exact revert set |
| `MergeSortedArray.MergeArrays` | base2-smartcontractbase/task1/MergeSortedArray.sol:6-38 | the loops give the recursive merge that takes from the second array on ties; a length overflow reverts |
| `MergeSortedArray.CopyRest` | base2-smartcontractbase/task1/MergeSortedArray.sol:25-35 | the rest of one array goes behind what is written |
| `MergeSortedArray.FirstPlaces` | base2-smartcontractbase/task1/MergeSortedArray.sol:14-23 | for all inputs, ascending or not: an entry of the first array stands behind its predecessors and those entries of the second that come before the first one above everything up to it |
| `MergeSortedArray.SecondPlaces` | base2-smartcontractbase/task1/MergeSortedArray.sol:14-23 | for all inputs: an entry of the second array stands behind its predecessors and those entries of the first that come before the first one that reaches everything up to it, so that on a tie the second array goes first |
| `MergeSortedArray.MergePermutes` | base2-smartcontractbase/task1/MergeSortedArray.sol:14-37 | the merge has exactly the entries of both inputs, for all inputs |
| `MergeSortedArray.MergeAscending` | base2-smartcontractbase/task1/MergeSortedArray.sol:14-23 | ascending inputs merge into an ascending array |
| `MergeSortedArray.MergeCommutes` | base2-smartcontractbase/task1/MergeSortedArray.sol:15-21 | on ascending inputs the tie rule does not show: either order gives the one ascending arrangement |

## Left out

- GroupHeaders.SortedGivesBlocks: sorting is Python's own `list.sort`; the lemma takes any list that `cmp_cheatcode` calls sorted.
- GroupHeaders.PrefixWithGroupHeaders: Python's `upper` on one character is a parameter, of which nothing is assumed; the printer that consumes the list is not modelled.
- AssetRegistryPallet.Pallet.GetAssetsByOwner: the order of the ids is left open, as it is that of hashed storage keys.
- Roman.RunLoops: the value and symbol arrays are one table argument; that the source fills them entry by entry is not captured.
- MergeSortedArray.MergeArrays: the second and the third loop are one method called twice.
- Begging.EtherAccounted: ether arrives only through `donate`; forced ether and re-entrant calls during a withdrawal are not modelled, and the outcome of the external call is a parameter.
- Storage: hashing and encoding of keys; a mapping of mappings and a double map are maps keyed by pairs. Signatures: the caller is a parameter.
- Time: block numbers and timestamps are parameters; the pallet runs assume that blocks do not go back.
- The name, symbol and decimals of the token, and getters that only return one field or test for one key.
- Weights, benchmarks, mocks, node, runtime and chain specification of the Substrate projects, and the template pallet: configuration.
- The Solana programs: every balance change is a call into a token library outside the repository.
- The Go clients and bindings, the JavaScript and TypeScript front ends, deployment scripts and artifacts: network input and output.
- `ReverseString.sol`, one loop without state that nothing else uses, `MyNFT.sol`, whose behaviour is in a library, and `NFTAution.sol`, which is empty.
- The rest of `vm.py`: reading JSON, printing Solidity text, running the formatter.
