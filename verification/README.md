# Attribution ledger: model and proofs

This project models the money path of the attribution ledger and proves what the ledger promises
about it, together with the two concurrent protocols and the validators around it:

| module | what it models |
|---|---|
| `LargestRemainder` | the rounding that the repository writes out four times: floors, remainders, the ranking, the bonus set of keys |
| `Claimants`, `WeightOverrides`, `Explode`, `ExplodeConservation`, `ReceiptDues` | claimant keys; overrides of receipt weights; receipt weights joined with claimants, split by ppm or equally, accumulated in place |
| `Statements`, `StatementItems`, `StatementPipeline` | claimant units to statement credits; the legacy per-user statement; overrides, join and statement end to end |
| `TokenDistribution`, `TokenConservation`, `CumulativeBalances`, `LeafNames` | credits to token amounts; the fold of prior balances and deltas into cumulative leaves |
| `EpochDistribution`, `WalletBacking`, `LateLinking` | signed statement lines to an epoch's distribution when only some claimants have a wallet |
| `MoneyPath` | all of the above joined: receipt weights to cumulative balances |
| `DistributorRuns` | whole runs: finalize, mint, publish, claim |
| `EnricherOrder` | the three-colour search and the order check of `validateEnricherOrder` |
| `CanonicalJson`, `JsonEquality`, `AllocationPreimage` | the texts that are hashed and signed |
| `IdentityDatabase`, `SignIn` | any number of OAuth `signIn` callbacks interleaved, database call by database call |
| `McpCache` | `McpConnectionCache` across its awaits |
| `EpochWindow` | epoch window arithmetic |
| `Collation`, `Integers`, `Grouping`, `Decimal`, `Texts`, `Wrappers` | string orders and stable sorting, BigInt arithmetic, grouping Maps, printing, taking texts apart |

Where the source updates Maps, sets and totals in loops, the model has a method with the same loop.
Its contract equates the result with a specification function (`Apportion`, `StatementLines`,
`Exploded`, `Cumulative`, `CumulativeEpoch`, ...), and the lemmas about that function state the
promises. The protocols are step functions; the methods of `Database`, `McpConnectionCache` and
`HandleSignIn` are proved to take exactly those steps, and the lemmas range over every run.

What the source leaves to its runtime is a parameter: `localeCompare` and the default sort order
are any strict total order on strings (`Collation.Order`), `isAddress` is any predicate, and the
wallet resolver's answer, the clock and new ids are inputs. BigInt is `int` with division truncating
toward zero. Errors are values. A precondition that the source itself does not check is the caller's
and is cited: ppm shares that total one million over distinct claimants
(app/src/app/api/v1/attribution/epochs/[id]/review-subject-overrides/route.ts:181-207), and minting
exactly the deltas before or with the new root (packages/aragon-osx/src/token-distribution.ts:345-347),
which `DistributorRuns.Step` builds into `Publish`.

## What turned out not to hold as stated

- `splitByPpm` (packages/attribution-ledger/src/claimant-shares.ts:314-331) keys its bonus set by
  claimant. A claimant listed twice can be paid twice (`RepeatedClaimantOverpays`); the split is
  exact if and only if no claimant is ranked on both sides of the rounding cut
  (`PpmSplitConservesIff`).
- Negative units: `splitEqually` (the same file, 347-358) and `splitByPpm` drop their negative
  remainder, so the splits conserve negative units exactly when every part is a whole number
  (`EqualSplitConservesIff`, `PpmSplitConservesIff`).
- `canonicalJsonStringify` (packages/attribution-ledger/src/hashing.ts:39-51) drops a property named
  `__proto__`, because assigning it on the rebuilt object creates no property. Two texts are equal if
  and only if the values are equal up to key order, BigInt against its decimal string, and such
  properties (`CanonicalTextIff`, `ProtoPropertyIsNotPrinted`).
- The allocation preimage (the same file, 136-159) joins `key:units` lines with a newline and does
  not escape keys. It identifies every allocation set with distinct keys if and only if the newline,
  the colon or every digit is excluded from keys (`IdentifiesIff`); otherwise one key can spell
  another set's first line and second key (`KeysCollide`).
- `computeEpochWindowV1` (packages/attribution-ledger/src/epoch-window.ts:37-59) passes the year of
  the instant to `Date.UTC`, which reads 0 to 99 as 1900 to 1999. Instants of those years get the
  window of a day about 1900 years later (`YearFifty`, `EarlyWindowsComeLater`), which holds them
  only if the period before the anchor reaches back that far (`EarlyInstantContainedIff`). Every
  other instant lies in its own window if and only if the length is a multiple of seven days, or too
  long for a period to end after the anchor (`ContainsEveryInstantIff`); for other lengths the
  window always contains the Monday of the instant's week.
- `McpConnectionCache.close` (app/src/bootstrap/graph-executor.factory.ts:375-385) clears the state
  only after its await. Every connection stays accounted for exactly when nothing drops the
  connection meanwhile (`CloseAccountsForAllIff`); otherwise one is closed twice or left open
  (`ShutdownRace`).
- The link branch of `signIn` (app/src/auth.ts:493-536) ignores whether `createBinding` inserted. If
  the account was bound to someone else between lookup and insert, the callback still ends in a
  session and reports the account as linked (`LinkLosesAccount`); the account is the linking user's
  exactly when it was unbound, or already that user's, at the insert (`LinkOwnsAccountIff`).

## Model

| member | source | states |
|---|---|---|
| LargestRemainder.RoundShares | packages/aragon-osx/src/token-distribution.ts:584-614 | floors, ranking, bonuses and amounts computed step by step are the allocation `Apportion`, which `AmountIs` says exactly |
| LargestRemainder.AwardBonuses | packages/aragon-osx/src/token-distribution.ts:603-608 | counting `residual` down rewards exactly the keys of the first `residual` ranked shares, and none when it is not positive |
| LargestRemainder.FloorShares | packages/attribution-ledger/src/claimant-shares.ts:142-155 | the loop yields every floor with its remainder and the sum of the floors |
| LargestRemainder.ResidualBounds | packages/aragon-osx/src/token-distribution.ts:593-595 | the residual is never negative, always below the number of claimants, and below the number of nonzero remainders unless both are zero |
| LargestRemainder.ApportionTotal | packages/attribution-ledger/src/claimant-shares.ts:306-331 | for any weights and keys: the amounts sum to the floors, one unit per share the loop reaches, and one per later share that repeats a rewarded key |
| LargestRemainder.ConservesIff | packages/attribution-ledger/src/claimant-shares.ts:314-331 | nothing is lost, and the amounts sum to exactly the total if and only if no key is ranked on both sides of the cut |
| LargestRemainder.NegativeConservesIff | packages/attribution-ledger/src/claimant-shares.ts:286-331 | of a negative amount the truncated shares take no more than there is, and exactly all of it if and only if every share is a whole number |
| LargestRemainder.Exact | packages/aragon-osx/src/token-distribution.ts:572-615 | distinct keys: the amounts sum to exactly the requested total |
| LargestRemainder.Threshold | packages/aragon-osx/src/token-distribution.ts:596-608 | one positive threshold separates rewarded remainders from the others |
| LargestRemainder.Quota | packages/aragon-osx/src/token-distribution.ts:584-614 | every amount is its exact share rounded down or up, exact shares get exactly theirs, zero weight gets nothing |
| LargestRemainder.AmountIs | packages/aragon-osx/src/token-distribution.ts:584-614 | the allocation without its ranking: an item gets its share rounded down, and one unit more if and only if fewer items have a larger fraction, or the same fraction and a smaller key, than units are left over |
| LargestRemainder.TieByKey | packages/aragon-osx/src/token-distribution.ts:596-601 | equal fractions: the smaller key is served first |
| LargestRemainder.Fair | packages/aragon-osx/src/token-distribution.ts:596-614 | a larger weight never receives less and equal weights differ by at most one unit |
| LargestRemainder.Optimal | packages/aragon-osx/src/token-distribution.ts:572-615 | no integer vector with the same sum has a smaller total absolute deviation from the exact proportional shares |
| LargestRemainder.ItemsOfTotal | packages/attribution-ledger/src/claimant-shares.ts:118-129 | listing the grouped Map in key order loses no units and gives distinct keys |
| LargestRemainder.MapAmountIs | packages/attribution-ledger/src/claimant-shares.ts:127-176 | the same for a grouped Map, key by key |
| Grouping.TallyConserves | packages/attribution-ledger/src/claimant-shares.ts:94-121 | grouping by key conserves the total |
| Grouping.TallyAt | packages/attribution-ledger/src/claimant-shares.ts:94-116 | a group holds exactly what was contributed to its key, and only contributed keys have one |
| Claimants.ParseThenPrint | packages/attribution-ledger/src/claimant-shares.ts:393-411 | printing a parsed key returns it; the rejected keys are exactly those no claimant prints |
| Claimants.PrintThenParse | packages/attribution-ledger/src/claimant-shares.ts:68-71 | parsing a printed claimant returns it, up to the login, if and only if its provider has no colon |
| Claimants.KeyNamesClaimant | packages/attribution-ledger/src/claimant-shares.ts:68-71 | colon-free providers: equal keys mean equal claimants up to the login |
| Statements.ComputeAttributionStatementLines | packages/attribution-ledger/src/claimant-shares.ts:73-194 | guards, grouping, rounding and printing yield `StatementLines`, with the first negative units as the error |
| Statements.GroupUnits | packages/attribution-ledger/src/claimant-shares.ts:94-116 | the loop stops at the first negative units, otherwise merges units and receipts per key and keeps the first claimant |
| Statements.FirstNegativeAt | packages/attribution-ledger/src/claimant-shares.ts:94-99 | a statement that fails reports its first negative allocation and its units |
| Statements.RoundUnits | packages/attribution-ledger/src/rules.ts:59-139 | total, rounding and share text, as both statement functions spell them out |
| Statements.GroupIsTally | packages/attribution-ledger/src/claimant-shares.ts:101-115 | the in-place accumulation adds up the units of each key |
| Statements.ShareTextReadsBack | packages/attribution-ledger/src/claimant-shares.ts:178-182 | the printed share is digits, a point and six digits that read back as the exact share cut off after six decimals |
| Statements.AmountsExact | packages/attribution-ledger/src/claimant-shares.ts:118-176 | credits sum to exactly the pool when there are units, and there are no lines otherwise |
| Statements.AmountsRounded | packages/attribution-ledger/src/claimant-shares.ts:142-176 | each credit is its exact share rounded down or up, nothing for zero units |
| Statements.AmountsFair | packages/attribution-ledger/src/claimant-shares.ts:159-176 | more units never earn fewer credits, equal units differ by at most one, the smaller key first |
| Statements.CreditsAre | packages/attribution-ledger/src/claimant-shares.ts:142-176 | the credits of every line, exactly: its share rounded down, and one more while left-over credits last, by fraction and then by key |
| Statements.AmountsListKeys | packages/attribution-ledger/src/claimant-shares.ts:127-129 | one line per key, in strict key order, with that key's units |
| Statements.StatementExact | packages/attribution-ledger/src/claimant-shares.ts:73-194 | fails exactly on negative units under a positive pool; otherwise pays out exactly the pool, or nothing without a pool or units |
| Statements.StatementDeterministic | packages/attribution-ledger/src/claimant-shares.ts:73-194 | units, shares and credits depend only on each key's units, not on the order or splitting of the allocations |
| Statements.LineCarries | packages/attribution-ledger/src/claimant-shares.ts:101-115 | a line is for the claimant its key was first seen with, and carries exactly the receipts of its key's allocations |
| StatementItems.ComputeStatementItems | packages/attribution-ledger/src/rules.ts:31-140 | the legacy statement: reject negatives, group by user, round |
| StatementItems.ClaimantStatementRefines | packages/attribution-ledger/src/claimant-shares.ts:73-194 | on user claimants the claimant statement gives the same users, units, shares and credits as the legacy one, or the same error, for an order compatible with the common `user:` prefix |
| Explode.ClaimantTally.AccumulateClaimant | packages/attribution-ledger/src/claimant-shares.ts:362-387 | the Map gains the units and the receipt under the key, keeping the first claimant |
| Explode.ClaimantTally.SplitByPpm | packages/attribution-ledger/src/claimant-shares.ts:274-332 | the Map gains the rounded ppm parts of the receipt |
| Explode.ClaimantTally.SplitEqually | packages/attribution-ledger/src/claimant-shares.ts:335-360 | the Map gains the equal parts in sorted key order, or the first key that does not parse is reported |
| Explode.ClaimantTally.AddAligned | packages/attribution-ledger/src/claimant-shares.ts:350-359 | the loop over the sorted keys: the first of them get one unit more, and the first key that does not parse stops it |
| Explode.ExplodeToClaimants | packages/attribution-ledger/src/claimant-shares.ts:212-271 | lookups, the join loop and the sorted output yield `Exploded`, with a missing record or a bad key as the error |
| Explode.ApplyReceiptWeightOverrides | packages/attribution-ledger/src/claimant-shares.ts:438-460 | override units replace the weights of their receipts and the result is sorted, or the weights are returned as they are |
| WeightOverrides.OverridesCorrect | packages/attribution-ledger/src/claimant-shares.ts:442-459 | receipt by receipt: the units of the last override that has units, else the weight unchanged; nothing is added or dropped, and the result is in receipt order, or the input itself when no override has units |
| WeightOverrides.OverriddenUnits | packages/attribution-ledger/src/claimant-shares.ts:444-458 | every output weight whose receipt is overridden carries exactly the last override's units, every other one is an input weight |
| ExplodeConservation.EqualSplitConservesIff | packages/attribution-ledger/src/claimant-shares.ts:347-359 | the equal split hands out exactly the receipt's units if and only if they are non-negative or divide evenly |
| ExplodeConservation.PpmSplitConservesIff | packages/attribution-ledger/src/claimant-shares.ts:286-331 | for all units: the ppm split hands out at least the receipt's units, and exactly those if and only if no claimant is ranked on both sides of the cut (non-negative units) or every share is whole (negative units); distinct claimants qualify |
| ExplodeConservation.RepeatedClaimantOverpays | packages/attribution-ledger/src/claimant-shares.ts:314-323 | one unit shared by one claimant listed twice is paid twice |
| ReceiptDues.PpmPartIs | packages/attribution-ledger/src/claimant-shares.ts:286-331 | the ppm split gives each claimant its ppm of the units rounded down or up, exactly that where it is whole, left-over units going by fraction and then by key |
| ReceiptDues.PpmNobodyElse | packages/attribution-ledger/src/claimant-shares.ts:297-302 | and nobody else anything |
| ReceiptDues.EqualPartIs | packages/attribution-ledger/src/claimant-shares.ts:347-359 | the equal split gives each claimant an equal part per listing, and of the remainder one unit each in key order, duplicates included |
| ReceiptDues.ExplodedDue | packages/attribution-ledger/src/claimant-shares.ts:212-271 | every claimant's output units are the sum of what the receipts owe it: nothing without claimants, its ppm part where there are explicit shares, an equal part otherwise |
| ReceiptDues.ExplodedReceipts | packages/attribution-ledger/src/claimant-shares.ts:264-270 | an output claimant carries exactly the receipts that concern it |
| ReceiptDues.ExplodedClaimants | packages/attribution-ledger/src/claimant-shares.ts:264-270 | the output claimants are exactly those some receipt concerns |
| ReceiptDues.ExplodeFailsIff | packages/attribution-ledger/src/claimant-shares.ts:242-262 | the join fails exactly on a receipt without a record or with a claimant key that must be parsed and cannot be, and reports the first such receipt and its first such key |
| ReceiptDues.RecordOf | packages/attribution-ledger/src/claimant-shares.ts:217-220 | the last record of a receipt stands |
| ReceiptDues.SharesOf | packages/attribution-ledger/src/claimant-shares.ts:222-230 | the last explicit shares of a receipt stand |
| ExplodeConservation.ExplodeOutput | packages/attribution-ledger/src/claimant-shares.ts:264-270 | every output claimant prints to its own group key; keys are distinct and in order |
| ExplodeConservation.ExplodeUnits | packages/attribution-ledger/src/claimant-shares.ts:242-262 | a claimant's units are what the receipts contributed to its key |
| ExplodeConservation.ExplodeConserves | packages/attribution-ledger/src/claimant-shares.ts:212-387 | the output units sum to the units of all receipts with claimants, and none is negative |
| ExplodeConservation.ExplodeIgnoresReceiptOrder | packages/attribution-ledger/src/claimant-shares.ts:242-270 | rearranging receipts changes neither success nor any claimant's units |
| StatementPipeline.BuildStatement | packages/attribution-ledger/src/claimant-shares.ts:438-460 | overrides, join and statement lines in sequence are `Statement` |
| StatementPipeline.StatementPaysThePool | packages/attribution-ledger/src/claimant-shares.ts:73-194 | end to end: only a failed join stops it; credits sum to exactly the pool when pool and surviving units are positive, otherwise the statement is empty |
| StatementPipeline.StatementIgnoresReceiptOrder | packages/attribution-ledger/src/claimant-shares.ts:212-271 | rearranging the receipts changes neither whether there is a statement nor its numbers |
| TokenDistribution.RunGroupAllocations | packages/aragon-osx/src/token-distribution.ts:522-570 | the grouping loop and its four errors, in the order of its checks |
| TokenDistribution.GroupedCredits | packages/aragon-osx/src/token-distribution.ts:541-564 | each claimant's group holds the sum of its positive credits |
| TokenDistribution.LowerFolds | packages/aragon-osx/src/token-distribution.ts:377-377 | accounts fold together exactly when they differ in the case of letters only |
| TokenDistribution.BlankIffTrimmedAway | packages/aragon-osx/src/token-distribution.ts:528-528 | a key or id is rejected as blank exactly when trimming leaves nothing |
| TokenDistribution.AllocateTokenAmounts | packages/aragon-osx/src/token-distribution.ts:572-615 | largest-remainder amounts of the groups in claimant order |
| TokenDistribution.SplitEpochDeltaByCredits | packages/aragon-osx/src/token-distribution.ts:503-520 | guards, grouping and rounding yield `SplitEpochDelta` |
| TokenDistribution.FoldPriorBalances | packages/aragon-osx/src/token-distribution.ts:368-390 | the fold of prior balances by case-folded account, and their total |
| TokenDistribution.FoldEpochDeltas | packages/aragon-osx/src/token-distribution.ts:392-427 | the fold of the epoch's deltas, skipping zeros, and the mint |
| TokenDistribution.BuildDaoTokenCumulativeDistribution | packages/aragon-osx/src/token-distribution.ts:350-495 | the whole build with all its error branches is `Cumulative`; what its leaves hold and name is said in `CumulativeBalances` and `LeafNames` |
| TokenConservation.SplitIsApportion | packages/aragon-osx/src/token-distribution.ts:503-520 | a split with a positive amount and some positive credit succeeds and is the largest-remainder rounding of the claimants' credits |
| TokenConservation.GroupsIff | packages/aragon-osx/src/token-distribution.ts:527-565 | grouping succeeds exactly on lines with non-blank keys, valid accounts, non-negative credits and one account per positive claimant |
| TokenConservation.GroupingFails | packages/aragon-osx/src/token-distribution.ts:527-551 | grouping reports the first bad line, and what is wrong with it |
| TokenConservation.SplitSucceedsIff | packages/aragon-osx/src/token-distribution.ts:507-551 | a split succeeds exactly for a positive amount and such lines with some positive credit |
| TokenConservation.SplitConservesAmount | packages/aragon-osx/src/token-distribution.ts:497-520 | TOKEN_DISTRIBUTION_CONSERVES_AMOUNT: the deltas sum to exactly the amount |
| TokenConservation.MerkleAllocatesAll | packages/aragon-osx/src/token-distribution.ts:129-182 | `totalAllocated` equals `distributionAmount` |
| TokenConservation.SplitIsOptimal | packages/aragon-osx/src/token-distribution.ts:572-615 | no split of the same amount is closer to the exact proportional shares |
| TokenConservation.SplitIsFair | packages/aragon-osx/src/token-distribution.ts:572-615 | more credits never earn fewer tokens, equal credits differ by at most one, the smaller claimant key first, every amount is its share rounded down or up |
| TokenConservation.SplitAmountIs | packages/aragon-osx/src/token-distribution.ts:572-615 | every amount, exactly: the claimant's share rounded down, and one more while left-over units last, by fraction and then by key |
| TokenConservation.SplitCarries | packages/aragon-osx/src/token-distribution.ts:545-564 | a split pays into the account of the claimant's first positive line, for exactly the receipts of its positive lines |
| TokenConservation.SplitDependsOnCredits | packages/aragon-osx/src/token-distribution.ts:522-570 | TOKEN_DISTRIBUTION_DETERMINISTIC: on well-formed lines, success, claimants and amounts depend only on each claimant's credits, not on the order or splitting of lines |
| TokenConservation.SplitIgnoresOrder | packages/aragon-osx/src/token-distribution.ts:522-570 | a rearrangement of any lines is split exactly when the original is, into the same amounts |
| CumulativeBalances.CumulativeSpec | packages/aragon-osx/src/token-distribution.ts:350-478 | CUMULATIVE_CONSERVES_SUPPLY: one leaf per case-folded account, strictly sorted, each the sum of its priors and deltas; total is prior supply plus mint |
| CumulativeBalances.LeafPerAccount | packages/aragon-osx/src/token-distribution.ts:429-442 | an account has a leaf if and only if it earned something, and the leaf holds all it earned |
| LeafNames.LeafIsNamed | packages/aragon-osx/src/token-distribution.ts:377-437 | a leaf names the claimant of the first delta that brought its account tokens and names one, else the account itself; it spells the account as first spelled, and carries exactly the receipts of the deltas that brought it tokens |
| CumulativeBalances.CumulativeFailsIff | packages/aragon-osx/src/token-distribution.ts:353-478 | the build fails exactly on a bad manifest, a malformed entry or nothing to distribute; the supply guard never fires |
| CumulativeBalances.CumulativeError | packages/aragon-osx/src/token-distribution.ts:353-448 | which error: a bad manifest first, then the first bad prior, the first bad delta, and nothing to distribute last |
| CumulativeBalances.ManifestRejectedIff | packages/aragon-osx/src/token-distribution.ts:617-639 | a manifest is rejected exactly when one of its four ids trims to nothing or its token is no address |
| CumulativeBalances.TwoBuildsAreOne | packages/aragon-osx/src/token-distribution.ts:355-442 | folding deltas in two successive builds gives the same balances and mint as one build, and fails together with it |
| CumulativeBalances.RebuildIsStable | packages/aragon-osx/src/token-distribution.ts:335-466 | rebuilding from its own leaves without deltas mints nothing and repeats every leaf preimage in the same order |
| EpochDistribution.ResolveLines | packages/aragon-osx/src/epoch-distribution-service.ts:261-284 | the loops collect exactly the positive lines with a wallet, and the keys of those without |
| EpochDistribution.WalletIsLastAnswer | packages/aragon-osx/src/epoch-distribution-service.ts:261-264 | the resolver's last answer for a claimant stands |
| EpochDistribution.BuildCumulativeEpochDistribution | packages/aragon-osx/src/epoch-distribution-service.ts:222-358 | every guard, blocker and error branch: the result is `CumulativeEpoch` |
| EpochDistribution.BuildEpochDistribution | packages/aragon-osx/src/epoch-distribution-service.ts:97-191 | every guard, blocker and error branch of the one-shot variant: the result is `OneShotEpoch`, whose promises are the next rows |
| WalletBacking.OneShotPaysLinkedClaimants | packages/aragon-osx/src/epoch-distribution-service.ts:82-96 | EPOCH_DISTRIBUTION_NO_INVENTED_WALLET: there is a distribution exactly when there is a budget and some positive line has a wallet; its leaves sum to the budget and go to exactly the claimants of those lines, into their resolved wallets |
| WalletBacking.OneShotPaysShares | packages/aragon-osx/src/token-distribution.ts:142-157 | each one-shot leaf is its claimant's share of the linked credits rounded down or up, larger credits and then smaller keys first |
| WalletBacking.OneShotReports | packages/aragon-osx/src/epoch-distribution-service.ts:128-173 | `funding_amount_mismatch` exactly without a budget; `claimants_unresolved`, with exactly the claimants meant, if and only if some positive line has no wallet; `manifest_missing` exactly when no line is positive |
| WalletBacking.OneShotSucceedsIff | packages/aragon-osx/src/epoch-distribution-service.ts:155-184 | it throws exactly when someone can be paid and the manifest, a claimant key or a wallet is malformed |
| WalletBacking.CumulativePaysLinkedClaimants | packages/aragon-osx/src/epoch-distribution-service.ts:217-221 | EPOCH_DISTRIBUTION_NO_INVENTED_WALLET: every cumulative leaf is for a prior account or the resolved wallet of a positive line's claimant; a leaf with new tokens names such a claimant of its account, one without names the account |
| WalletBacking.CumulativeReports | packages/aragon-osx/src/epoch-distribution-service.ts:230-310 | the same three blockers and the unresolved keys, exactly, whenever the resolver is asked; and when there is a distribution |
| WalletBacking.PendingLinesOnlyScale | packages/aragon-osx/src/epoch-distribution-service.ts:312-340 | lines without a wallet only scale the mint: the distribution is the one of the other lines alone with the resolved mint, in amounts, accounts, claimants and receipts |
| WalletBacking.SplitPaysLines | packages/aragon-osx/src/epoch-distribution-service.ts:128-144 | a split of the resolved lines pays exactly their claimants, into their wallets |
| LateLinking.NoMultipleAccounts | packages/aragon-osx/src/token-distribution.ts:545-551 | with one wallet per claimant key the multiple-accounts error cannot occur |
| LateLinking.SplitOfMultiple | packages/aragon-osx/src/epoch-distribution-service.ts:312-340 | when the amount is k times the credits, every claimant gets exactly k times its credits |
| LateLinking.GroupThenRegroup | packages/aragon-osx/src/token-distribution.ts:408-426 | grouping by claimant before folding by account does not change what an account receives |
| LateLinking.AccountEarnsItsCredits | packages/aragon-osx/src/epoch-distribution-service.ts:312-351 | late-link independence: when the mint is k times the epoch's credits, every account's cumulative amount is what it was plus k times its own resolved credits, whoever else is unresolved, its leaf shows those as the delta, and the epoch mints k times the resolved credits |
| LateLinking.MintNeverExceeds | packages/aragon-osx/src/epoch-distribution-service.ts:325-340 | in general an epoch mints the resolved credits' share of the mint, rounded down, never more than the mint |
| MoneyPath.SignedStatement | packages/attribution-ledger/src/claimant-shares.ts:73-194 | a statement with something to pay carries exactly the pool, in non-negative credits under non-blank keys |
| MoneyPath.MultipleIsDistributed | packages/aragon-osx/src/epoch-distribution-service.ts:312-351 | with well-formed inputs and a mint that is a positive multiple of the credits, one linked positive line is enough for a distribution |
| MoneyPath.EveryoneIsPaid | packages/aragon-osx/src/epoch-distribution-service.ts:204-221 | from receipt weights to cumulative balances: with k base units a credit every account gains exactly k times the statement credits paid into it, and the mint is k times the pool if and only if no positive line is without a wallet |
| DistributorRuns.StepKeepsInv | packages/aragon-osx/src/token-distribution.ts:335-349 | finalize, mint, publish and claim each keep the distributor solvent and every account accounted for |
| DistributorRuns.EpochBecomesClaimable | packages/aragon-osx/src/token-distribution.ts:335-349 | once finalized, minted and published an epoch's leaves are the published ones and its mint is in the distributor; published before minting, the root stays |
| DistributorRuns.ClaimPaysIff | packages/node-contracts/src/attribution.latest-distribution.v1.contract.ts:9-10 | a claim pays cumulative minus claimed exactly when it is for a published leaf, that is positive and the tokens are there; otherwise it changes nothing |
| DistributorRuns.AlwaysSolvent | packages/aragon-osx/src/token-distribution.ts:335-495 | over every run the balance covers the total unclaimed, which is never negative, and equals it once everything finalized is minted and published |
| DistributorRuns.ClaimAlwaysPays | packages/node-contracts/src/attribution.latest-distribution.v1.contract.ts:9-10 | a claim of the published amount always pays cumulative minus already received |
| DistributorRuns.CumulativeNeverFalls | packages/aragon-osx/src/token-distribution.ts:335-349 | no account's cumulative amount falls over any run |
| DistributorRuns.SchedulesPayTheSame | packages/node-contracts/src/attribution.latest-distribution.v1.contract.ts:9-10 | two runs with the same epochs and different claim schedules pay the same total after a final claim |
| EnricherOrder.Search.constructor | packages/attribution-pipeline-contracts/src/ordering.ts:44-57 | all nodes start unvisited |
| EnricherOrder.Search.Visit | packages/attribution-pipeline-contracts/src/ordering.ts:59-74 | terminates; in-progress nodes are exactly the path; a reported slice is a genuine cycle; otherwise the node and all it needs are finished |
| EnricherOrder.Search.Enter | packages/attribution-pipeline-contracts/src/ordering.ts:68-68 | marking an unvisited node extends the path by it and leaves fewer unvisited nodes |
| EnricherOrder.Search.Finish | packages/attribution-pipeline-contracts/src/ordering.ts:73-73 | a node is done only after everything it depends on |
| EnricherOrder.FinishedIsAcyclic | packages/attribution-pipeline-contracts/src/ordering.ts:76-78 | if every node finishes the graph has no cycle |
| EnricherOrder.FindMissing | packages/attribution-pipeline-contracts/src/ordering.ts:30-41 | reports the first dependency that is not listed, or all are |
| EnricherOrder.FindCycle | packages/attribution-pipeline-contracts/src/ordering.ts:43-78 | reports a genuine cycle if and only if the graph has one |
| EnricherOrder.FindOutOfOrder | packages/attribution-pipeline-contracts/src/ordering.ts:80-104 | reports the first dependency out of order, or none is |
| EnricherOrder.InOrderIsAcyclic | packages/attribution-pipeline-contracts/src/ordering.ts:80-104 | a respected order already excludes missing references and cycles |
| EnricherOrder.InOrderMeansEarlier | packages/attribution-pipeline-contracts/src/ordering.ts:80-104 | for distinct references the order check means that every dependency is listed strictly earlier |
| EnricherOrder.ValidateEnricherOrder | packages/attribution-pipeline-contracts/src/ordering.ts:27-105 | accepts exactly the lists in order; a reported missing reference, cycle or misplaced dependency is genuine, and each is reported only when the earlier checks pass |
| CanonicalJson.RebuildObject | packages/attribution-ledger/src/hashing.ts:43-47 | assigning sorted keys one by one rebuilds the object in key order without `__proto__` |
| CanonicalJson.PrintedIsRead | packages/attribution-ledger/src/hashing.ts:40-40 | round trip: a reader written after RFC 8259 reads the text of a value back to the value, and leaves what follows it |
| CanonicalJson.StringIsRead | packages/attribution-ledger/src/hashing.ts:40-40 | the same for strings: every escape is read back to its character |
| CanonicalJson.EscapeShape | packages/attribution-ledger/src/hashing.ts:40-40 | only quotation marks, backslashes and control characters are escaped, as briefly as possible and in lower case |
| CanonicalJson.PrintInjective | packages/attribution-ledger/src/hashing.ts:40-40 | the text of a value followed by anything structural determines the value and what follows |
| JsonEquality.CanonEqualIff | packages/attribution-ledger/src/hashing.ts:40-50 | the replacer maps two values to the same one if and only if they are equal up to key order at every depth, BigInt as text |
| JsonEquality.CanonIsSorted | packages/attribution-ledger/src/hashing.ts:33-47 | the keys of every object are in strict order at every depth |
| JsonEquality.CanonicalTextIff | packages/attribution-ledger/src/hashing.ts:31-51 | CANONICAL_JSON: two texts are equal if and only if the values are the same, `__proto__` properties aside |
| JsonEquality.CanonicalTextIdentifies | packages/attribution-ledger/src/hashing.ts:31-51 | without `__proto__` keys the text identifies the value up to key order |
| JsonEquality.ProtoPropertyIsNotPrinted | packages/attribution-ledger/src/hashing.ts:43-46 | with one it does not |
| AllocationPreimage.PreimageOfMap | packages/attribution-ledger/src/hashing.ts:142-157 | the text depends only on the map from key to units, not on the order of the allocations |
| AllocationPreimage.PreimageIff | packages/attribution-ledger/src/hashing.ts:136-159 | for distinct keys that lack the newline, the colon or every digit, equal texts mean equal maps, and conversely |
| AllocationPreimage.IdentifiesIff | packages/attribution-ledger/src/hashing.ts:136-159 | for any set of characters allowed in keys: the text identifies every distinct allocation set if and only if the newline, the colon or every digit is not among them |
| AllocationPreimage.AllocationKeyNamesClaimant | packages/attribution-ledger/src/hashing.ts:151-154 | keys name claimants up to the login when user ids do not start with `identity:` and providers have no colon |
| AllocationPreimage.KeysCollide | packages/attribution-ledger/src/hashing.ts:149-157 | with a newline, a colon and a digit allowed, under any order one user id gives the text of two other users |
| Decimal.PrintedIntegers | packages/attribution-ledger/src/hashing.ts:41-41 | printing BigInts is injective |
| EpochWindow.UtcDateIsDateUtc | packages/attribution-ledger/src/epoch-window.ts:45-47 | the day `Date.UTC` gives for the date of a day, for every date of the calendar: itself, or in the years 0 to 99 a day about 1900 years later |
| EpochWindow.MondayFloors | packages/attribution-ledger/src/epoch-window.ts:42-47 | outside the years 0 to 99 an instant is floored to the Monday 00:00 UTC of its week; within them to a Tuesday or Wednesday of 1899 to 1999 |
| EpochWindow.WindowContainsMonday | packages/attribution-ledger/src/epoch-window.ts:49-58 | a window has the asked length, lies on the grid of the anchor and contains the floored day, so outside the years 0 to 99 the Monday of the instant's week, before and after the anchor |
| EpochWindow.WindowExists | packages/attribution-ledger/src/epoch-window.ts:55-58 | printing fails only within one period and a week of the ends of the Date range |
| EpochWindow.WholeWeeks | packages/attribution-ledger/src/epoch-window.ts:30-35 | whole weeks: windows start and end on a Monday 00:00 UTC |
| EpochWindow.ContainsEveryInstantIff | packages/attribution-ledger/src/epoch-window.ts:37-59 | every instant outside the years 0 to 99 that has a window lies in it if and only if the length is a multiple of seven days, or too long for a period to end after the anchor |
| EpochWindow.MissedInstant | packages/attribution-ledger/src/epoch-window.ts:49-53 | for any other length the first boundary after the anchor is missed |
| EpochWindow.EarlyInstantContainedIff | packages/attribution-ledger/src/epoch-window.ts:45-53 | an instant of the years 0 to 99 lies in its window if and only if the one period before the anchor reaches back to it |
| EpochWindow.YearFifty | packages/attribution-ledger/src/epoch-window.ts:45-58 | 0050-03-01 with weekly epochs gets the window 1950-02-27 to 1950-03-06 |
| EpochWindow.WindowsDoNotOverlap | packages/attribution-ledger/src/epoch-window.ts:51-58 | the windows of any two instants are equal or disjoint, in the order of their floored days |
| EpochWindow.WindowsMoveForward | packages/attribution-ledger/src/epoch-window.ts:51-58 | outside the years 0 to 99 windows move forward with the instant |
| EpochWindow.EarlyWindowsComeLater | packages/attribution-ledger/src/epoch-window.ts:45-58 | an instant of the year 50 has a later window than one of the year 1000 |
| EpochWindow.WindowsTile | packages/attribution-ledger/src/epoch-window.ts:51-58 | for whole weeks the next window starts where this one ends, unless that is in the years 0 to 99 |
| IdentityDatabase.Database.FindBinding | app/src/auth.ts:408-413 | the binding of the account, if any |
| IdentityDatabase.Database.ConsumeLinkTransaction | app/src/auth.ts:107-127 | one statement checks all five conditions and marks the row, or changes nothing; `ConsumesIff` spells them out |
| IdentityDatabase.Database.CreateBinding | app/src/adapters/server/identity/create-binding.ts:36-69 | binding and event are inserted together or both skipped; an existing owner is never replaced |
| IdentityDatabase.Database.CreateUserWithBinding | app/src/auth.ts:547-586 | user, binding and event are inserted together, or the user row is rolled back |
| IdentityDatabase.Database.UpdateLogin | app/src/auth.ts:458-467 | only the login of the account's binding changes |
| IdentityDatabase.BoundIsConsistent | packages/db-schema/src/identity.ts:58-61 | inserting or skipping a binding keeps references, evidence and owners |
| IdentityDatabase.FirstLoginIsConsistent | app/src/auth.ts:538-586 | a first login leaves no user without a binding and changes no owner |
| SignIn.HandleSignIn | app/src/auth.ts:389-536 | the callback as one call takes exactly the steps of the protocol |
| SignIn.SignInNewUser | app/src/auth.ts:538-622 | creation, the lost race and its winner, whatever happened since the lookup |
| SignIn.StepKeepsInv | app/src/auth.ts:389-623 | every database call of every callback, whether it works, throws or takes effect and loses its reply, and every outside write keep the invariant |
| SignIn.OwnerNeverChanges | packages/db-schema/src/identity.ts:58-61 | over every interleaving an external account has at most one owner, who never changes |
| SignIn.LinkConsumedOnce | app/src/auth.ts:107-127 | no two callbacks of a run consume the same link transaction |
| SignIn.ConsumesIff | app/src/auth.ts:107-127 | a link callback passes its consuming call exactly when the row is there, is this user's and this provider's, was never consumed and has not expired; else it ends in `link_failed` and writes nothing |
| SignIn.EveryOutcome | app/src/auth.ts:389-623 | a link callback ends in rejection or a session for its transaction's user, who owned it, for this provider, and consumed it before it expired; any other success is a session for the binding's owner; "no winner found" is unreachable |
| SignIn.NoOrphanUsers | app/src/auth.ts:538-586 | every user a sign-in creates has a binding, and every binding exactly one event naming its owner |
| SignIn.LinkOwnsAccountIff | app/src/auth.ts:493-536 | after a link reported as done, the account is its user's, then and ever after, if and only if it was unbound or that user's at the insert |
| SignIn.LinkLosesAccount | app/src/auth.ts:493-536 | a run in which a first login takes the account and the link still succeeds |
| SignIn.UndisturbedSignInIsOwner | app/src/auth.ts:389-623 | with nothing in between, every session is for the owner of the account |
| SignIn.UndisturbedDecision | app/src/auth.ts:389-623 | with nothing in between, the whole decision table and everything written: users, bindings with their logins, events and link transactions |
| McpCache.McpConnectionCache.constructor | app/src/bootstrap/graph-executor.factory.ts:331-338 | nothing is cached and nothing connects |
| McpCache.McpConnectionCache.GetSource | app/src/bootstrap/graph-executor.factory.ts:345-357 | a fresh connection is served; otherwise callers share one attempt, started if there is none |
| McpCache.McpConnectionCache.Invalidate | app/src/bootstrap/graph-executor.factory.ts:363-372 | the cached connection is closed and dropped |
| McpCache.McpConnectionCache.Connect | app/src/bootstrap/graph-executor.factory.ts:387-398 | the previous connection is closed; without servers the attempt ends at once |
| McpCache.McpConnectionCache.ConnectSucceeds | app/src/bootstrap/graph-executor.factory.ts:401-423 | the new connection is cached |
| McpCache.McpConnectionCache.ConnectFails | app/src/bootstrap/graph-executor.factory.ts:424-427 | the attempt ends without a connection |
| McpCache.McpConnectionCache.Settle | app/src/bootstrap/graph-executor.factory.ts:352-354 | the next caller may connect again |
| McpCache.McpConnectionCache.StartClose | app/src/bootstrap/graph-executor.factory.ts:375-379 | shutdown closes the cached connection but does not drop it yet |
| McpCache.McpConnectionCache.EndClose | app/src/bootstrap/graph-executor.factory.ts:380-384 | whatever is cached by then is dropped |
| McpCache.StepKeepsInv | app/src/bootstrap/graph-executor.factory.ts:345-427 | every step other than shutdown keeps one attempt at most and every connection accounted for |
| McpCache.NeverLeaks | app/src/bootstrap/graph-executor.factory.ts:330-428 | over every run without shutdown at most one attempt is in flight, and every connection ever opened is the cached one, still open, or was closed exactly once |
| McpCache.NeverOverwrites | app/src/bootstrap/graph-executor.factory.ts:410-414 | a successful attempt never replaces a cached connection |
| McpCache.NextRequestReconnects | app/src/bootstrap/graph-executor.factory.ts:345-357 | MCP_RECONNECT_ON_ERROR: without a fresh connection or an attempt under way the next request closes the old one and starts an attempt that later requests share; success is cached, and either way a later request may connect again |
| McpCache.ServedForItsLifetime | app/src/bootstrap/graph-executor.factory.ts:347-349 | MCP_NOT_SINGLETON: a connection is served for its time to live and not a moment longer |
| McpCache.NothingConfigured | app/src/bootstrap/graph-executor.factory.ts:391-398 | without servers nothing is opened and the attempt ends |
| McpCache.ServedConnectionIsOpen | app/src/bootstrap/graph-executor.factory.ts:347-349 | a connection served from the cache is open |
| McpCache.SharedConnectionIsOpenIff | app/src/bootstrap/graph-executor.factory.ts:352-357 | a connection received through a shared attempt is open when used if and only if nothing dropped it since the attempt succeeded |
| McpCache.CloseAccountsForAllIff | app/src/bootstrap/graph-executor.factory.ts:375-385 | shutdown leaves every connection accounted for if and only if nothing drops the connection while it awaits |
| McpCache.ShutdownRace | app/src/bootstrap/graph-executor.factory.ts:375-385 | a run from the empty cache in which one connection is closed twice and another is never closed |

## Left out

- Hashing and trees: keccak, SHA-256 and the Merkle tree are not modelled; a leaf stands for its preimage, the root is a function of the leaf list, and a proof is membership of the leaf.
- The distributor contract: its Solidity source is not part of this model; the claim step follows the stated rule and the errors of its ABI (packages/cogni-contracts/src/cumulative-merkle-distributor/abi.ts).
- Collation: a comparator for which distinct strings tie is not modelled, so neither is the Map insertion order that would then decide.
- Strings: characters are Unicode scalar values; lone surrogates are not modelled, and `toLowerCase` is ASCII, which is what addresses contain.
- Receipt id lists and unresolved key lists are sets, so their sorted order is not stated.
- CanonicalJson: `undefined`, non-finite numbers, `toJSON` and cyclic values are not modelled; a number is the text the runtime prints for it, which the reader takes as far as number characters go, and the order of integer-like keys is covered because any listing order of the rebuilt object is allowed.
- `computeArtifactsHash`, `computeWeightConfigHash` and `computeAllocationSetHash`: further uses of the same two encoders.
- Review override snapshots, pools, weights and validation helpers: small branch tables and counters.
- Token settlement, tokenomics and supply parsing: guards on numbers.
- EpochWindow: reading and printing ISO text; the length is an integer number of days.
- SignIn: the wallet and operator-attested providers end before the callback and appear only as outside writes; telemetry, the reconciliation after a link, profile rows and the wallet address of the session are not modelled; bindings and users are never deleted.
- HandleSignIn: states the run in which no other callback comes in between; the interleavings are in the step functions, which `SignInNewUser` follows from any database.
- McpCache: whether closing a connection itself fails, and a failure reading the configuration, which rejects the attempt; the source object is its connection.
- AccountEarnsItsCredits: for mints that are not a multiple of the credits only `MintNeverExceeds` is stated, since rounding then does depend on who is resolved.
