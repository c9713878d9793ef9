# RSAC reward pipeline — a Dafny model

RSAC pays its members daily rewards in USDT, computed from the fee records
their purchases generate. The pipeline has four stages and a registration
endpoint that hands out the referral codes the stages key on.

1. **Commission rewards** (`calculateFeeRewards`). Each fee record with a
   positive commission credits up to three people: the payer (level 0), the
   payer's referrer `ref_by` (level 1) and that referrer's referrer `ref_by2`
   (level 2). Each gets a percentage of the commission, taken from the reward
   settings. The rows go into `reward_invites` in chunks of 1000.
2. **Center rewards** (`calculateCenterRewards`). Each fee record with a
   commission or tuition credits the center named by its `center_code`, plus
   that center's master and grand centers when they exist. The credits are
   summed per (leader ref code, reward date). Keys with a positive sum go into
   `reward_centers` in chunks of 1000.
3. **Transfer building** (`buildRewardTransfers`). Both ledgers are merged
   into one `reward_transfers` row per ref code. Each row carries the invite
   sum, the two center sums and their total. Name and wallet are taken from
   the first row that has them. The row is dated with the run day and
   `pending`.
4. **Disbursement**, by either of two engines:
   - `sendRewardUSDT` pays every pending row of the day. It sets the row to
     `completed` with its transaction hash, or to `failed` with a memo of at
     most 100 characters, and counts the successes and the failures.
   - `POST /api/send-rewards` pays every pending or failed row of the day
     that has a positive total and a wallet. It records `success` or
     `failed`, with the hash or the error, on the rows of the same ref code
     and day, and answers with the list of attempts.

`POST /api/register` validates the wallet and lower-cases it. It returns the
existing user for a known wallet. For a new wallet it hands out the first free
referral code `RS10000`, `RS10001`, … and inserts the user, applying the
body's defaults.

## Structure

The database, the clock and the transfer client are outside the model.
- **Loaded data is a parameter.** Settings, fee records, centers and ledgers
  are `Option` values, with `None` meaning the load failed.
- **Tables are classes.** `Table`, `TransferTable` and `UserTable` have a
  field of rows. Their methods choose freely between success and refusal,
  and state the exact new rows in each case. Each table also keeps a ghost
  log of what it answered: the batches sent to `Table`, the answer of each
  `TransferTable` select, and the answer of each `UserTable` lookup and
  insert. The handlers' contracts tie every error they report to a failed
  answer in those logs.
- **The transfer client is a class.** `TransferClient` logs every call and
  its outcome. The outcome is chosen freely.
- **Times are parameters.** The run day and the time stamps are passed in.

Each loop of the source is a method with invariants. The loop's result is tied
to a specification function: `ExpandFees`, `Fold`, `AggFold`, `SettleAll`,
`RecordAll` or the least free code. The properties the source promises are
then proved as lemmas about those functions.

Some functions only define a step and are not listed under "## Model".
Their behaviour is proved by the lemmas named here:
- `Storage.PatchById` and `Storage.PatchByRefDate`: the updates keyed by id
  and by (ref code, day), proved by `SettleAllEffect` and `RecordAllEffect`.
- `Storage.Outcomes` and `Storage.Calls`: read the transfer log, proved by
  `OutcomesOfCalls`.
- `FeeRewards.FeeRows`: proved by `FeeRowsShape` and `FeeRowsLevels`.
- `CenterRewards.EntriesFor`: proved by `FoldEntries`.
- `RewardTransfers.InviteCredits` and `RewardTransfers.CenterCredits`: proved
  by `PayableRowsAmounts`.
- `SendRewardsRoute.Results`: proved by `DispatchAll`.
- `Registration.Defaulted` and `Registration.FinalName`: proved by
  `NewUserFields` and `FinalNameSpec`.
- `Registration.Lower`: proved by `LowerNormalizes`.

| file | module | source |
|---|---|---|
| `records.dfy` | `Records` | the rows and settings the stages share |
| `storage.dfy` | `Storage` | tables, chunked insert, transfer client, updates of `reward_transfers` |
| `grouping.dfy` | `Grouping` | keys in first-appearance order, per-key sums, conservation of totals |
| `fee_rewards.dfy` | `FeeRewards` | `src/lib/rewards/calculateFeeRewards.ts` |
| `center_rewards.dfy` | `CenterRewards` | `src/lib/rewards/calculateCenterRewards.ts` |
| `reward_transfers.dfy` | `RewardTransfers` | `src/lib/rewards/buildRewardTransfers.ts` |
| `send_reward_usdt.dfy` | `RewardPayout` | `src/lib/rewards/sendRewardUSDT.ts` |
| `send_rewards_route.dfy` | `SendRewardsRoute` | `src/app/api/send-rewards/route.ts` |
| `register.dfy` | `Registration` | `src/app/api/register/route.ts` |

## Model

| member | source | states |
|---|---|---|
| Storage.Table.Insert | src/lib/rewards/calculateFeeRewards.ts:79 | one bulk insert sends its batch, which the batch log records, and stores the whole batch or nothing |
| Storage.ChunksPartition | src/lib/rewards/calculateFeeRewards.ts:76-78 | the chunks of 1000, joined in order, give back the rows. Each chunk is non-empty and at most 1000 rows long, and every chunk but the last is exactly 1000 rows |
| Storage.ChunksSnoc | src/lib/rewards/calculateFeeRewards.ts:76-78 | after a multiple of 1000 rows, one more batch of at most 1000 rows is one more chunk |
| Storage.InsertInChunks | src/lib/rewards/calculateFeeRewards.ts:76-83 | the batches sent are the chunks of 1000, in order. On success every chunk is sent and all rows are stored. On the first refusal the chunks before `insertedUntil` and the refused chunk are sent, and exactly the rows before `insertedUntil` are stored, and `insertedUntil` is a multiple of 1000 inside the rows |
| Storage.TransferClient.Transfer | src/lib/rewards/sendRewardUSDT.ts:33 | each `sendUSDT` call is logged with its wallet, its amount and its outcome |
| Storage.Apply | src/lib/rewards/sendRewardUSDT.ts:39-60 | an update never changes a row's id, ref code, reward date, wallet or total |
| Storage.Selected | src/lib/rewards/sendRewardUSDT.ts:10-14 | the select returns exactly the rows of the given day whose status is one of those asked for |
| Storage.SelectedInTableOrder | src/lib/rewards/sendRewardUSDT.ts:10-14 | the selected rows are table rows at strictly increasing positions, so the select keeps table order |
| Storage.SelectedIndicesComplete | src/lib/rewards/sendRewardUSDT.ts:10-14 | every row of the day with an asked-for status is at one of the selected positions |
| Storage.SelectedUnique | src/lib/rewards/sendRewardUSDT.ts:10-14 | a select of a table with distinct ids has distinct ids |
| Storage.OutcomesOfCalls | src/lib/rewards/sendRewardUSDT.ts:28-33 | the outcomes read back from a run's calls are the outcomes the run got |
| Storage.TransferTable.Select | src/app/api/send-rewards/route.ts:16-20 | the select's answer is logged and the rows are unchanged. A select that succeeds returns `Selected` of the current rows |
| Storage.TransferTable.UpdateById | src/lib/rewards/sendRewardUSDT.ts:39-60 | the new rows are `PatchById` of the old ones |
| Storage.TransferTable.UpdateByRefDate | src/app/api/send-rewards/route.ts:53-62 | the new rows are `PatchByRefDate` of the old ones |
| Grouping.KeysSpec | src/lib/rewards/buildRewardTransfers.ts:37-64 | a map keyed by insertion order holds each key exactly once, and a key is present exactly when some contribution carries it |
| Grouping.SumForAbsent | src/lib/rewards/buildRewardTransfers.ts:55-64 | a key without contributions sums to zero |
| Grouping.FirstOfKey | src/lib/rewards/buildRewardTransfers.ts:39-53 | a key has a first contribution exactly when it is one of the keys |
| Grouping.SumOverKeysSnoc | src/lib/rewards/buildRewardTransfers.ts:55-64 | one more contribution adds its value once to the sum over distinct listed keys |
| Grouping.GroupingConserves | src/lib/rewards/buildRewardTransfers.ts:55-64 | the per-key sums, added over all keys, equal the sum over all contributions |
| Grouping.SumForAppend | src/lib/rewards/buildRewardTransfers.ts:55-64 | per-key sums over a concatenation add up |
| Grouping.TotalAppend | src/lib/rewards/buildRewardTransfers.ts:55-64 | totals over a concatenation add up |
| Grouping.SumForZero | src/lib/rewards/buildRewardTransfers.ts:57 | contributions worth zero add nothing to any key |
| Grouping.TotalZero | src/lib/rewards/buildRewardTransfers.ts:57 | contributions worth zero add nothing to the total |
| FeeRewards.FeeRowsShape | src/lib/rewards/calculateFeeRewards.ts:28-70 | at most three rows per fee. Each row credits the beneficiary of its level (payer, `ref_by`, `ref_by2`) with `commission * rate / 100`, where the rate is that level's (`self_rate`, `ref1_rate`, `ref2_rate`). Each row carries the fee's own reward date and the run time. The self row copies the payer's name and wallet with the self memo; referrer rows have no name or wallet and carry their level's memo |
| FeeRewards.FeeRowsLevels | src/lib/rewards/calculateFeeRewards.ts:31-70 | the levels come in increasing order. Level 0 is credited iff the commission is positive and the self rate is non-zero. Level 1 and level 2 are credited iff, in addition, `ref_by` or `ref_by2` respectively is present |
| FeeRewards.ExpandFeesBound | src/lib/rewards/calculateFeeRewards.ts:24-71 | a run yields at most three rows per fee record |
| FeeRewards.ExpandFeesOrigin | src/lib/rewards/calculateFeeRewards.ts:24-71 | every computed row is a row of one of the fee records |
| FeeRewards.ExpandFeesEmpty | src/lib/rewards/calculateFeeRewards.ts:73 | nothing is computed iff no fee record yields a row |
| FeeRewards.PushFeeRows | src/lib/rewards/calculateFeeRewards.ts:25-70 | one loop pass appends exactly the fee's rows |
| FeeRewards.ComputeFeeRows | src/lib/rewards/calculateFeeRewards.ts:23-71 | the loop computes `ExpandFees`: each fee's rows, in fee order |
| FeeRewards.CalculateFeeRewards | src/lib/rewards/calculateFeeRewards.ts:7-86 | each error is returned exactly when its cause holds, and leaves the table and the batch log unchanged: missing settings, failed fee load, no fees, nothing computed. Otherwise the run either succeeds or reports a refused chunk. Success stores all rows, sends them as chunks of 1000 and returns their count. A refused chunk returns `insertedUntil`, with exactly that prefix stored and its chunks plus the refused one sent |
| CenterRewards.LastWith | src/lib/rewards/calculateCenterRewards.ts:28-29 | a `Map` lookup finds a center with the key, and misses only when none has it |
| CenterRewards.LastWithIsLast | src/lib/rewards/calculateCenterRewards.ts:28-29 | the lookup answers the last center with the key, because a later entry overwrites an earlier one |
| CenterRewards.Leaders | src/lib/rewards/calculateCenterRewards.ts:55-63 | the own center comes first, with the center and tuition rates. The master and the grand center follow, each present iff its parent id names a center, each with its own commission rate and no tuition rate. The master is the center the lookup finds for `parent_master`, and the grand center is the one it finds for `parent_grand`. Every leader's ref code belongs to a center |
| CenterRewards.LeaderSharesResolve | src/lib/rewards/calculateCenterRewards.ts:66-68 | every credit goes to a ref code that names a center |
| CenterRewards.AllSharesResolve | src/lib/rewards/calculateCenterRewards.ts:45-87 | over all fees, every credit goes to a ref code that names a center |
| CenterRewards.LeaderSharesComplete | src/lib/rewards/calculateCenterRewards.ts:66-86 | when every leader names a center, each leader gets exactly one credit, in order: `fee * rate_fee / 100` and `tuition * rate_tuition / 100` |
| CenterRewards.FeeSharesSpec | src/lib/rewards/calculateCenterRewards.ts:45-86 | a fee contributes nothing iff it is skipped (no amounts, no center code or date, unknown center). Otherwise it credits each of its leaders with its share. The own center gets `fee * rate_fee / 100` and `tuition * rate_tuition / 100`. The master and the grand center get `fee * rate / 100` at their own commission rate |
| CenterRewards.KeysResolve | src/lib/rewards/calculateCenterRewards.ts:67-68 | every credited key names a center |
| CenterRewards.ExpectedSnoc | src/lib/rewards/calculateCenterRewards.ts:70-85 | one more credit changes only the entry of its own key, by its amounts |
| CenterRewards.ExpectedFresh | src/lib/rewards/calculateCenterRewards.ts:71-81 | a key not yet credited starts from the leader's center data with zero sums |
| CenterRewards.AccrueStep | src/lib/rewards/calculateCenterRewards.ts:70-85 | one `rewardMap.set` keeps the map equal to the per-key sums of the credits seen |
| CenterRewards.FoldAccumulates | src/lib/rewards/calculateCenterRewards.ts:45-87 | after all credits, the map holds exactly one value per credited key, with that key's sums |
| CenterRewards.FoldEntries | src/lib/rewards/calculateCenterRewards.ts:90 | listing the map gives one entry per credited key, in order of first credit |
| CenterRewards.CreditKey | src/lib/rewards/calculateCenterRewards.ts:70-85 | one inner pass is one `Accrue` step |
| CenterRewards.AccrueLeaders | src/lib/rewards/calculateCenterRewards.ts:66-86 | the inner loop folds the fee's leader credits into the map, skipping unknown leaders |
| CenterRewards.AccumulateCenterRewards | src/lib/rewards/calculateCenterRewards.ts:45-90 | the loop yields one entry per credited (leader, date) key, in order of first credit, each holding that key's sums. Every credit resolves to a center |
| CenterRewards.RowsOfSpec | src/lib/rewards/calculateCenterRewards.ts:90-102 | the stored rows are exactly the entries with a positive sum, each turned into a row |
| CenterRewards.CenterRowsSound | src/lib/rewards/calculateCenterRewards.ts:45-102 | every stored row is the entry of a credited key: the leader's center data and that key's sums, at least one of them positive |
| CenterRewards.CenterRowsComplete | src/lib/rewards/calculateCenterRewards.ts:45-102 | every credited key with a positive sum is stored |
| CenterRewards.RowsOfDistinct | src/lib/rewards/calculateCenterRewards.ts:90-91 | filtering keeps distinct keys distinct |
| CenterRewards.CenterRowsDistinct | src/lib/rewards/calculateCenterRewards.ts:31-102 | no (leader, date) key is stored twice by one run |
| CenterRewards.EntriesConserve | src/lib/rewards/calculateCenterRewards.ts:83-90 | the entries' fee and tuition sums equal the sums over all credits |
| CenterRewards.EntriesSumOverKeys | src/lib/rewards/calculateCenterRewards.ts:83-90 | the entries' sums equal the per-key sums added over the keys |
| CenterRewards.CalculateCenterRewards | src/lib/rewards/calculateCenterRewards.ts:7-117 | each error is returned exactly when its cause holds, and leaves the table and the batch log unchanged: settings, fee load, no fees, center load, no centers. A run without rows stores nothing and reports 0. Otherwise the run either succeeds or reports a refused chunk. All rows are stored, sent as chunks of 1000, and counted. Or exactly the prefix before a refused chunk is stored, with its chunks plus the refused one sent |
| RewardTransfers.UpsertAggSpec | src/lib/rewards/buildRewardTransfers.ts:39-53 | `ref` gets a value, and a new ref is appended with zero sums. Other values are unchanged. A present name or wallet is never overwritten, and an empty one is filled from a present argument |
| RewardTransfers.AggFoldSnoc | src/lib/rewards/buildRewardTransfers.ts:55-64 | the fold over the credits absorbs them one at a time, in order |
| RewardTransfers.FirstIsPresent | src/lib/rewards/buildRewardTransfers.ts:49-50 | the first non-empty name or wallet, once found, is non-empty |
| RewardTransfers.ExpectedFresh | src/lib/rewards/buildRewardTransfers.ts:40-47 | a ref with no credits has the fresh value |
| RewardTransfers.ExpectedSnoc | src/lib/rewards/buildRewardTransfers.ts:55-64 | one more credit changes only its own ref's merged value |
| RewardTransfers.AbsorbStep | src/lib/rewards/buildRewardTransfers.ts:55-64 | one loop pass keeps `agg` equal to the merged values of the credits seen |
| RewardTransfers.AggFoldMerged | src/lib/rewards/buildRewardTransfers.ts:55-64 | after all credits, `agg` holds exactly one merged value per ref code |
| RewardTransfers.AbsorbInvite | src/lib/rewards/buildRewardTransfers.ts:56-57 | an invite pass is one upsert, then the invite sum grows |
| RewardTransfers.AbsorbCenter | src/lib/rewards/buildRewardTransfers.ts:61-63 | a center pass is one upsert, then the two center sums grow |
| RewardTransfers.MergeByRef | src/lib/rewards/buildRewardTransfers.ts:37-64 | the two loops compute `AggFold` over all invites, then all center rewards |
| RewardTransfers.RowsOfFold | src/lib/rewards/buildRewardTransfers.ts:67-79 | the rows of `agg` are the payable rows of the two ledgers |
| RewardTransfers.SeenCredit | src/lib/rewards/buildRewardTransfers.ts:55-64 | a ref code appears in a ledger iff some credit carries it |
| RewardTransfers.PayableRowsPerRef | src/lib/rewards/buildRewardTransfers.ts:66-79 | exactly one row per ref code found in either ledger, and no other rows |
| RewardTransfers.PayableRowsAmounts | src/lib/rewards/buildRewardTransfers.ts:67-79 | the invite sum counts only the ref's invite rows, and the center sums only its center rows. The total is the sum of the three. The row is pending and dated with the run day |
| RewardTransfers.PayableRowsContact | src/lib/rewards/buildRewardTransfers.ts:49-50 | name and wallet are the first non-empty ones among the ref's rows, invites first. They are none when no row has one |
| RewardTransfers.TotalOverKeys | src/lib/rewards/buildRewardTransfers.ts:74 | row totals added over the keys equal the three per-key sums added over the keys |
| RewardTransfers.PayableRowsConserve | src/lib/rewards/buildRewardTransfers.ts:67-79 | the row totals add up to all invite amounts plus all center fee and tuition amounts |
| RewardTransfers.BuildRewardTransfers | src/lib/rewards/buildRewardTransfers.ts:6-91 | a failed invite or center ledger load is reported exactly when it happened, and nothing is sent or stored. No payable rows means nothing is sent and 0 is reported. Otherwise the payable rows are sent as one batch. They are stored and counted, or nothing is stored when the insert is refused |
| RewardPayout.Truncate | src/lib/rewards/sendRewardUSDT.ts:57 | `slice(0, n)` is a prefix of at most `n` characters. It is the whole string when that is short enough, and exactly `n` characters otherwise |
| RewardPayout.FailureMemo | src/lib/rewards/sendRewardUSDT.ts:57 | the memo has at most 100 characters. It is the error message cut to its first 100 characters (`slice(0, 100)`) when there is one, and the fallback text otherwise |
| RewardPayout.SettlementEffect | src/lib/rewards/sendRewardUSDT.ts:33-60 | a paid row becomes completed with its hash. Any other row becomes failed with a memo: the missing-hash message when the transfer resolved without one, the rejection's message cut to 100 characters when it has one, and the fallback text when it has none. Only the update time changes besides |
| RewardPayout.SuccessCountSnoc | src/lib/rewards/sendRewardUSDT.ts:49 | `successCount` grows by one exactly for a paid transfer |
| RewardPayout.SuccessCountBounds | src/lib/rewards/sendRewardUSDT.ts:25-63 | successes never exceed attempts. All attempts succeed iff every transfer was paid, and none succeed iff none was |
| RewardPayout.SettleAllEffect | src/lib/rewards/sendRewardUSDT.ts:28-64 | with distinct ids, each target's row gets its own outcome and every other row is unchanged |
| RewardPayout.PayoutEffect | src/lib/rewards/sendRewardUSDT.ts:10-64 | a run settles each pending row of the day with its own transfer's outcome. Every other row is untouched |
| RewardPayout.Settle | src/lib/rewards/sendRewardUSDT.ts:29-63 | one pass makes one transfer and updates that target's row by id with the outcome's settlement |
| RewardPayout.PayAll | src/lib/rewards/sendRewardUSDT.ts:25-64 | one transfer per target, in order. The table is `SettleAll` of the outcomes. `successCount` is the number paid, and successes plus failures equal the targets |
| RewardPayout.SendRewardUSDT | src/lib/rewards/sendRewardUSDT.ts:7-72 | exactly one select is made. The run reports a load failure iff it answered an error, and no targets iff it answered no rows; either ends the run with no transfer and no update. Otherwise every pending row of the day is attempted once, in order, and settled, and the counts are returned |
| SendRewardsRoute.AttemptedSpec | src/app/api/send-rewards/route.ts:30-35 | the attempted entries are exactly those with a positive total and a non-empty wallet |
| SendRewardsRoute.RecordingEffect | src/app/api/send-rewards/route.ts:38-64 | a resolved transfer is `success` with its hash and an empty error. A rejected one is `failed` with a null hash and the error's message. An undefined hash or message leaves the column as it was. The result's status matches the row's |
| SendRewardsRoute.SelectedUniqueRefDates | src/app/api/send-rewards/route.ts:16-20 | selecting from a table with one row per ref code and day keeps that property |
| SendRewardsRoute.AttemptedUniqueRefDates | src/app/api/send-rewards/route.ts:30-35 | skipping entries keeps that property |
| SendRewardsRoute.RecordAllEffect | src/app/api/send-rewards/route.ts:30-65 | for distinct ref codes, each day row of an attempted ref code gets that entry's outcome, and every other row is unchanged |
| SendRewardsRoute.RouteEffect | src/app/api/send-rewards/route.ts:16-65 | a run gives each pending or failed row of the day with a positive total and a wallet its own transfer's outcome. Every other row is untouched |
| SendRewardsRoute.SharedKeyOverwritesPaid | src/app/api/send-rewards/route.ts:53-62 | the update is keyed by ref code and day. A failed retry therefore also marks a paid row of the same key failed and clears its hash |
| SendRewardsRoute.Dispatch | src/app/api/send-rewards/route.ts:37-64 | one pass makes one transfer, records its outcome on the entry's (ref code, day) rows and returns its result |
| SendRewardsRoute.DispatchAll | src/app/api/send-rewards/route.ts:30-65 | exactly the eligible entries are dispatched, in order. The table is `RecordAll` of the outcomes and the results are their `Results` |
| SendRewardsRoute.Post | src/app/api/send-rewards/route.ts:7-69 | exactly one select is made, and the handler answers 500 iff it answered an error, with nothing changed. Otherwise exactly the eligible pending or failed rows of the day are paid, in order, recorded and returned |
| Registration.NatToString | src/app/api/register/route.ts:15 | a numeral is a non-empty string of digits |
| Registration.ParseNatToString | src/app/api/register/route.ts:15 | a numeral reads back as the number it was written from |
| Registration.DefaultReferrerIsFirstCode | src/app/api/register/route.ts:12-15 | the default `ref_by` is the first code handed out |
| Registration.WithRefCode | src/app/api/register/route.ts:16-20 | the users matched by a ref code are exactly those holding it |
| Registration.WithWallet | src/app/api/register/route.ts:50-54 | the users matched by a wallet are exactly those holding it |
| Registration.UserTable.FindByRefCode | src/app/api/register/route.ts:16-20 | `maybeSingle` answers the one match, no match, or an error. The answer is logged and the rows are unchanged |
| Registration.UserTable.FindByWallet | src/app/api/register/route.ts:50-54 | `maybeSingle` answers the one match, no match, or an error. The answer is logged and the rows are unchanged |
| Registration.UserTable.Insert | src/app/api/register/route.ts:76-90 | the insert appends the row with the id the store assigns, or changes nothing. Its answer is logged |
| Registration.NumberOfCode | src/app/api/register/route.ts:15 | distinct numbers give distinct codes |
| Registration.FoundIsTaken | src/app/api/register/route.ts:27 | a code the lookup found is held |
| Registration.NotFoundIsFree | src/app/api/register/route.ts:27 | a code the lookup did not find is free |
| Registration.TakenThrough | src/app/api/register/route.ts:28 | moving past a held code keeps every earlier number taken |
| Registration.PassOver | src/app/api/register/route.ts:14-29 | each code passed over is a distinct held code, which bounds the search |
| Registration.GenerateNextReferralCode | src/app/api/register/route.ts:11-30 | the search terminates. The code it returns is `RS{n}` for the least `n` from 10000 on whose code nobody holds. It makes at least one lookup, and every lookup but the last found its code. The last lookup decides: a failed lookup ends the search with an error, and a miss yields the code |
| Registration.LowerNormalizes | src/app/api/register/route.ts:47 | a lower-cased wallet is its own normal form. Spellings that differ only in case normalise to the same address |
| Registration.Lead | src/app/api/register/route.ts:71 | the count of leading white space is within the string |
| Registration.Trail | src/app/api/register/route.ts:71 | the count of trailing white space is within the string |
| Registration.LeadSpec | src/app/api/register/route.ts:71 | the leading white space is all white space, and the first character after it is not |
| Registration.TrailSpec | src/app/api/register/route.ts:71 | the trailing white space is all white space, and the last character before it is not |
| Registration.TrailOfSuffix | src/app/api/register/route.ts:71 | trailing white space counted after the leading run lies within the rest of the string |
| Registration.TrimSpec | src/app/api/register/route.ts:71 | `trim` is a slice with only white space cut before and after it, and it neither starts nor ends with white space |
| Registration.TrimTail | src/app/api/register/route.ts:71 | what `trim` cuts after the slice is white space |
| Registration.TrimEnds | src/app/api/register/route.ts:71 | a non-empty trimmed string neither starts nor ends with white space |
| Registration.TrimIdempotent | src/app/api/register/route.ts:71 | trimming twice is trimming once |
| Registration.TrimEmpty | src/app/api/register/route.ts:71 | a string trims to nothing iff it is all white space |
| Registration.FinalNameSpec | src/app/api/register/route.ts:34-71 | the stored name is null iff no name was sent or it is all white space. Otherwise it is the trimmed name, non-empty and without white space at either end |
| Registration.NewUserFields | src/app/api/register/route.ts:34-90 | the inserted user has the lower-cased wallet and the new code. Email, phone, `ref_by` and `center_id` are as sent, or null when sent as null. When left out they are `""`, `01000000000`, the first code `RS10000` and `C001` |
| Registration.Register | src/app/api/register/route.ts:32-113 | 400 iff the wallet is missing or empty. A known lower-cased wallet answers that user or a lookup error, and never registers again, so no second row is added. A new wallet gets the least free code and exactly one inserted row with the defaults applied. Every error path leaves `users` unchanged. Each answer is tied to the store: the wallet lookup is made iff the wallet is usable, and it answered an error iff the handler answers 500 for it. The code search runs iff the lookup found nothing, and ends in an error iff the handler reports that. The insert is tried iff the search found a free code. It was refused iff the handler answers 500 for it, and accepted iff the user is registered |

## Left out

- Rounding: the `toFixed(6)` rounding of stored amounts is not modelled. Amounts are exact reals.
- Number parsing: `Number(x) || 0` is modelled as "a missing or non-numeric value is 0". JavaScript's parsing of numeric strings and NaN is not modelled.
- Null rates: a rate the settings row leaves null is written 0. The source treats null and 0 alike (`if (rate)`, `rate || 0`).
- The clock: `getKSTISOString` is not modelled. The run day and the time stamps are parameters, and one time stamp serves a whole run, where the source reads the clock on each update.
- Settings loading: `getRewardSetting` is not part of this model. The settings are a parameter, with `None` standing for the falsy result.
- Store failures: the store's failures are free choices of the table methods, recorded in ghost logs. Network errors, row-level security and column constraints are not modelled.
- Errors of updates: errors returned by the `update` calls in both disbursement engines are ignored by the source, and the model applies every update.
- Select order: the order of a `select` without `order` is taken to be table order.
- Map keys: the center map key `` `${ref}|${date}` `` is modelled as a pair. Two distinct pairs whose joined strings coincide, such as a ref code containing `|`, are not merged as they could be in the source.
- Strings: `toLowerCase` is modelled on ASCII letters only. `trim` removes only space, tab, line feed, carriage return, vertical tab, form feed, no-break space and the byte-order mark. UTF-16 code units are not distinguished from characters.
- Concurrency: two runs or two registrations at once are not modelled. Nothing prevents them in the source.
- `sendUSDT` internals: the asset transfer itself is not part of this model. Its outcome is a free choice of `TransferClient.Transfer`.
- Route response details: when `sendUSDT` resolves to nothing at all, the destructuring in the send-rewards route throws a TypeError inside its `try`. The `catch` records the row `failed` with that TypeError's message, and the run goes on. The model covers this as a `Threw(Some(msg))` outcome of the transfer client. The text of the message is not modelled.
- Route selected columns: the route's result spreads the selected columns (`reward_amount`, `referral_amount`, `center_amount`, …). The model keeps the whole row instead.
- Non-string wallet: a wallet sent as a non-string truthy value, which would make `toLowerCase` throw, is not modelled. The wallet field is a string or absent.
- Register logging: the lookup of the inserted user for logging after registration has no effect on the answer and is left out.
- `RouteEffect`: assumes the table holds one row per ref code and day. `SharedKeyOverwritesPaid` shows what the update does when that does not hold.
- Other calculators: `calculateReferralRewards`, `calculateInvestRewards`, `calculateFullRewards`, `calculateCenterRewards2` and `saveToRewardTransfers` are placeholders or thin wrappers and are not part of this model. So are the API routes that only call a stage.
