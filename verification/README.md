# A verified model of the abewalletmlp wallet

This project models the protocol, storage and selection logic of the `abewalletmlp` wallet daemon
in Dafny and proves what that logic promises. Hashing, key derivation, encryption, fee estimates
and the chain backend appear as parameters with stated laws; everything else follows the Go code
branch by branch, with its constants and its error cases.

Modules named Laws say what the operations mean without naming the functions that compute it: when
each succeeds, with which error it fails, and what it leaves behind.

Operations that change state in Go are methods of classes (the sync bucket, the address manager,
the wallet's chain following, the transaction store, the recovery branch, the notification
handler), or loops over arrays, sequences and byte buffers. Each such method is proved equal to a
function of the old state, and the results below are proved about those functions.

| module | models |
|---|---|
| `SyncStore`, `ChainSync`, `CatchUp`, `SyncLaws`, `SyncRuns` | the 10000-block window of header hashes, connecting, disconnecting, resynchronising, batched catch-up, and whole runs of all of them |
| `Maturity` | which aligned group of blocks matures when a block is connected |
| `StableSort`, `TokenLayout`, `TokenBuilder` | laying out and building token transactions |
| `Coins`, `CoinSelection`, `SelectionLaws` | choosing coins, fee and change of a plain transfer |
| `Arithmetic`, `Bytes`, `SecretKeys`, `KeyManager`, `KeyLaws` | passphrases, master keys, crypto keys |
| `TxoBuckets`, `TxoTotals`, `TxoLaws` | output buckets and stored totals, and what every run keeps of them |
| `Records`, `RingCodec`, `BlockCodec`, `CodecLaws` | the byte formats of rings and block records |
| `Recovery` | address look-ahead on one branch |
| `Mnemonic` | the 24-word form of a seed |
| `BucketMigration`, `BirthdaySearch`, `NotificationQueue` | three self-contained algorithms |

Where the model says something the code's comments do not:

- `PutSyncedTo` checks only that the height below is stored. After a rollback that entry may be
  stale, so blocks may be skipped unnoticed (`SyncStore.ConnectBeyondTip`), and a rollback to
  height 0 or 1 is accepted even after the window has slid past it (`SyncStore.RollbackKeepsWindow`).
- The tip in memory moves before the transaction commits. After a failed transaction it is ahead of
  the stored one (`ChainSync.FailedConnectRunsAhead`, `CatchUp.RetryAfterFailedBatch`). The keys of
  the address manager move early in the same way (`KeyManager.FailedCommitSplits`).
- The fee-per-kilobyte loop may run out of coins without an error; the transfer is then built with
  fee 0 and no change. That happens exactly when no first few of the matching coins reach the
  target and their own fee (`CoinSelection.SelectionBalances`, `CoinSelection.RanOutExample`).
- With coins of several versions the greedy choice need not be the smallest. It is exactly when the
  n - 1 most valuable matching coins fall short (`CoinSelection.FixedFeeFewestIff`,
  `CoinSelection.MixedVersionsTakeMore`).
- Two prefixes of a request may name the same coin, which is then an input twice
  (`CoinSelection.SelectedDistinct`).
- Under the empty passphrase, unlocking an unlocked manager is refused unless the salt its hash was
  made with was all zeros: hashing wiped it (`KeyManager.ShortcutAgrees`).
- `ConfirmSpentTXO` follows a nil pointer for an outpoint that is not matured; its lookup in the
  unmined bucket is never reached (`TxoBuckets.Confirm` answers `Panicked` there).
- `DeleteRawUnmined` adjusts no total, so the spendable ones fall short and the unconfirmed ones run
  high by exactly what comes back (`TxoTotals.RunAccounts`), and a spendable one may later wrap
  (`TxoTotals.ConfirmAfterDelete`). The mined totals are exact in every run.
- Unknown words count as word 0 when a mnemonic is read (`Mnemonic.WordsRoundTrip`,
  `Mnemonic.UnknownWordExample`).
- The flag word of a ring holds the flags of eight outputs, and serial numbers of another size than
  the version's are padded or cut (`RingCodec.RingInverse`).
- The start of the token inputs is recorded in one byte, so it is right with fewer than 256 ring
  coins among the funding (`TokenBuilder.BuildToken`).

## Model

| member | source | states |
|---|---|---|
| SyncStore.SyncBucket.FetchBlockHash | waddrmgr/db.go:1044-1064 | a stored height answers its hash, any other height an error |
| SyncStore.SyncBucket.PutSyncedTo | waddrmgr/db.go:999-1040 | accepts iff height 0, no birthday block, or the height below is stored; then the hash is stored, the height 10000 below dropped and the tip moved, otherwise nothing changes |
| SyncStore.Manager.SetSyncedTo | waddrmgr/sync.go:46-66 | bucket and memory move to the new tip together iff the bucket accepts it; no stamp means the start block |
| SyncStore.WindowContents | waddrmgr/db.go:1015-1120 | the stored heights are exactly 0 and max(1, m-9999)..m for the highest tip m ever reached, and up to the tip they hold the followed chain |
| SyncStore.ConnectAtTip | waddrmgr/db.go:999-1040 | a connect at tip+1 is never refused, extends the followed chain by that block and slides the window, whatever stale entries lie above the tip |
| SyncStore.ConnectBeyondTip | waddrmgr/db.go:999-1040 | with a birthday block, a connect above the tip is refused iff nothing was ever stored right below it |
| SyncStore.RollbackAccepted | waddrmgr/db.go:999-1040 | with a birthday block, a rollback to h > 0 is accepted iff h-1 is stored, that is iff h <= 1 or h-1 lies in the window |
| SyncStore.RollbackKeepsWindow | waddrmgr/db.go:999-1040 | an accepted rollback leaves a window iff its target is in the window (for target 0, iff the window still starts at 1) |
| SyncStore.GenesisRefines | waddrmgr/manager.go:1470-1483 | what Create stores, genesis and no birthday block, is the window of the one-block chain |
| SyncLaws.PutOutcome | waddrmgr/db.go:999-1120 | refused iff a birthday block exists and the height below is missing; otherwise the stamp is the tip, its hash stored, the hash 10000 heights below gone, and nothing else changed |
| ChainSync.FindFork | wallet/wallet.go:426-469 | what the rollback walk answers is stored and on the backend's chain at a height not above the start |
| ChainSync.Wallet.ConnectBlock | wallet/chainntfns.go:218-279 | one connect notification, with its guard, the early move of the memory tip and the discarded writes on failure |
| ChainSync.Wallet.DisconnectBlock | wallet/chainntfns.go:295-348 | one disconnect notification: ignored unless the stored hash is the named one, otherwise the tip moves to the stored block below |
| ChainSync.Wallet.SyncWithChain | wallet/wallet.go:365-492 | stores a birthday block first if there is none, in its own transaction, then compares the chains |
| ChainSync.Wallet.CompareChains | wallet/wallet.go:426-469 | the rollback loop terminates and moves tip and birthday block to the first agreeing height, in one transaction |
| ChainSync.AgreeBelow | wallet/wallet.go:426-469 | if hashes determine their ancestors, agreement at a height means agreement at every height below |
| ChainSync.ForkPointExists | wallet/wallet.go:426-469 | chains with the same genesis have a fork point: equal up to it, different above |
| ChainSync.FindForkFromTip | wallet/wallet.go:426-469 | the walk answers the fork point or nothing, and with a backend that answers it finds it iff the window reaches down to it |
| ChainSync.ResyncFindsForkPoint | wallet/wallet.go:426-492 | a resync fails with the stored state unchanged or sets the tip to the exact fork point with the window intact; it fails iff the fork is too deep for the window |
| ChainSync.DisconnectRollsBack | wallet/chainntfns.go:295-348 | only a block of the followed chain changes anything; then the chain loses its last blocks from there on; refused iff the block below the new tip has left the window |
| SyncRuns.StepKeeps | waddrmgr/db.go:999-1120 | every step, refused or failed or not, leaves the committed state a window on the chain it follows |
| SyncRuns.RunKeepsWindow | waddrmgr/db.go:999-1120 | after every run of connects at most one above the tip, disconnects, resyncs, batched catch-ups, failed transactions and restarts, with or without a birthday block yet, the stored heights are exactly the window of the highest tip m, 0 and max(1, m-9999)..m, the entries up to the tip are the followed chain, and the tip is its last block |
| SyncRuns.CleanUnlessFailed | waddrmgr/sync.go:46-66 | memory and database agree on the tip after every step that does not fail |
| SyncRuns.CreatedWalletFollows | waddrmgr/manager.go:1470-1483 | a wallet as Create leaves it, without a birthday block, satisfies what RunKeepsWindow starts from |
| ChainSync.FailedConnectRunsAhead | wallet/chainntfns.go:218-279 | a connect whose transaction fails leaves memory one ahead of the stored tip; the next block is then refused iff no stale entry hides the gap |
| SyncLaws.ConnectOutcome | wallet/chainntfns.go:160-279 | a connect at or below the tip is ignored, right above it never refused, higher up refused iff the block below was never stored; success makes the stamp the tip |
| SyncLaws.DisconnectOutcome | wallet/chainntfns.go:295-348 | ignored above the tip or for another block, an error for a height that left the window, otherwise the stored block below becomes the tip with the backend's time |
| SyncLaws.FindsForkExactly | wallet/wallet.go:426-469 | the walk reaches the fork point iff bucket and backend answer for every height from there to the tip |
| SyncLaws.ResyncOutcome | wallet/wallet.go:426-492 | the backend's block at the fork point, with its time, becomes the tip, and the birthday block exactly if it lies at or below the old one and is another block; a failure stores nothing |
| SyncLaws.FirstSyncOutcome | wallet/wallet.go:380-420 | a wallet without a birthday block stores the one located, whatever comes of the comparison; without one it fails unchanged |
| SyncLaws.StopsAtFirstFailure | wallet/rescan.go:60-181 | from a window catching up gets exactly to the first height whose block, time or insertion fails, and the tip in memory is the last one before, with its time |
| CatchUp.PlainSplits | wallet/rescan.go:60-181 | catching up in two stretches is catching up in one |
| CatchUp.CatchUpRun.CatchOne | wallet/rescan.go:77-160 | one block of the catch-up: all of its steps or an error |
| CatchUp.CatchUpRun.Batch | walletdb/interface.go:250-272 | one transaction of up to 400 blocks commits what the plain loop does for them, or nothing |
| CatchUp.CatchUpRun.CatchUpTo | wallet/rescan.go:60-181 | the batched loop visits start+1..target in order, each once, as far as the plain loop gets; failing in batch k it leaves the stored state at start + 400*k |
| CatchUp.PlainExtendsChain | wallet/rescan.go:60-181 | as far as the plain loop gets from a window, it leaves the window on the old chain followed by the backend's blocks |
| CatchUp.PlainReachesTarget | wallet/rescan.go:60-181 | from a window it reaches its target if backend and insertion succeed: PutSyncedTo never refuses |
| CatchUp.CommittedExtendsChain | wallet/rescan.go:60-181 | what a catch-up commits, complete or not, is a window on the old chain followed by the backend's blocks: all whole batches of 400 below the first failing height, or everything |
| CatchUp.RetryAfterFailedBatch | wallet/rescan.go:60-181 | a retry in the same process starts from the tip in memory and is stuck iff no stale entry reaches up to that tip |
| Maturity.ComputeMatured | wallet/rescan.go:104-114 | the hashes of the heights MaturedEntries lists, nil elsewhere, or an error exactly when the backend fails to answer for one of them |
| Maturity.ListedOnce | wallet/chainntfns.go:247-257 | connecting a height lists a block iff this height is the block's group end plus maturity, and then once; never a negative height |
| Maturity.ListIsAlignedGroup | wallet/chainntfns.go:247-257 | a list that is not empty is one aligned group, listed maturity blocks after the group's last block |
| Maturity.MaturedExactlyOnce | wallet/rescan.go:104-114 | over an unskipped run every block is listed exactly once if its maturing height is in the run, and otherwise not at all |
| StableSort.SortedIsStable | wallet/createauttx.go:24-56 | the specified sort is ordered, a permutation and keeps tied elements in order |
| StableSort.StableSortUnique | wallet/createauttx.go:24-56 | every stable sort of a list gives the same list |
| StableSort.OrderedIsFixpoint | wallet/createtx.go:907-928 | a list already in order is left unchanged |
| StableSort.SliceStable | wallet/createauttx.go:24-56 | sorting in place yields the stable sort |
| TokenLayout.ComparisonsAgree | wallet/createauttx.go:23-118 | both comparison closures of each list are strict weak orders; the later one compares ring < CT pseudonym < pseudonym and the first one refines it |
| TokenLayout.FinalOutputs | wallet/createtx.go:1055-1075 | sorted outputs are ring, then CT pseudonym, then pseudonym ones |
| TokenLayout.FirstOutputs | wallet/createauttx.go:23-56 | the first sort also puts CT pseudonym outputs of value 1 in front of the other CT ones |
| TokenLayout.FinalInputs | wallet/createauttx.go:77-105 | both sorts of inputs agree: neither pseudonym bit, then the CT bit, then the others |
| TokenLayout.BlockSurvivesResort | wallet/createauttx.go:23-118 | inserting CT pseudonym coins at the index found after the first sort gives a list the second sort leaves unchanged, so the index still delimits exactly the block, in order |
| TokenLayout.SortAndFindStart | wallet/createauttx.go:23-118 | sorts and returns the first position that is not a ring coin, or the length |
| TokenLayout.StartIsRingCount | wallet/createauttx.go:56-75 | the index found after the first sort is the number of ring elements of the given list |
| TokenLayout.RingCoinsCounted | wallet/createauttx.go:105-118 | the ring elements among inputs are the coins with neither pseudonym bit |
| TokenLayout.LayOut | wallet/createauttx.go:23-118 | sort, find, insert: the elements are those given, the block sits at the number of ring elements, that is what the byte records, and the builder's later sort changes nothing |
| TokenLayout.LayOutOutputs | wallet/createauttx.go:688-689 | the same for outputs, whose first sort puts value-1 outputs ahead |
| TokenLayout.LayOutInputs | wallet/createauttx.go:702-703 | the same for inputs |
| CoinSelection.FetchSpecifiedUTXO | wallet/createtx.go:456-474 | for every prefix the first eligible coin whose hash starts with it, or an error |
| CoinSelection.SelectFixedFee | wallet/createtx.go:601-629 | the shortest non-empty prefix of the matching coins worth target plus fee, or all of them |
| CoinSelection.SelectPerKb | wallet/createtx.go:703-762 | the fee-per-kilobyte loop: settled, exhausted or failed |
| CoinSelection.SelectCoins | wallet/createtx.go:597-838 | the four selection paths with their fee and change decisions |
| CoinSelection.PrivacyKept | wallet/createtx.go:604-610 | a selection for one kind of coins holds only coins of that kind, on every path |
| SelectionLaws.FixedFeeOutcome | wallet/createtx.go:597-672 | a fixed-fee selection fails iff the admitted coins together fall short, and otherwise takes the first few of them, no more than needed |
| SelectionLaws.PerKbOutcome | wallet/createtx.go:703-762 | it fails iff a fee cannot be computed on the way or all admitted coins are worth less than the target; otherwise it takes the first few that cover, or all if none do |
| SelectionLaws.NamedOutcome | wallet/createtx.go:763-833 | for each prefix the first coin whose hash starts with it is taken; the selection succeeds iff these coins are of the kind asked for, within the input bounds, and worth target and fee |
| SelectionLaws.UnnamedFails | wallet/createtx.go:456-474 | it fails if some prefix starts no coin's hash |
| SelectionLaws.FirstWithIs | wallet/createtx.go:456-474 | the coin found for a prefix has it at the start of its hash and no earlier coin has; none is found iff none has |
| SelectionLaws.NoFeeOutcome | wallet/createtx.go:597-838 | without a fee only the transfer of nothing can be selected for |
| SelectionLaws.AcceptableMeans | wallet/createtx.go:518-548 | the limits on value, number and kinds of outputs, leaving room for the change |
| CoinSelection.PerKbStopsFirst | wallet/createtx.go:703-762 | the loop settles on the shortest extension that covers target and its own fee, runs out only if none does, and fails only where the fee cannot be computed |
| CoinSelection.ExhaustedIff | wallet/createtx.go:703-762 | the loop runs out iff every non-empty first few coins fall short of target and their fee, and then with all coins |
| CoinSelection.SelectionBalances | wallet/createtx.go:597-838 | coins are worth target + change + fee exactly, iff the request is not one whose first few matching coins all fall short, or the matching coins are worth exactly the target; change is at least the threshold |
| CoinSelection.FeeIsCovered | wallet/createtx.go:597-838 | the fee paid is at least the one asked for or computed and less than a threshold above it |
| CoinSelection.RanOutExample | wallet/createtx.go:703-762 | a concrete selection in which the fee-per-kilobyte loop runs out and value is lost |
| CoinSelection.GreedyTakesFewest | wallet/createtx.go:601-629 | on coins in descending order, the greedy prefix reaches a goal if some of the coins do, and no fewer coins do |
| CoinSelection.FixedFeeTakesFewest | wallet/createtx.go:35-47 | for eligible coins of one version the fixed-fee selection takes the fewest coins and fails only if none suffice |
| CoinSelection.FewestIff | wallet/createtx.go:601-629 | no fewer than n coins reach a goal iff the n - 1 most valuable ones do not |
| CoinSelection.FixedFeeFewestIff | wallet/createtx.go:35-47 | for any order and mix of versions the fixed-fee selection fails iff all matching coins fall short; it takes the least sufficient number of first coins, which is the fewest iff the n - 1 most valuable ones fall short |
| CoinSelection.MixedVersionsTakeMore | wallet/createtx.go:35-47 | with two versions it takes two coins where one suffices |
| CoinSelection.FilterAndSort | wallet/createtx.go:565-583 | drops token coins and sorts the rest in descending byAmount order |
| SelectionLaws.OrderMeans | wallet/createtx.go:35-47 | newer versions first, larger amounts first within a version |
| CoinSelection.NotTokensIsFilter | wallet/createtx.go:565-583 | the coins left are exactly those without a token, in order |
| CoinSelection.ArrangeOutputs | wallet/createtx.go:1033-1075 | swapping the change into place and sorting keeps all outputs |
| CoinSelection.CreateTransaction | wallet/createtx.go:883-1085 | succeeds iff the rings are known, the wallet is unlocked, the coins suffice, a change address can be had if needed and the library signs; inputs are the coins stably sorted, outputs those asked for plus the change, and value balances iff change is made or nothing is left over |
| CoinSelection.PlainTransfer | wallet/createtx.go:476-880 | exactly when a transfer is built, limits on amount and outputs included; no token coin is spent, all requested outputs are there, inputs = outputs + fee exactly unless the matching coins run out and are worth more than the target |
| CoinSelection.SelectedDistinct | wallet/createtx.go:597-838 | from distinct coins the selection takes no coin twice, unless the request names coins: then iff no two prefixes pick the same one |
| CoinSelection.TransferDistinct | wallet/createtx.go:476-880 | the same for the inputs of the whole transfer |
| TokenBuilder.SizeCheckFindsAll | wallet/createauttx.go:820-836 | if as many coins as requests were found, every requested outpoint was found and none was requested twice |
| TokenBuilder.SplitEligible | wallet/createauttx.go:805-836 | succeeds iff the outpoints are distinct and each holds an eligible token coin; then returns these coins in request order, and all coins without tokens |
| TokenBuilder.PickForFee | wallet/createauttx.go:856-925 | the loop that adds coins until target and fee are covered |
| TokenBuilder.PickSpecified | wallet/createauttx.go:838-855 | the coins whose hash is named, or an error when their number differs from that of the names |
| TokenBuilder.NamedFunding | wallet/createauttx.go:838-855 | named funding is exactly the eligible coins without a token whose hash is named, in list order and none twice; it fails iff their number is not that of the names |
| TokenBuilder.UnnamedFunding | wallet/createauttx.go:856-925 | other funding is the first of the coins without a token that, with those started from, cover target and fee; it fails iff there are none |
| TokenBuilder.TokensOkMeans | wallet/createauttx.go:748-792 | only CT pseudonym outputs, within the limits on value and number |
| TokenBuilder.AffordableMeans | wallet/createauttx.go:975-1021 | the limits on outputs with no change, with change to a ring address, and with change to a pseudonym address |
| TokenBuilder.PayAndLayOut | wallet/createauttx.go:936-1021 | fee, change and outputs: succeeds iff affordable, an address can be had and no limit per kind is exceeded; then value balances exactly and the outputs are the tokens as one block and the change |
| TokenBuilder.OutStartFits | wallet/createauttx.go:1009-1010 | with at most one change output the start of the token outputs is 0 or 1, so its byte is always right |
| TokenBuilder.DelimitsIff | wallet/createauttx.go:1043-1048 | a recorded range is right iff its start is below 256 and its count is: counted in one byte, or given with the request |
| TokenBuilder.Assemble | wallet/createauttx.go:1023-1064 | inserts the hosted coins and builds; the builder's sorts leave inputs and outputs as laid out |
| TokenBuilder.BuildToken | wallet/createauttx.go:731-1065 | exactly when it succeeds; inputs = outputs + fee exactly, the fee is the one computed for all inputs, hosted coins and token outputs are contiguous in request order, and the script delimits them iff the counts are right and fewer than 256 ring coins are among the funding |
| TokenBuilder.TokenInputsDistinct | wallet/createauttx.go:805-925 | from distinct coins no coin is spent twice |
| TokenBuilder.BuildRegistration | wallet/createauttx.go:120-408 | the same for registering a token, where the named token coins lie among the other inputs and only the outputs are delimited |
| Bytes.LittleEndianRoundTrip | snacl/snacl.go:133-183 | a fixed-width little-endian integer in range is read back |
| Bytes.LittleEndianDigit | snacl/snacl.go:133-152 | byte i of a stored integer is its digit i to the base 256 |
| Bytes.BigEndianDigit | wtxmgr/db.go:49-50 | byte i of a stored integer is its digit i to the base 256 from the other end |
| Bytes.BigEndianModulo | wtxmgr/db.go:49-50 | a fixed-width big-endian integer is read back modulo its range |
| SecretKeys.Marshal | snacl/snacl.go:133-152 | fills the 88 bytes of salt, digest and scrypt parameters |
| SecretKeys.MarshalRoundTrip | snacl/snacl.go:133-183 | stored parameters are read back unchanged |
| SecretKeys.MarshalLayout | snacl/snacl.go:133-152 | salt, digest, and N, r, p in 64-bit two's complement with the least significant byte first, at bytes 0, 32, 64, 72, 80 |
| SecretKeys.NewKeyDerives | snacl/snacl.go:195-243 | a new key is re-derived by its own passphrase |
| KeyManager.MainBucket.PutMasterKeyParams | waddrmgr/db.go:401-421 | stores what is given and leaves alone what is nil |
| KeyManager.MainBucket.PutCryptoKeys | waddrmgr/db.go:732-769 | the same for the encrypted crypto keys |
| KeyManager.Manager.Wipe | waddrmgr/manager.go:333-349 | zeroes the private, seed and script keys, the private master key and the passphrase hash |
| KeyManager.Manager.Lock | waddrmgr/manager.go:864-882 | locks, or reports that it is locked or watching-only |
| KeyManager.Manager.Unlock | waddrmgr/manager.go:890-951 | both ways of unlocking, every error path, and the salt wiped by an empty passphrase |
| KeyManager.Manager.ChangePrivatePassphrase | waddrmgr/manager.go:609-778 | re-derives, decrypts, re-encrypts and stores, while locked or unlocked; any failure, of the random source and the database too, changes nothing |
| KeyManager.Manager.ChangePublicPassphrase | waddrmgr/manager.go:609-778 | the same for the public passphrase |
| KeyManager.LoadManager | waddrmgr/manager.go:1070-1203 | a locked manager from the bucket and the public passphrase, or an error |
| KeyManager.CreatedWalletOpens | waddrmgr/manager.go:1267-1490 | a created wallet opens with its public passphrase, locked, and satisfies the invariant of all runs |
| KeyManager.RunKeeps | waddrmgr/manager.go:609-951 | every sequence of operations, successful or not, keeps bucket and memory in agreement with the passphrases in force and the original keys |
| KeyManager.CurrentPassphraseUnlocks | waddrmgr/manager.go:890-951 | after any sequence of locks, unlocks, passphrase changes and reopenings, the passphrase in force unlocks and restores the original private, seed and public keys, so every earlier ciphertext decrypts |
| KeyManager.EncryptsUnderOriginalKeys | waddrmgr/manager.go:958-1019 | at any point of a run data is encrypted under the original keys, the private ones only while unlocked |
| KeyManager.LockedMeansZero | waddrmgr/manager.go:333-349 | in every run, locked means all private key material in memory is zero |
| KeyManager.RunTracksHash | waddrmgr/manager.go:890-951 | in every run the stored hash, while unlocked, is that of a known salt and the passphrase in force, and the salt is still that one unless the passphrase is empty |
| KeyManager.ShortcutAgrees | waddrmgr/manager.go:890-951 | in every unlocked state lock-then-unlock accepts exactly the passphrase in force, and the shortcut the same with the same keys, iff it is not the empty one or the salt hashed was all zeros |
| KeyManager.EmptyPassphraseShortcut | waddrmgr/manager.go:890-951 | after any run that ends unlocked under the empty passphrase, by unlocking or by changing to it, the shortcut accepts it iff the salt last hashed was all zeros |
| KeyManager.FailedCommitSplits | waddrmgr/manager.go:735-752 | if the transaction of a passphrase change fails to commit, the running manager takes the new passphrase and a reopened one the old, both with the original keys |
| KeyLaws.LockOutcome | waddrmgr/manager.go:864-882 | locking wipes everything private and nothing else; an already locked manager reports so |
| KeyLaws.UnlockOutcome | waddrmgr/manager.go:913-951 | a locked manager unlocks exactly with a passphrase deriving the key in force, with the original keys; otherwise it stays locked and wiped, with the error of each case |
| KeyLaws.UnlockAgainOutcome | waddrmgr/manager.go:900-912 | an unlocked manager compares hashes, and is locked and wiped if they differ |
| KeyLaws.PrivateChangeOutcome | waddrmgr/manager.go:609-778 | a private change succeeds iff the old passphrase derives the key in force, values are drawn, the new one derives a key and the store succeeds; each failing case has its error and changes nothing; success reseals each key under its own nonce, keeps the lock state and draws a new salt |
| KeyLaws.PublicChangeOutcome | waddrmgr/manager.go:609-778 | the same for the public passphrase, whose digest must match; the private half is untouched |
| KeyLaws.ChangeNeedsThePassphrase | waddrmgr/manager.go:633-645 | among the passphrases in use either change accepts exactly the one in force as the old one |
| KeyLaws.UnlockNeedsThePassphrase | waddrmgr/manager.go:913-951 | and so does unlocking a locked manager |
| KeyLaws.ReopenOutcome | waddrmgr/manager.go:1070-1203 | reopening succeeds exactly with a public passphrase deriving the key in force; it gives a locked, wiped manager with the original public key and its own salt |
| KeyLaws.DecryptOutcome | waddrmgr/manager.go:958-1019 | exactly what was sealed under the original key of the type decrypts, with a private one only while unlocked |
| KeyLaws.WatchingOnlyRefuses | waddrmgr/manager.go:609-985 | a watching-only manager refuses whatever needs a private key, unchanged |
| KeyLaws.CreateOutcome | waddrmgr/manager.go:1267-1490 | creation fails for an empty private passphrase or a failing derivation, draw or store; each key gets its own nonce |
| TxoBuckets.TxStore.ConfirmSpentTXO | wtxmgr/db.go:1377-1500 | moves a matured coin to the confirmed bucket and takes it off both totals, token totals included |
| TxoBuckets.TxStore.FindSpent | wtxmgr/db.go:1782-1820 | finds the wallet's own output whose serial number an input reveals |
| TxoLaws.SpentMeans | wtxmgr/db.go:1790-1796 | the output spent is the one at the position whose serial number the input reveals |
| TxoBuckets.TxStore.InsertTx | wtxmgr/tx.go:1282-1515 | moves the coins a new transaction spends to the unmined bucket, with the totals, and settles it with the transactions listed at those coins; does nothing for a known transaction |
| TxoBuckets.TxStore.DeleteRawUnmined | wtxmgr/db.go:1782-1820 | moves them back, changing no total |
| TxoTotals.ConfirmKeepsTotals | wtxmgr/db.go:1377-1500 | whatever the other totals are, confirming a matured output keeps the mined totals exact without underflow and the buckets disjoint; the spendable and unconfirmed totals are exact afterwards iff they were; it is safe exactly for matured outputs |
| TxoLaws.ConfirmRecords | wtxmgr/db.go:1404-1500 | the confirmed record holds the coin that was matured, the transaction that spent it and the block that confirmed it; all else is as it was |
| TxoLaws.RunKeepsConfirmed | wtxmgr/db.go:1377-1500 | no later run changes a confirmed record |
| TxoTotals.WorthIsWeight | wtxmgr/db.go:1430-1490 | what an operation puts on or takes off a total is the coin's amount, 1 for a root, or its amount of the token |
| TxoTotals.InsertKeepsTotals | wtxmgr/tx.go:1282-1515 | inserting a transaction keeps the mined totals exact and the buckets disjoint, and the other totals exactly as far off as they were |
| TxoTotals.InsertInvalidatesRivals | wtxmgr/tx.go:1418-1499 | afterwards no other transaction listed at a spent coin is unconfirmed or confirmed; those that were are invalid, and nothing else became so |
| TxoLaws.InsertOutcome | wtxmgr/tx.go:1282-1400 | a known transaction changes nothing; a new one is inserted iff its rings are known, its coins matured and none spent twice; then each is recorded as spent by it and nothing else moves |
| TxoLaws.ListsGrow | wtxmgr/tx.go:1491-1497 | the lists of transactions only grow, by this one, at the coins it spends |
| TxoTotals.DeleteKeepsMined | wtxmgr/db.go:1782-1820 | deleting keeps the mined totals exact and the buckets disjoint; coins only move |
| TxoLaws.DeleteOutcome | wtxmgr/db.go:1782-1820 | exactly the unmined coins the inputs spend come back as they were, the transaction's record goes, and nothing else changes |
| TxoTotals.DeleteDrifts | wtxmgr/db.go:1782-1820 | a deletion sets spendable and unconfirmed totals off by exactly the weight of what comes back |
| TxoTotals.ExactAfterDelete | wtxmgr/db.go:1782-1820 | exact spendable totals stay exact, and exact unconfirmed ones likewise, iff every coin that comes back is worth nothing |
| TxoTotals.RunAccounts | wtxmgr/db.go:1377-1500 | after every run of insertions, confirmations and deletions the mined totals are exact over disjoint buckets, and the spendable totals are short, the unconfirmed ones high, by exactly what the deletions gave back, modulo 2^64 |
| TxoTotals.ExactAfterRun | wtxmgr/db.go:1782-1820 | from exact totals, both kinds are exact after a run iff the deletions gave nothing back in any measure, modulo 2^64 |
| TxoTotals.ConfirmAfterDelete | wtxmgr/db.go:1377-1500 | after inserting and deleting a transaction, confirming a coin keeps a spendable total, of ABEL or a token, from wrapping iff the coin weighs no more than what the transaction had left |
| TxoTotals.InsertThenDelete | wtxmgr/db.go:1782-1820 | deleting a transaction just inserted restores both buckets and the mined totals; each spendable total is left short and each unconfirmed one high by exactly what had been spent |
| RingCodec.FlagsComeBack | wtxmgr/tx.go:1064-1073 | the flag word gives all flags back iff no flag of an output from 8 on collides |
| RingCodec.EncodedLength | wtxmgr/tx.go:1033-1037 | SerializeSize is the length of what Serialize writes |
| RingCodec.RingInverse | wtxmgr/tx.go:1038-1141 | a ring comes back from its bytes, in whatever order its map was gone through and whatever follows, iff its flags fit and its serial numbers have their version's size |
| RingCodec.EightOutputsFit | wtxmgr/tx.go:1064-1073 | eight outputs always fit; with nine, the ninth's ownership reads as the first one being spent |
| CodecLaws.FlagWordBits | wtxmgr/tx.go:1064-1073 | bit i of the flag word is output i's ownership, bit i + 8 that it is spent |
| CodecLaws.RingHasParts | wtxmgr/tx.go:1038-1084 | version, flag, hash, and behind their counts outputs, original serial numbers, flag word and serial numbers seen, each where the one before ends |
| CodecLaws.OutputField | wtxmgr/tx.go:1050-1055 | output i takes 33 bytes, hash and index |
| CodecLaws.OriginField | wtxmgr/tx.go:1058-1063 | an original serial number is its position and the number |
| CodecLaws.SerialField | wtxmgr/tx.go:1078-1082 | serial numbers seen follow each other |
| CodecLaws.FitBytes | wtxmgr/tx.go:1058-1082 | a serial number of another size is cut off behind or followed by zeros |
| CodecLaws.TruncatedRingFails | wtxmgr/tx.go:1085-1141 | a ring's bytes cut short anywhere do not decode |
| CodecLaws.RingReads | wtxmgr/tx.go:1085-1141 | whatever decodes, fields, lists and flags are what the bytes at their places hold |
| RingCodec.Serialize | wtxmgr/tx.go:1038-1084 | writing with a running offset yields the format, serial numbers of another size padded or cut |
| RingCodec.Deserialize | wtxmgr/tx.go:1085-1141 | reading with a running offset parses the format and fails on every truncated input |
| BlockCodec.ValueBlockInput | wtxmgr/db.go:747-786 | writing block inputs yields the record format, its length filled in last |
| BlockCodec.ReadRecord | wtxmgr/db.go:860-892 | reading with running offsets parses the record format |
| BlockCodec.FetchBlockInput | wtxmgr/db.go:850-893 | a short key, a missing entry, a malformed record, or the rings and serial numbers |
| BlockCodec.RecordRoundTrip | wtxmgr/db.go:747-893 | a record gives back its rings and serial-number lists in order with nothing left over, and its header is its length |
| BlockCodec.EntryLength | wtxmgr/db.go:754-775 | an entry starts with its own length below 65536 |
| CodecLaws.EntryLayout | wtxmgr/db.go:754-780 | an entry is its length, the ring's length, the ring, the number of serial numbers and these |
| CodecLaws.SerialLayout | wtxmgr/db.go:772-778 | a serial number stands behind its length, and lists are their elements in order |
| CodecLaws.RecordLayout | wtxmgr/db.go:747-786 | a record is its length, the number of entries, and these in order |
| CodecLaws.EntryReadsExactly | wtxmgr/db.go:865-890 | an entry is read iff the ring decodes from exactly the bytes its length says and the serial numbers make up what is taken behind their count; the entry's own length is not looked at |
| BlockCodec.PutOutputs | wtxmgr/db.go:641-652 | writing a block's outputs yields their format |
| BlockCodec.FetchBlockOutput | wtxmgr/db.go:711-737 | reading to the end of the value, with the count checked in 32-bit arithmetic |
| BlockCodec.OutputsRoundTrip | wtxmgr/db.go:641-737 | a block's outputs come back however many they are |
| BlockCodec.RootCoinsRoundTrip | wtxmgr/db_ctaut.go:277-320 | disabled root coins come back iff their count fits 32 bits |
| CodecLaws.OutpointLayout | wtxmgr/db.go:641-652 | the number of outpoints, then 33 bytes each; the disabled root coins with the record's length in front |
| CodecLaws.OutputsReadExactly | wtxmgr/db.go:711-737 | a value is read as these outputs iff they make up all of it behind the count and the count, in 32-bit arithmetic, asks for no more than there is |
| CodecLaws.RootCoinsReadExactly | wtxmgr/db_ctaut.go:303-320 | as many root coins as the count says are read from the front; the record's length is not looked at |
| Recovery.BranchRecoveryState.NumInvalidInHorizon | wallet/recovery.go:298-307 | the number of invalid children in [nextUnfound, horizon) |
| Recovery.BranchRecoveryState.ExtendHorizon | wallet/recovery.go:221-243 | raises the horizon to nextUnfound + window + invalid children, or leaves it |
| Recovery.BranchRecoveryState.ReportFound | wallet/recovery.go:257-272 | moves nextUnfound past the index and forgets the invalid children below it |
| Recovery.BranchRecoveryState.MarkInvalidChild | wallet/recovery.go:277-281 | marks the child and moves the horizon up one |
| Recovery.RunKeepsBelowHorizon | wallet/recovery.go:221-307 | in every run without overflow the marked children stay below the horizon and the horizon never shrinks |
| Recovery.CountsAddUp | wallet/recovery.go:298-307 | valid and invalid children fill [nextUnfound, horizon) |
| Recovery.ExtendedHorizonSuffices | wallet/recovery.go:221-243 | after extending at any point of a run at least window valid children lie ahead, exactly window if any were derived, and extending again derives none |
| Recovery.MarkingKeepsValidCount | wallet/recovery.go:277-281 | marking a new child keeps the number of valid children; marking one twice adds one |
| Recovery.PruningKeepsInvalidCount | wallet/recovery.go:257-272 | forgetting children below a found one does not change the invalid children that count |
| Recovery.OverflowShrinksHorizon | wallet/recovery.go:277-281 | at the largest uint32 marking sends the horizon to 0 |
| Recovery.ExtendOutcome | wallet/recovery.go:221-243 | the horizon rises to nextUnfound, window and marked children ahead, or stays; the indexes to derive are those gained |
| Recovery.FoundOutcome | wallet/recovery.go:257-272 | exactly the marked children below the found index are forgotten; an index already passed changes nothing |
| Recovery.MarkOutcome | wallet/recovery.go:277-281 | the child is added and the horizon one higher |
| Recovery.OverflowOutcome | wallet/recovery.go:221-272 | at the edge of uint32 sums wrap around |
| Mnemonic.UnpackPack | internal/prompt/mnemonic.go:102-202 | 11 bytes come back from their 8 indexes, each below 2048 |
| Mnemonic.PackUnpack | internal/prompt/mnemonic.go:102-202 | 8 indexes below 2048 come back from their 11 bytes |
| Mnemonic.UnpackAllPackAll | internal/prompt/mnemonic.go:102-202 | the same for every whole number of groups |
| Mnemonic.PackAllUnpackAll | internal/prompt/mnemonic.go:102-202 | the converse for every whole number of groups |
| Mnemonic.ConvertSeed | internal/prompt/mnemonic.go:102-143 | the loop of seedToWords, with its length error |
| Mnemonic.PackBit | internal/prompt/mnemonic.go:120-139 | the bits of 11 bytes, in order, are those of their 8 indexes of 11 bits, most significant first |
| Mnemonic.SeedWordBits | internal/prompt/mnemonic.go:102-143 | word k of a seed is the one whose index has bits 11k to 11k+10 of the seed followed by the first byte of its hash |
| Mnemonic.ConvertWords | internal/prompt/mnemonic.go:166-202 | the loop of wordsToSeed, with its length and checksum errors and unknown words read as 0 |
| Mnemonic.SeedRoundTrip | internal/prompt/mnemonic.go:102-202 | every 32-byte seed comes back from its 24 words |
| Mnemonic.WordsRoundTrip | internal/prompt/mnemonic.go:102-202 | an accepted list comes back from its seed iff all its words are in the word list |
| Mnemonic.LookUpMeans | internal/prompt/mnemonic.go:168-172 | a word is trimmed, and counts as word 0 if it is then unknown |
| Mnemonic.AcceptedExactly | internal/prompt/mnemonic.go:166-202 | a list is accepted, as a given seed, iff its normal form is that of the seed's own words |
| Mnemonic.UnknownWordAccepted | internal/prompt/mnemonic.go:166-202 | wherever a seed's words use word 0 an unknown string may stand, and the list is accepted as the same seed |
| Mnemonic.UnknownWordExample | internal/prompt/mnemonic.go:166-202 | such a list, for the all-zero seed |
| BirthdaySearch.LocateBirthdayBlock | wallet/wallet.go:544-620 | the search terminates, fails only if the backend does, and settles on a block within two hours of the birthday or on one too early whose successor is too late or best |
| BirthdaySearch.NothingIsMissed | wallet/wallet.go:544-620 | with non-decreasing timestamps no block later than the margin lies below the result, and a block within the margin is found if an inner one exists |
| NotificationQueue.Handler.Select | chain/rpc.go:251-301 | one round of the select loop |
| NotificationQueue.QueueKeepsOrder | chain/rpc.go:236-301 | in every interleaving delivered followed by pending is what came in, and sending is enabled iff something is pending, its head next |
| NotificationQueue.BestIsLastConnected | chain/rpc.go:251-301 | the block answered is the last connected one delivered, or the initial one |
| NotificationQueue.ClosingDrains | chain/rpc.go:251-301 | a loop that ends other than by quitting has delivered everything |
| NotificationQueue.FreshQueueKeepsOrder | chain/rpc.go:236-301 | all of this from the start of the loop |
| NotificationQueue.EnabledExactly | chain/rpc.go:251-301 | notifications are taken until the channel closes, sent while there are any, queries answered until the end |
| NotificationQueue.EndsExactly | chain/rpc.go:251-301 | the loop ends on quitting, on closing with nothing pending and on sending the last one after closing, and on nothing else |
| BucketMigration.Depth | waddrmgr/migrations.go:105-136 | a nested bucket is less deep than the one it lies in, so the recursion ends |
| BucketMigration.MigrateRecursively | waddrmgr/migrations.go:105-136 | succeeds iff no value meets a bucket; then the source key is gone, the destination is overlaid at every depth, and every other entry is as before |
| BucketMigration.MoveEntry | waddrmgr/migrations.go:105-136 | one entry of the migrated bucket, value or bucket |
| BucketMigration.OverlayAt | waddrmgr/migrations.go:105-136 | path by path: the moved values are all there, and old ones stay where the moved tree has none |
| BucketMigration.OverlayKinds | waddrmgr/migrations.go:105-136 | at every path lies what the moved tree has there, or else what the old one has, empty buckets included |
| BucketMigration.CompatibleExactly | waddrmgr/migrations.go:105-136 | a migration fails iff at some path one tree has a value and the other a bucket |

## Left out

- SyncRuns.RunKeepsWindow: after a transaction that failed once the tip in memory had moved, a run goes on with a restart; ChainSync.FailedConnectRunsAhead and CatchUp.RetryAfterFailedBatch say what happens without one.
- ChainSync.Wallet.CompareChains: rolling back the transaction store is a success flag, and its requires (stored heights are not negative) is what the runs keep.
- ChainSync.Wallet.SyncWithChain: waiting for the backend is left out; the located birthday block is a parameter.
- CatchUp.CatchUpRun.CatchOne: fetching the block, its matured list and its insertion are one success flag a height.
- BucketMigration.MigrateRecursively: buckets are values and a bucket's keys are gone through in some order fixed before the loop; updating in place while iterating and aliasing of the two buckets are not captured.
- TxoBuckets.TxStore.InsertTx: every ring an input names is known; notifications and malformed records of listed transactions are left out.
- TxoBuckets.TxStore.ConfirmSpentTXO: requires a matured outpoint; for others the program fails on a nil pointer.
- TxoTotals.RunAccounts: blocks that add or mature coins, or roll back, are no part of its runs.
- BlockCodec.ReadRecord: reading past the end of a value is the failure None, although Go may allow it within a slice's capacity.
- BlockCodec.ValueBlockInput: Go goes through a map in any order; the entries are a list in that order.
- TokenLayout.LayOut: privacy levels are taken in the order ring, pseudonym; their numbers are defined in a library.
- TokenBuilder.BuildToken: token inputs are CT pseudonym coins, as the layout needs; the script's contents beyond starts and counts, and the token library's proofs, are left out (a failure of the library is the flag `signs`).
- CoinSelection.CreateTransaction: ring contents, keys and memo are left out; a failure of the random source or of the library is the flag `signs`.
- CoinSelection.PlainTransfer: the wallet's crypto scheme check and waiting for the backend are left out.
- KeyManager.CurrentPassphraseUnlocks: says nothing about the script key, which Unlock never decrypts, nor about watching-only wallets, which have no private keys.
- KeyManager.LoadManager: the version, the crypto scheme and the sync state it also reads are left out.
- KeyManager.Manager.ChangePublicPassphrase: its failures to draw random values or to store are one flag each.
- Ciphers are symbols, and hashing, scrypt and the random generator are functions or drawn values; Injective (among the passphrases in use) and Lawful are their assumed laws.
- Fee computation (CalculateFee and the size estimators) is any function that may fail.
- Amounts and heights are unbounded integers except where stated; stored totals wrap at 64 bits, the recovery horizon at 32.
- sort.Sort is not stable; any descending order of the coins is covered.
- SetBirthdayBlock of the birthday store (wallet/chainntfns.go:452) moves the tip to any height and belongs to no run.
- Timestamps of coins, records of immature outputs and the other transaction-store buckets.
- FindEligibleTxosForCTAUT, the legacy txPqringCTToOutputs and createTransactionMLPByKeys.
- RecoveryManager, address derivation, NotificationServer, labels, RPC, configuration and the database drivers: bookkeeping or I/O.
