# A model of the EVM state database, verified in Dafny

The repository keeps a flat database of EVM state (accounts, storage slots, code by
hash, and the number of the last replayed block) correct while blocks are replayed
into it, snapshots are loaded into it, and clients read it through caches. This
project models those parts and proves what they promise.

Check everything with `dafny verify dfyconfig.toml`.

## The parts

| files | part |
|---|---|
| `Codec`, `Ordering`, `Store`, `StateTables` | byte layout of keys and values, the byte store with its iterators and write batches, and the four tables the bytes stand for |
| `Overlay`, `CacheDb`, `Flush`, `Replay`, `Replayer`, `Deployments`, `Chains` | transactions over the write-back overlay, the flush, the code a block deploys, and what it means from block to block |
| `StateDiffs`, `DiffEffects` | grouped application of a block's state diffs, and what each kind of diff leaves |
| `Pipeline`, `Restarts`, `Modes`, `Nonces` | the block pipeline, crashes and restarts, single-commit and hybrid mode, and what sender nonces make of a restart |
| `Snapshot`, `Resume`, `Importer`, `Exporter` | batched, resumable import; export; the round trip |
| `Ndjson`, `Fetcher`, `Feed` | the incremental line splitter, pagination, and the stream as the pipeline's input |
| `StackMachine`, `Recorder`, `Simulation`, `WasmClient`, `SliceLimits` | call execution, the access-list inspector, execution over readers that agree on what is recorded, the prefetch slice, and re-execution over it |
| `Lru`, `ClientCache`, `CodeCache`, `Evictions`, `RemoteDb`, `StateClient`, `ClientRuns` | the native client's caches, under any interleaving, calls through them, and when they need the server |
| `Divergence` | the search for a diverging block |
| `Text`, `Types`, `Blocks`, `Stepwise` | shared values, and one induction over the steps of a run |

Where the source changes state, the model does too: the database, the write batch,
the overlay, the inspector, the import target and the clients are classes, the block
loops, the import loop, the splitter and the bisection are loops, and each method is
proved against a function of the old state that the lemmas then reason about.

## Assumptions

- EVM execution is an arbitrary deterministic strategy (`Overlay.Evm`): it asks for
  accounts, slots and code one at a time, each request depending on the answers so
  far, and ends with a result or a rejection. Fork rules, the block environment and
  the way a system call is run are part of that strategy. For the prefetch slice it is
  a stack machine whose opcodes that look at state are written out, with the operand
  positions of the Ethereum Yellow Paper, appendix H.2; the other opcodes are one
  arbitrary function of the frame, which sees neither state nor the journal of writes.
  Server and client are given the same one.
- The `Nonces` results ask one thing of execution, and only of blocks with state diffs,
  at the transactions a block really executes, on its own run and on its run over its own
  first commit (`Nonces.RulesFrom`): an ordinary transaction that is executed found its
  sender's nonce equal to its own and leaves it higher, and no transaction lowers the
  nonce of a sender whose transaction was executed before. System calls are exempt, as in
  the source.
- `CacheDB` is revm's. Assumed: a read takes the overlay's value, then zero for a
  cleared or absent account, then the base's; commit skips untouched accounts, empties
  a self-destructed one and marks it not existing, marks a created one storage-cleared,
  otherwise keeps storage-cleared or marks touched; new code is inserted only if its
  hash is not there yet, and a new overlay has empty code under the zero hash and the
  hash of empty code. A change's account is the one committed, after revm has
  normalised its code hash.
- `LruCache` is the `lru` crate's: a lookup promotes, `contains` does not, a put into a
  full cache pushes out the least recently used key.
- A write batch reaches the database in one step. A crash loses memory, keeps
  everything committed, and may leave a progress file that was being written
  truncated anywhere.
- Number, hex and JSON parsers are arbitrary total functions; code hashes do not
  collide. `Parsers.HashInjective` is asked for only where code is written.
- `B256` and `U256` are both read as 256-bit numbers; the byte codec is proved
  separately. Line and entry counters are unbounded, with the source's `u64` limit on
  file length as a precondition where the progress file records a line number.
- The database object's `Valid()` (its bytes are well formed) is a class invariant:
  it holds of an empty database and every commit keeps it. Where bytes need not be well
  formed (the round trip) the exact condition is proved.

## Findings

Each is a lemma with a concrete input, or an exact condition.

- The comment at `crates/replayer/src/lib.rs:177-181`, the replayer's README and the
  pipeline's documentation call a block's effect atomic or crash-safe. In hybrid mode
  there are two commits, and a restart between them executes the block over its own
  output. The block is never applied twice (`HybridNeverTwice`): its first commit has
  moved the sender's nonce, so the first ordinary transaction is rejected. The restart
  succeeds exactly when the block executes no transaction at all (`ExecutesAgainIff`,
  `RestartEndsAlikeIff`, `HybridProgressIff`); otherwise every later run fails at that
  block and the database, with the block's first commit and the head before it, never
  changes again (`HybridWedged`). `IncrementRejected` is such a block.
- The flush leaves nonzero slots of cleared and destroyed accounts on disk. They are the
  only difference from plain tables, as long as every commit is clean, and only then
  (`BlockRefinesIff`); a later block sees them exactly when the account exists again
  (`NextBlockAgreesIff`, `StaleAfterRecreate`), or, after state diffs, exactly when the
  account survives or is made by the diffs and none overwrites the slot (`DiffsAgreeIff`,
  `DeletedComesBack`). Within a block, touching a destroyed account uncovers them
  (`CommitAgreesIff`, `RevivedWithinBlock`). A chain goes on as plain tables would exactly
  when every block avoids this (`ChainAlikeIff`).
- The pipeline checks continuity only from the second block of a run on; a source that
  starts above head + 1 leaves a hole and the run reports success (`FirstBlockUnchecked`).
  A run of any stream leaves no hole exactly when it processed nothing or the first block
  above the head is head + 1 (`NoHoleIff`).
- Code stored under the zero hash or the hash of empty code is hidden by the overlay's
  own entries, never by the tables, so state diffs that write such code are one more way
  to differ from plain tables (`DiffsAgreeIff`).
- An interrupted import resumes to the same accounts, storage and code, but loses the
  head when the crash falls after the progress write that covers the last metadata line
  (`ResumedImport`, `HeadLost`).
- The client README promises no further requests after a prefetch. The slice covers the
  recorded opcodes, the caller and the target, so re-execution over it goes through the
  server's machines exactly when each call starts alike and finds the same code
  (`SliceSufficesIff`): over a new cache, exactly when each call to an unrecorded address
  does not start, or finds no code there (`NewCacheSufficesIff`). The same condition gives
  the server's outcome over any cache true to the server (`TrueCacheSuffices`). Machines
  are compared as far as instructions can tell: the balance of an address nobody recorded
  is not part of the comparison. `UnrecordedCall` is a call that re-executes differently, and
  `UnverifiedCall` what the client then returns.
  Code stored under the zero hash is never sent (`CodeUnderZero`).
- A slice names no account that the server no longer has, so a wasm client keeps such an
  account, and the recorded reads agree exactly when it has none among the recorded
  addresses (`CoveredAgreesIff`).
- The native client's code reads are exact while at most `capacity` code hashes are
  touched (`CodeAfterAccount`). In general a code read returns the server's bytecode
  while fewer other bytecodes than the capacity have been used since that one was, and
  from then on no code at all (`CodeReadIs`, `CodePushedOut`). `ReadBackCall` is a call whose
  local run goes wrong that way, and is reported as unverified.
- The native client's README promises that a call needs no further request after its
  prefetch. It needs none when each of its reads was sent or cached before and the caches
  have room for the slice (`NoFurtherRequests`); an account or slot read that is not in the
  cache always needs one (`OfflineReadIff`), and an account that does not exist is never
  sent.
- `find_divergence_block` promises the first block where the remote departs. It answers
  with it exactly when the values still differ at the high block and at every later block
  it asks for on the way (`FirstDepartureFoundIff`); a value that departs and comes back
  can hide the first departure (`FirstDepartureMissed`).
- A state diff of kind `-` without a `next` value deletes nothing below account level; it
  only materialises the account. The model follows the code.

## Model

| member | source | states |
|---|---|---|
| Codec.AccountKeyRoundTrip | crates/common/src/keys.rs:10-22 | an address key decodes back exactly; decoding accepts 20 bytes and nothing else |
| Codec.StorageKeyRoundTrip | crates/common/src/keys.rs:40-58 | a storage key decodes back exactly; decoding accepts 52 bytes and nothing else, and is undone by encoding |
| Codec.StorageKeyToBytes | crates/common/src/keys.rs:40-45 | filling the buffer in place gives the 20 address bytes followed by the 32 slot bytes |
| Codec.StorageKeyOrder | crates/common/src/keys.rs:40-45 | bytewise order of encoded keys is numeric order on address, then slot |
| Codec.LexIsNumeric | crates/common/src/keys.rs:40-45 | bytewise order of equally long big-endian strings is the order of their numbers |
| Codec.InfoRoundTrip | crates/common/src/account.rs:18-44 | an account decodes back exactly; decoding accepts 72 bytes and nothing else, and is undone by encoding |
| Codec.InfoLayout | crates/common/src/account.rs:18-25 | the first 8 bytes are the nonce, the next 32 the balance, the last 32 the code hash, each as a big-endian number |
| Codec.InfoToBytes | crates/common/src/account.rs:18-25 | filling the 72-byte buffer in place lays out nonce, balance and code hash in that order |
| Store.BatchRefines | crates/state-db/src/lib.rs:270-316 | a committed batch of byte writes has exactly the effect of its entries on the tables, in order |
| Store.RepresentsInjective | crates/state-db/src/lib.rs:43-46 | tables determine the bytes that stand for them |
| Store.RepresentsFunctional | crates/state-db/src/lib.rs:43-46 | bytes determine the tables they stand for |
| Store.ReadsRefine | crates/state-db/src/lib.rs:85-131 | on well-formed bytes every getter finds what the tables hold and never fails |
| Store.StorageIteration | crates/state-db/src/lib.rs:216-231 | iteration yields every slot once, sorted by address and slot, each address contiguous |
| Store.AccountIteration | crates/state-db/src/lib.rs:199-213 | iteration yields every account once and never fails on well-formed bytes |
| Store.CodeIteration | crates/state-db/src/lib.rs:234-247 | iteration yields every code entry once |
| Store.StateDb.GetAccount | crates/state-db/src/lib.rs:85-92 | the stored account, none if missing, or the decoding error |
| Store.StateDb.GetStorage | crates/state-db/src/lib.rs:94-108 | the stored word, none if missing, or the length error |
| Store.StateDb.GetCode | crates/state-db/src/lib.rs:110-116 | the stored bytes, or none |
| Store.StateDb.GetHeadBlock | crates/state-db/src/lib.rs:118-131 | the stored head, none if missing, or the length error |
| Store.StateDb.Iterator | crates/state-db/src/lib.rs:199-203 | a column's keys, all of them, in bytewise order |
| Store.StateDb.IterAccounts | crates/state-db/src/lib.rs:199-213 | the walk of the column, skipping keys of the wrong length and stopping at the first value that does not decode |
| Store.StateDb.IterStorage | crates/state-db/src/lib.rs:216-231 | the walk of the column, skipping entries of the wrong length |
| Store.StateDb.IterCode | crates/state-db/src/lib.rs:234-247 | the walk of the column, skipping keys of the wrong length |
| Store.WriteBatch.DeleteAccount | crates/state-db/src/lib.rs:296-302 | buffers the delete whether or not the key is there, and reports whether it is |
| Store.WriteBatch.DeleteStorage | crates/state-db/src/lib.rs:304-310 | buffers the delete whether or not the key is there, and reports whether it is |
| Store.WriteBatch.Commit | crates/state-db/src/lib.rs:313-316 | all buffered writes reach the database in one step; it stays well formed |
| StateTables.ReadAfterApply | crates/state-db/src/lib.rs:251-317 | after a batch each key holds what its last write left; unwritten keys keep their value |
| StateTables.SameLastWrites | crates/state-db/src/lib.rs:251-317 | batches with the same last write for every key have the same effect |
| Overlay.LoadAnswers | crates/state-db/src/revm_db.rs:13-34 | reading through the overlay changes no later answer |
| Overlay.LoadRemembers | crates/replayer/src/lib.rs:63 | what has been read once is answered from the overlay, whatever the database then holds |
| Overlay.RunsAgree | crates/replayer/src/lib.rs:117-163 | execution over an overlay that agrees with plain tables ends the same way and leaves them in agreement |
| Overlay.CommitKeepsOk | crates/replayer/src/lib.rs:171-173 | commit keeps what the overlay holds of the base unchanged, and the preloaded empty code |
| Overlay.CommitAgreesIff | crates/replayer/src/lib.rs:171-173 | commit keeps overlay and plain tables in agreement exactly when it revives no stored slot and masks no code |
| CacheDbs.CacheDb.Basic | crates/replayer/src/lib.rs:63 | answers from the overlay or the database and remembers the answer |
| CacheDbs.CacheDb.Storage | crates/replayer/src/lib.rs:63 | the overlay's slot, zero for a cleared account, else the stored slot |
| CacheDbs.CacheDb.Run | crates/replayer/src/lib.rs:117-163 | the outcome and the overlay of executing through cached reads |
| CacheDbs.CacheDb.CommitChanges | crates/replayer/src/lib.rs:172 | merging account by account, in any order, commits the whole change set |
| Deployments.CommitDeploys | crates/replayer/src/lib.rs:172 | after a commit the overlay holds the code of every touched, undestroyed change that has some, created or not, unless it held code under that hash |
| Deployments.CommitLeaves | crates/replayer/src/lib.rs:172 | and nothing changes under a hash it held, or that no such change has code for |
| Flush.FlushedReads | crates/replayer/src/lib.rs:315-354 | what every key holds after a flush |
| Flush.FlushOrderIrrelevant | crates/replayer/src/lib.rs:315-354 | every order of walking the account, slot and contract maps gives the same database |
| Flush.FlushedSlot | crates/replayer/src/lib.rs:315-343 | a slot reads from the database as it did through the overlay exactly when it is not stale |
| Flush.FlushedAccountAndCode | crates/replayer/src/lib.rs:315-350 | accounts and code always read as they did through the overlay, except that code under the zero and empty hashes is the database's own, unchanged |
| Replayer.FlushSlots | crates/replayer/src/lib.rs:334-337 | every slot of the account is buffered once, in some order |
| Replayer.FlushAccount | crates/replayer/src/lib.rs:316-342 | the buffered writes of each of the four account states |
| Replayer.FlushAccounts | crates/replayer/src/lib.rs:315-343 | every account of the overlay is visited once |
| Replayer.FlushContracts | crates/replayer/src/lib.rs:345-350 | every non-empty bytecode of the overlay is buffered |
| Replayer.FlushCacheToDb | crates/replayer/src/lib.rs:308-358 | one commit; the tables become the flush of the overlay, whatever order the maps were walked in |
| Replayer.ExecuteTxs | crates/replayer/src/lib.rs:72-174 | the results and overlay of executing the transactions in order, or the first error |
| Replayer.ReplayBlock | crates/replayer/src/lib.rs:59-197 | one commit, or two with state diffs, each leaving exactly the modelled state; on error the database is untouched |
| Deployments.TransactionIs | crates/replayer/src/lib.rs:72-174 | a zero-address transaction without gas is passed over in a block with diffs and is a system call in any other; a rejection is an error that names its place; otherwise the changes are committed and the gas and success reported |
| Deployments.BlockReports | crates/replayer/src/lib.rs:59-197 | a replayed block reports its number and one result for each transaction, in order |
| Deployments.BlockDeploys | crates/replayer/src/lib.rs:172-187 | code that a transaction deploys under a hash the overlay has room for is in the database after the block's first commit |
| Deployments.NoOtherCode | crates/replayer/src/lib.rs:345-350 | under a hash that no transaction leaves code under, code reads stay as they were |
| Replay.TxsAlikeIff | crates/replayer/src/lib.rs:72-174 | overlay and plain tables have the same results, errors and answers after every number of transactions exactly when each executed one commits without reviving a slot or masking code |
| Replay.BlockRefinesIff | crates/replayer/src/lib.rs:59-187 | the same condition, both ways, for a flush after every number of transactions: accounts and code read as on plain tables, but for code under the two hashes of no code, and a slot does exactly when the flush did not leave it stale |
| Replay.UncleanShows | crates/replayer/src/lib.rs:171-187 | a commit that revives or masks always shows in the database: some read that the flush should not change comes out different |
| Replay.FlushAnswers | crates/replayer/src/lib.rs:308-358 | the same, for any overlay in agreement with plain tables |
| Replay.NextBlockAgreesIff | crates/replayer/src/lib.rs:63 | the next block starts in agreement exactly when no stale slot lies under an existing account |
| Replay.StaleAfterDestroy | crates/replayer/src/lib.rs:317-319 | a destroyed contract's slot stays on disk |
| Replay.StaleAfterRecreate | crates/replayer/src/lib.rs:320-338 | a recreated contract's old slot is visible to the next block |
| Replay.RevivedWithinBlock | crates/replayer/src/lib.rs:172 | destroying and then touching an account uncovers its old slot |
| Chains.DiffsAgreeIff | crates/replayer/src/lib.rs:175-183 | after a block with diffs the next block starts in agreement exactly when no stale slot lies under an account that survives or is made by the diffs without being overwritten, and the diffs write no code under a hash of no code |
| Chains.BlockAlikeIff | crates/replayer/src/lib.rs:59-197 | a block, with diffs or without, is alike after every transaction and to the next block exactly when its commits are clean and it leaves no visible stale slot |
| Chains.ChainAlikeIff | crates/replayer/src/lib.rs:59-197 | from any database, replaying a chain and executing it on plain tables are alike after every transaction and every block exactly when every block is clean |
| Chains.ChainRefines | crates/replayer/src/lib.rs:59-197 | after a clean chain, hybrid blocks included, the database answers execution as plain tables do |
| Chains.DeletedComesBack | crates/replayer/src/lib.rs:230-240 | an account that one block's diffs delete and the next one's make again has its old slots back |
| StateDiffs.GroupByAddress | crates/replayer/src/lib.rs:222-228 | each address's group is its diffs, in block order |
| StateDiffs.BufferDiff | crates/replayer/src/lib.rs:251-290 | the write a diff buffers and its change to the account, including the cases that do nothing |
| StateDiffs.AddGroup | crates/replayer/src/lib.rs:243-293 | a surviving address's writes in diff order, its account last |
| StateDiffs.ApplyStateDiffs | crates/replayer/src/lib.rs:217-300 | one commit; the tables become what applying the diffs one by one in block order gives |
| DiffEffects.AccountHolds | crates/replayer/src/lib.rs:230-293 | a deletion of any account-level key removes the account; any other diff makes it exist, with nonce, balance and code hash as the last diff that gives each says, or as they were |
| DiffEffects.SlotHolds | crates/replayer/src/lib.rs:275-289 | a slot is what the last diff for it says: no entry for kind "-", else the number, or zero if it does not parse; nothing else, and no diff of a deleted account, touches it |
| DiffEffects.LastSlotDiff | crates/replayer/src/lib.rs:279-286 | so a slot diff that none later overrides is in the database |
| DiffEffects.CodeHolds | crates/replayer/src/lib.rs:266-274 | the bytecode of every code diff of a surviving account is stored under its hash, and no other code is |
| StateDiffs.GroupedIsSequential | crates/replayer/src/lib.rs:217-300 | grouping, folding and batching equals sequential application, for every order of the groups |
| StateDiffs.DiffedAt | crates/replayer/src/lib.rs:230-296 | what every key holds after a block's diffs; an address with an account-level deletion loses its account and keeps its slots |
| StateDiffs.DiffedTwice | crates/replayer/src/lib.rs:217-300 | applying a block's diffs twice equals once |
| StateDiffs.DiffedEqualIff | crates/replayer/src/lib.rs:217-300 | diffs bring two states together exactly when they differ only in what the diffs overwrite |
| Pipeline.RunSound | crates/replayer/src/pipeline.rs:118-173 | at every point of a run on any stream: processed numbers are consecutive and above the head, the statistics and the head match them, and the tables are their fold |
| Pipeline.RunReport | crates/replayer/src/pipeline.rs:105-177 | blocks processed is last minus first plus one; the head is the last processed block or unchanged |
| Pipeline.RunEnds | crates/replayer/src/pipeline.rs:118-173 | a run takes its whole stream, or ends at an offending item with exactly the wanted blocks before it in the database |
| Pipeline.WantedMembers | crates/replayer/src/pipeline.rs:122-127 | the wanted blocks are those of the stream above the starting head |
| Pipeline.CallbackAsked | crates/replayer/src/pipeline.rs:160-172 | a run that has not stopped had the callback's agreement after every block; one that has, after every block but its last |
| Pipeline.RefusalStops | crates/replayer/src/pipeline.rs:170-172 | a callback that first refuses after block k leaves exactly the first k wanted blocks, if nothing failed before |
| Pipeline.HandleBlock | crates/replayer/src/pipeline.rs:122-171 | one block of the loop body: skip, gap error, replay error, or one more processed block |
| Pipeline.RunPipeline | crates/replayer/src/pipeline.rs:90-178 | the whole run: reported statistics or error, the tables, and every state its commits left |
| Pipeline.FoldIsReplayAll | crates/replayer/src/pipeline.rs:141-144 | the pipeline's fold is block-by-block replay |
| Restarts.ReplayNext | crates/replayer/src/pipeline.rs:103-144 | replaying the next block from any reached state, even one left between two commits, ends exactly one block further if it succeeds |
| Restarts.SessionSafe | crates/replayer/src/pipeline.rs:103-174 | one run cut after any commit stays on the chain and never moves the head back |
| Restarts.RestartsSafe | crates/replayer/src/pipeline.rs:103-174 | over any sequence of crashed and completed runs the database is the exact fold of the chain, or between the commits of the next block |
| Restarts.HeadNeverBack | crates/replayer/src/pipeline.rs:118-127 | no later run moves the head back |
| Restarts.SingleCommitExact | crates/replayer/src/lib.rs:184-187 | with one commit per block every reachable state is the exact fold up to its head |
| Restarts.ProgressIff | crates/replayer/src/pipeline.rs:103-174 | an uncut run that reaches the next block gets past it exactly when replaying it from the present state succeeds |
| Restarts.StuckForever | crates/replayer/src/pipeline.rs:141-171 | once that replay fails, no later run changes the database |
| Modes.SingleModeSafe | crates/replayer/src/lib.rs:184-187 | the same for a chain without state diffs replayed by the source's block replay |
| Modes.SingleModeRefines | crates/replayer/src/lib.rs:184-187 | so after any crashes and restarts, if the blocks up to the head are clean, the database answers execution as plain tables do |
| Modes.HybridSameEndIff | crates/replayer/src/lib.rs:177-183 | it ends in the uncrashed state exactly when re-execution succeeds and disturbs only what the diffs overwrite |
| Modes.HybridModeSafe | crates/replayer/src/lib.rs:177-183 | a chain whose blocks, executed again over their own first commit, either fail or flush to it again survives any number of crashes, between commits or between blocks |
| Nonces.ExecutesAgainIff | crates/replayer/src/lib.rs:72-145 | restarted between its two commits a block executes again, and then flushes to the same state, exactly when none of its transactions is executed at all |
| Nonces.RestartEndsAlikeIff | crates/replayer/src/lib.rs:175-183 | under the same condition, and no other, such a restart goes through the same states and ends in the uncrashed one |
| Nonces.HybridNeverTwice | crates/replayer/src/lib.rs:177-183 | over any crashes and restarts no block of a chain is applied twice, if the nonce rules hold along the runs the chain makes |
| Nonces.HybridProgressIff | crates/replayer/src/pipeline.rs:118-144 | after a crash between the commits a full run makes progress exactly when the block executes nothing |
| Nonces.HybridWedged | crates/replayer/src/pipeline.rs:141-171 | otherwise no later run ever changes the database again |
| Nonces.IncrementRules | crates/chain-spec/src/lib.rs:242-277 | a slot-increment transaction that checks and bumps its sender's nonce keeps the nonce rules on every database |
| Nonces.IncrementRejected | crates/replayer/src/lib.rs:144-161 | crashed between its commits its block leaves the slot incremented and the head unmoved, and is rejected on every restart |
| Modes.NoHoleIff | crates/replayer/src/pipeline.rs:118-144 | for any stream over tables with a head, every number from the old head up to the new one was processed exactly when nothing was, or the first block above the head has the next number |
| Modes.FirstBlockUnchecked | crates/replayer/src/pipeline.rs:129-139 | a run of one block at any greater number reports success, moves the head there and leaves a hole |
| Snapshot.TornProgress | crates/snapshot/src/lib.rs:308-318 | any prefix of the written number reads back as at most that number, and the whole of it exactly |
| Snapshot.SettledByCommit | crates/snapshot/src/lib.rs:167-179 | committing the lines up to `c` gives every key no later line writes its final value |
| Snapshot.DiskOkAdmits | crates/snapshot/src/lib.rs:167-179 | a sound disk stays sound under any committed prefix and any progress text that reads as no more than it |
| Snapshot.CommitSafe | crates/snapshot/src/lib.rs:168-169 | committing the open batch keeps every disk state sound |
| Snapshot.ProgressSafe | crates/snapshot/src/lib.rs:170 | writing the progress file keeps every disk state sound, even when the write is torn |
| Snapshot.RunInv | crates/snapshot/src/lib.rs:127-180 | the importer's memory, batches and disk agree after every line |
| Resume.CrashesSound | crates/snapshot/src/lib.rs:103-189 | after any number of crashes at any step every key not written after the recorded progress has its final value |
| Resume.RunSafe | crates/snapshot/src/lib.rs:103-189 | every disk state a run passes through is sound, up to the last commit and the clean-up |
| Resume.FirstBadLine | crates/snapshot/src/lib.rs:142-143 | a run stops at the first bad line after those it skips, and reports its number |
| Resume.CompletesIff | crates/snapshot/src/lib.rs:127-180 | a run completes exactly when no line it reads is bad |
| Resume.CompletingRun | crates/snapshot/src/lib.rs:182-189 | the completing run leaves every account, slot and code entry at its final value and no progress file |
| Resume.ResumedImport | crates/snapshot/src/lib.rs:103-189 | after any crashes resuming leaves what one uninterrupted import would; the head agrees exactly when a metadata line is still to be read or the database already holds it; no more lines are skipped than the file has |
| Resume.HeadLost | crates/snapshot/src/lib.rs:167-186 | for every batch size, a file whose metadata line fills the batch loses its head to one crash |
| Resume.StatsTally | crates/snapshot/src/lib.rs:145-163 | the statistics count exactly the lines this run read, by kind, and name the last head among them |
| Resume.BatchesFull | crates/snapshot/src/lib.rs:165-180 | every batch but the last holds exactly the batch size of entries, and its progress is the line of the last of them |
| Importer.BufferEntry | crates/snapshot/src/lib.rs:145-163 | the write and the count of each kind of entry |
| Importer.HandleEntry | crates/snapshot/src/lib.rs:145-179 | an entry joins the batch; a full batch is committed, then recorded, and a new one begins |
| Importer.Finish | crates/snapshot/src/lib.rs:182-189 | the remaining batch with the head is committed, then the progress file goes |
| Importer.ImportLines | crates/snapshot/src/lib.rs:103-197 | the disk steps, in order, are those of the model's run; the statistics or the bad line's number are reported |
| Importer.ImportSnapshot | crates/snapshot/src/lib.rs:90-198 | the same with the source's batch size; success exactly when the run completes |
| Exporter.ExportSnapshot | crates/snapshot/src/lib.rs:225-300 | the written entries and counts are what iteration and the head read yield; a failure is the account walk's, with nothing written, or the head read's |
| Exporter.YieldsComplete | crates/snapshot/src/lib.rs:248-292 | an export misses no entry and repeats none |
| Exporter.ExportCounts | crates/snapshot/src/lib.rs:225-300 | the reported counts are the sizes of the three tables, and the reported head is theirs |
| Exporter.RoundTrip | crates/snapshot/src/lib.rs:122-186 | importing an export into an empty database rebuilds all four tables, for any batch size |
| Exporter.RoundTripThroughCrashes | crates/snapshot/src/lib.rs:103-189 | the same after any crashes on the way; the head comes back exactly when the last line is still to be read or was imported before |
| Exporter.ByteRoundTrip | crates/snapshot/src/lib.rs:248-292 | export and import give back the same bytes exactly when the store was well formed |
| Exporter.WellFormedRepresents | crates/state-db/src/lib.rs:43-46 | every well-formed store stands for some tables |
| Ndjson.LineYieldsIff | crates/sqd-fetcher/src/lib.rs:345-357 | a line yields a block exactly when it is text that, trimmed, is not blank, opens no array and parses; it is passed over exactly when blank; the other two errors likewise |
| Text.TrimIs | crates/sqd-fetcher/src/lib.rs:348 | trimming takes away the spaces at both ends and nothing else |
| Ndjson.JoinSplit | crates/sqd-fetcher/src/lib.rs:345-357 | the pieces contain no newline and join back to the body |
| Ndjson.SplitJoin | crates/sqd-fetcher/src/lib.rs:345-357 | no other way of cutting a body into lines does |
| Ndjson.SplitAppend | crates/sqd-fetcher/src/lib.rs:342-357 | more bytes only extend the last piece |
| Ndjson.ReadsLines | crates/sqd-fetcher/src/lib.rs:339-373 | a body reads as its lines wherever it is cut into chunks: within a line, at a newline, or into empty chunks |
| Ndjson.ReadsCompleteLines | crates/sqd-fetcher/src/lib.rs:334-358 | a body cut short by a transport error reads as its complete lines, and then the error, whatever would have followed |
| Ndjson.AllLinesGood | crates/sqd-fetcher/src/lib.rs:350-355 | without a bad line, and only then, every non-blank line is yielded in order |
| Ndjson.FirstBadLine | crates/sqd-fetcher/src/lib.rs:346-351 | the first bad line ends the stream after exactly the lines before it |
| Ndjson.DrainLines | crates/sqd-fetcher/src/lib.rs:345-358 | every complete line leaves the buffer, or the first bad one ends the reading |
| Ndjson.ReadBody | crates/sqd-fetcher/src/lib.rs:334-373 | reading chunk by chunk yields what splitting the whole body does; a transport error comes after the complete lines before it |
| Fetcher.TakePage | crates/sqd-fetcher/src/lib.rs:322-387 | one turn of the loop: finished, failed, or the next page's start |
| Fetcher.StreamBlocks | crates/sqd-fetcher/src/lib.rs:313-390 | the stream is the turns of the loop, ended by the range, an empty answer or an error |
| Fetcher.RangeMembers | crates/sqd-fetcher/src/lib.rs:313-317 | the range is exactly the dataset's blocks between the bounds, both included |
| Fetcher.RangeAfter | crates/sqd-fetcher/src/lib.rs:386 | asking again after the last block of a page asks for exactly the rest |
| Fetcher.WholeRange | crates/sqd-fetcher/src/lib.rs:320-388 | against any portal that serves non-empty first parts the stream is the whole range, once and in order, in at most one request per block plus one |
| Fetcher.StreamAll | crates/sqd-fetcher/src/lib.rs:313-390 | the loop without a bound ends against such a portal, with exactly that |
| Fetcher.TurnFailsIff | crates/sqd-fetcher/src/lib.rs:322-387 | a request ends the stream with an error exactly when it is refused or its body breaks off or has a bad line, and the blocks before that are yielded |
| Fetcher.PartOfRange | crates/sqd-fetcher/src/lib.rs:313-390 | against a portal that may fail anywhere the stream has yielded a first part of the range, in order; all of it if it finished; and an error is its last request's |
| Feed.ContiguousNeverGaps | crates/replayer/src/pipeline.rs:129-139 | contiguous blocks never trip the gap check, whatever the head and whatever the blocks do |
| Feed.FetchedNeverGaps | crates/replayer/src/pipeline.rs:118-139 | nor does a stream fetched from an honest portal over a contiguous dataset |
| Feed.FetchedOnChain | crates/cli/src/main.rs:372-391 | such a stream is a session on the chain, so the restart theorems apply to it |
| StackMachine.StepLocal | crates/api/src/inspector.rs:33-58 | an instruction depends on state only through the reads it touches |
| StackMachine.RunLocal | crates/client-wasm/src/lib.rs:287-312 | readers that agree on every read of a run take the same steps |
| StackMachine.CallStarts | crates/client-wasm/src/lib.rs:287-312 | a call that starts is one frame on top of its caller, with the code, account, caller, value and write permission of its kind |
| StackMachine.CallEnds | crates/client-wasm/src/lib.rs:287-312 | its caller finds the output and whether it succeeded, and after a failure the writes of before the call |
| StackMachine.StartIff | crates/api/src/lib.rs:308-330 | a call starts exactly when its sender's nonce is zero, its sender has no code or a delegation, and its value can be paid; as one frame with the target's code and the call's data, caller and value, and the value moved |
| Simulation.StepSame | crates/client-wasm/src/lib.rs:287-312 | over two readers that agree on what is recorded, any instruction but a call takes machines alike up to unrecorded balances to such machines |
| Simulation.CallSameIff | crates/client-wasm/src/lib.rs:287-312 | a call does exactly when it can be paid over both readers or over neither, and if it can, finds the same code |
| Simulation.RunSameIff | crates/client-wasm/src/lib.rs:287-312 | a run of any length does exactly when every call of it does |
| Simulation.HarmlessRunIff | crates/client-wasm/src/lib.rs:106-133 | if the second reader knows only recorded accounts, exactly when each call of the first reader's run to an unrecorded address does not start, or finds no code |
| Recorder.AccessListInspector.Step | crates/api/src/inspector.rs:33-58 | what is recorded before an instruction: the operand on top of the stack, if there is one |
| Recorder.RecordedIff | crates/api/src/inspector.rs:33-58 | exactly the accounts and slots that the run's instructions name are recorded |
| Recorder.Inspect | crates/api/src/lib.rs:326-340 | execution under the inspector is execution, and the accesses are all those of its instructions |
| Recorder.SliceAccount | crates/api/src/lib.rs:356-377 | an accessed account goes in if it exists, with its code if its hash is neither of the two for no code and the code is stored |
| Recorder.SliceSlots | crates/api/src/lib.rs:379-386 | every accessed slot goes in with its stored value, or zero |
| Recorder.BuildSlice | crates/api/src/lib.rs:346-387 | the slice holds exactly the accessed accounts, slots and code, as the database does |
| WasmClient.PostPrefetch | crates/api/src/lib.rs:308-398 | an error if the sender's nonce is not zero, the sender has code other than a delegation, or cannot pay; else the call's outcome, its accesses with caller and target, and their slice |
| WasmClient.DbReaderReads | crates/state-db/src/revm_db.rs:13-34 | the read interface answers from the tables: a missing slot is zero, missing code is empty |
| WasmClient.RecordCovers | crates/api/src/inspector.rs:33-58 | the inspector records every read of the opcodes it watches |
| WasmClient.CoveredAgreesIff | crates/client-wasm/src/lib.rs:106-133 | every recorded read agrees with the server exactly when the cache, however old, holds no account the server dropped and no wrong code that the slice leaves out |
| WasmClient.TrueIsFresh | crates/api/src/lib.rs:367-376 | a cache true to the server holds nothing of that kind, unless code is stored under the zero hash |
| WasmClient.PourTrue | crates/client-wasm/src/lib.rs:242-280 | a cache true to the server stays true when a slice is poured into it |
| WasmClient.SliceSufficesIff | crates/client-wasm/src/lib.rs:106-133 | re-execution over the slice starts alike, and goes through the server's machines if and only if every call starts alike and finds the same code; then it has the server's outcome; for any cache with nothing of that kind |
| WasmClient.NewCacheSufficesIff | crates/client-wasm/src/lib.rs:106-133 | over a new cache, and no recorded code under the zero hash, if and only if every call of the server's run to an unrecorded address does not start, or finds no code |
| WasmClient.TrueCacheSuffices | crates/client-wasm/src/lib.rs:242-312 | such a run has the server's outcome over any earlier cache that is true to the server, under the same proviso |
| WasmClient.SliceSuffices | crates/api/src/inspector.rs:33-58 | a run whose calls all go to recorded addresses, the caller or the target is the server's, journal included, with the server's outcome |
| WasmClient.WasmStateClient.Populate | crates/client-wasm/src/lib.rs:242-280 | filling the cache entry by entry pours the slice over it |
| WasmClient.WasmStateClient.Call | crates/client-wasm/src/lib.rs:368-444 | the slice is poured into the cache; in verify mode the result is the outcome of running the call over that cache, verified exactly when it is the server's, or an error if it does not start there; it is the server's whenever the conditions above hold; otherwise the server's outcome is passed on |
| SliceLimits.UnrecordedCall | crates/client-wasm/src/lib.rs:106-133 | a call into an unrecorded account returns something on the server and nothing over its slice |
| SliceLimits.UnverifiedCall | crates/client-wasm/src/lib.rs:422-444 | for that call a new client returns its own output, unverified |
| SliceLimits.FetchSuffices | crates/client/src/lib.rs:299-355 | over a reader that fetches on a miss every program runs as on the server |
| SliceLimits.CodeUnderZero | crates/api/src/lib.rs:367-376 | code stored under the zero hash runs on the server and is missing from the slice |
| Lru.GetValid | crates/client/src/lib.rs:43-47 | a lookup changes no entry and finds what is there |
| Lru.PutValid | crates/client/src/lib.rs:43-47 | after a put the key is there, and nothing appears that was not |
| Lru.RecentStays | crates/client/src/lib.rs:43-47 | with room for two, a key just looked up survives the next put |
| Lru.PutWithin | crates/client/src/lib.rs:43-47 | while at most `capacity` keys are in play nothing is pushed out |
| Lru.OldestGoes | crates/client/src/lib.rs:43-47 | a new key in a full cache pushes out the least recently used key and no other |
| Lru.SurvivesIff | crates/client/src/lib.rs:43-47 | a cached key is still there after any uses of other keys exactly when the keys used more recently, before and since, are fewer than the capacity |
| ClientCache.MoveTrue | crates/client/src/lib.rs:217-355 | no step of any operation caches or carries anything untrue of the server |
| ClientCache.CacheTransparent | crates/client/src/lib.rs:299-355 | for every capacity, schedule, failure and eviction the caches stay true |
| ClientCache.ReadsReturnServerState | crates/client/src/lib.rs:299-355 | every account and slot read that returns returns the server's value, a missing account as none and a missing slot as zero |
| CodeCache.MoveKeeps | crates/client/src/lib.rs:224-278 | every step keeps the code of every cached or returned account in the cache |
| CodeCache.RunCovered | crates/client/src/lib.rs:224-278 | so does every interleaving that touches at most `capacity` code hashes |
| CodeCache.CodeAfterAccount | crates/client/src/lib.rs:328-336 | then, once an account has been read, its code read returns the server's bytecode |
| CodeCache.CodePushedOut | crates/client/src/lib.rs:328-336 | two contracts at capacity one: the first one's code reads as empty |
| Evictions.CodeReadIs | crates/client/src/lib.rs:328-336 | in any interleaving a code read returns the server's bytecode while fewer other bytecodes than the capacity have been used since that one, and no code afterwards |
| RemoteDbs.RemoteDB.BasicRef | crates/client/src/lib.rs:299-326 | a cached account, or one fetched with its code and then cached; a failed request is an error and caches no account |
| RemoteDbs.RemoteDB.StorageRef | crates/client/src/lib.rs:338-355 | a cached slot, or one fetched and then cached |
| RemoteDbs.RemoteDB.CodeByHashRef | crates/client/src/lib.rs:328-336 | cached code, or empty |
| RemoteDbs.RemoteDB.FetchAccount | crates/client/src/lib.rs:224-252 | the account, none if missing, and its code on the way |
| RemoteDbs.RemoteDB.FetchCodeForAddress | crates/client/src/lib.rs:254-278 | nothing if the code is cached or missing, else the code is cached |
| RemoteDbs.RemoteDB.Prefetch | crates/client/src/lib.rs:179-213 | the slice is put entry by entry, in its order |
| RemoteDbs.MissedSteps | crates/client/src/lib.rs:299-326 | a missed account read fetches and then caches what it fetched |
| ClientRuns.ReadFailsIff | crates/client/src/lib.rs:299-355 | a read fails exactly when a request of its own does, and otherwise returns an answer |
| ClientRuns.OneRequestEnough | crates/client/src/lib.rs:224-278 | an account read asks for code only of a contract whose code is not cached |
| ClientRuns.ReadCaches | crates/client/src/lib.rs:299-355 | an account or slot read that returns leaves its answer in the cache |
| ClientRuns.ReadTwice | crates/client/src/lib.rs:299-355 | so the same read a second time makes no request |
| ClientRuns.OfflineReadIff | crates/client/src/lib.rs:299-355 | without the server exactly the cached reads and the code reads return |
| ClientRuns.RunGetsThrough | crates/client/src/lib.rs:430-478 | a local run all of whose requests get through comes to an end |
| ClientRuns.NoFurtherRequests | crates/client/README.md:76 | a call that reads only what was sent or cached before, over caches with room for the slice, comes to the server's outcome though no request gets through |
| StateClients.ReadKeepsReady | crates/client/src/lib.rs:299-355 | a read ends with the server's answer or fails |
| StateClients.RunsAlike | crates/client/src/lib.rs:430-478 | re-execution over the caches comes to what the server's run did, unless a request fails |
| StateClients.ServedSlices | crates/api/src/lib.rs:346-387 | what the prefetch endpoint sends is true and carries the code of every contract in it |
| StateClients.ServedReady | crates/client/src/lib.rs:179-213 | pouring what the endpoint sent into caches that hold the code of their accounts leaves them ready for the call |
| CodeCache.NewCovered | crates/client/src/lib.rs:51-60 | a new client's caches are such caches |
| StateClients.StateClient.Call | crates/client/src/lib.rs:398-442 | in verify mode the result is the local run's over the filled caches, verified exactly when output and success are the server's, or an error if a request failed or the run was rejected; given covered caches and a slice as the endpoint builds it, it is the server's, and the caches stay covered; otherwise the server's outcome is passed on |
| ClientRuns.ReadBackCall | crates/client/src/lib.rs:430-442 | two contracts at capacity one: the call returns its own output, unverified |
| Divergence.Bisect | crates/validation/src/lib.rs:296-310 | the bisection, asking for exactly the blocks on the way to its answer, at most one for each bit of the distance |
| Divergence.BisectionFinds | crates/validation/src/lib.rs:296-310 | between a match and a difference the search settles on a block that differs while the one before matches |
| Divergence.BisectionIff | crates/validation/src/lib.rs:296-310 | the bisection settles on a block exactly when every block it asks for on the way there points to it |
| Divergence.FindDivergenceBlock | crates/validation/src/lib.rs:276-311 | none exactly when the high block matches, the low block if it already differs, else a boundary; the blocks it asked for; the first failing query's error |
| Divergence.SearchIff | crates/validation/src/lib.rs:276-311 | the exact condition for each answer, over the high block, the low block and the blocks asked for |
| Divergence.FirstDepartureFoundIff | crates/validation/src/lib.rs:264-275 | the answer is the first departure exactly when the values still differ at the high block and at every later block asked for |
| Divergence.FirstDivergence | crates/validation/src/lib.rs:264-275 | if the divergence is permanent the answer is the first diverging block |
| Divergence.FirstDepartureMissed | crates/validation/src/lib.rs:264-275 | a value that departs, returns and departs again is found at its second departure |

## Left out

- revm: gas, precompiles, block environment opcodes, signature checks; blocks differ only in the strategy they execute with. Server and wasm client build different block environments and may pick different forks; programs that can tell are outside the slice theorem.
- CREATE, CREATE2 and SELFDESTRUCT in the stack machine, and the code a delegated account (EIP-7702) names: like calls they reach accounts the inspector does not record, so they add unrecorded reads of the kind `UnrecordedCall` already shows.
- Fetcher.StreamBlocks: the source's loop has no bound against a portal that repeats itself, so for an arbitrary portal the model stops after a given number of turns; against an honest portal `StreamAll` has no bound and ends.
- Fetcher.TakePage: `last_block + 1` is not wrapped at the top of `u64`; likewise the pipeline's `last + 1`.
- StateClients.StateClient.Call: the server's run, its slice and which requests get through are parameters; the slice is any that the endpoint's rule (`Recorder.SliceOf`) allows.
- Retries and backoff, HTTP, WebSocket, batch endpoint, routing, metrics, logging, timers and progress callbacks beyond the answer of the pipeline's callback.
- JSON and hex text of requests, responses, snapshot lines and slices.
- I/O errors while reading or writing a snapshot, and a snapshot file that is cut short or changes between runs.
- Single-entry writes and deletes of the database outside a batch, compaction, opening, and the durability of commits against power loss.
- The blank-line rule of snapshot lines is the parser's; a line is blank, bad or one entry.
- `block_hash_ref` (always zero), chain rules and fork tables, account checks and sampling of the validator, and the floating-point statistics.
- Reorganisations, versioned keys and retention, which the repository plans but does not implement.
