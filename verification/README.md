# Verified models of the devtools server's stateful cores

This project models, in Dafny, the parts of the MCP devtools server whose correctness depends on
more than one call, and proves what they promise.

- **The durable audit journal.** A single writer numbers records, commits them in batches, folds
  every line into a hash chain, seals ranges with (signed) checkpoints and poisons itself at the
  first failed write. Recovery rebuilds all of that from the bytes. `Journal.dfy` gives one step of
  the system as a function of values; `JournalRuns.dfy` proves what every run keeps, over any order
  of batches, ticks, failed writes, kills, power losses and restarts; `JournalWriter.dfy` is the
  imperative writer and recovery, proved against those steps. `Reader.dfy`, `Verify.dfy`,
  `Tamper.dfy` and `Exports.dfy` treat the reader, the offline verifier and what a clean
  verification means; `VerifyReport.dfy` says what each line of a report means and `Issues.dfy` what
  a run ever signed. `Projection.dfy` is the SQL activity table that follows the journal.
- **The partition planner and the bounded k-way merge** (`TimeBounds.dfy`, `Merge.dfy`).
- **The OIDC validated-token cache against key rotation** (`OidcCache.dfy`), as interleaved steps.
- **`creds migrate`** as a transaction (`Migrate.dfy`) and as a rewrite that keeps the meaning of
  the configuration (`MigrateMeaning.dfy`, for the registry in `DeclaredRegistry.dfy`), against the
  runtime resolver in `Resolver.dfy`, where the credential broker's prediction is treated too.
- **The rotating audit log and the calendar** (`Rotation.dfy`, `Calendar.dfy`).

How the outside world appears. SHA-256 is a function parameter, and the tamper theorems conclude
"the same bytes, or these two computations exhibit a collision" instead of assuming injectivity.
JSON rendering and parsing are parameters under one law (a rendered checkpoint parses back to
itself); `JsonWitness.dfy` shows that the law can be met over any hash. A disk is its contents plus
how much of them a power loss must keep; a failed write leaves any prefix of its buffer, and a power
loss may bring back newline-free bytes of a torn record whose cut was not synced. Signature
keys are an accept relation. Clocks, keychain answers and I/O outcomes are parameters.

Results that differ from what the code or its comments suggest, each with an exact condition:

- A checkpoint may be given the last 64-bit sequence number, and a journal that ends so is refused at
  every later start (`JournalRuns.LastSequenceStrandsTheJournal`). Recovery succeeds exactly below
  that length (`JournalRuns.RecoveryAccountsForEverything`).
- The signed payload determines the checkpoint as soon as one of the two sides has newline-free text;
  with newlines on both sides two checkpoints can sign the same bytes.
- The deduplication key leaves metadata out and runs payload and labels together, so different records
  can share a key and the merge drops one; the key identifies a record exactly when the metadata agree
  and the label texts agree in presence and length.
- `src/cli/creds.rs:398-401` says a failed migration leaves no intermediate state. The code undoes
  nothing after a failed pre-read and leaves the current slot written after a failed readback of a stored
  value; after every other failure the keychain is restored if every undo works. The model follows the code.
- Migration files a secret under the account text in the file, and the runtime looks it up under what that
  text resolves to. So an account kept as a secret reference loses its secret
  (`MigrateMeaning.AccountReferenceLosesItsSecret`). `MigrateMeaning.MeaningKept` is the exact condition for
  every row. For an account read as it is written, it is that the value is trimmed and is neither a
  spelling of the sentinel nor a secret reference, or reads as a sentinel while the slot holds that text.
- Whenever the resolver answers, the only disagreement with the broker is an account of white space only,
  which resolves but is never predicted. Where the resolver refuses, as for a reference that did not
  resolve, the broker may still name a slot.
- The audit log goes on after a write that failed part way, with the partial record in the file and the
  size counter behind it. Records are whole exactly if no such write happened, and the size limit is kept
  while the counter knows every byte and can be passed as soon as it does not.
- From year 10000 on a timestamp is no longer in the form of section 5.6 of RFC 3339.

## Model

| member | source | states |
|---|---|---|
| Decimal.RenderU64 | src/audit/journal.rs:688-702 | the bytes from the returned index are the canonical decimal digits of the number; the rest of the buffer is untouched |
| Checkpoints.ChainBinds | src/audit/checkpoint.rs:73-78 | two line sequences of any lengths with one chain value are equal, or computing the chains exhibits a hash collision |
| Checkpoints.PrintLabel | src/audit/checkpoint.rs:82-90 | the loop prints the label: prefix and 64 hex digits |
| Checkpoints.ParseLabel | src/audit/checkpoint.rs:94-105 | returns a chain the text denotes, and refuses only texts that denote none |
| Checkpoints.LabelRoundTrip | src/audit/checkpoint.rs:82-105 | a printed label denotes its own chain value and no other |
| Checkpoints.NewCheckpointSays | src/audit/checkpoint.rs:141-158 | a new checkpoint carries the clock's time, the range it was given up to the number before its own, a chain text that denotes the chain value, the checkpoint before it, and no signature |
| Checkpoints.PayloadSays | src/audit/checkpoint.rs:164-180 | the signed bytes read back as seven lines: the kind, the number, first and last covered, the chain, the previous checkpoint or nothing, and the time |
| Checkpoints.SignatureMeans | src/audit/checkpoint.rs:196-216 | a signature is valid iff the checkpoint names a key and the first key of that name accepts it for the payload; a checkpoint is unsigned iff it carries neither |
| Checkpoints.PayloadBinds | src/audit/checkpoint.rs:164-180 | equal payloads force equal sequence and equal covered fields when one side has newline-free text, whatever the other holds |
| Checkpoints.PayloadAmbiguousWithNewlines | src/audit/checkpoint.rs:164-180 | two different checkpoints with newlines in their text sign the same payload |
| JournalRuns.SealFacts | src/audit/journal.rs:562-592 | a checkpoint line is one line, carries the next number and parses back to the checkpoint that was written |
| JournalRuns.StepKeeps | src/audit/journal.rs:446-548 | every event, repairs that fail and power losses that bring cut bytes back included, keeps the invariant: only genuine lines, acknowledged records in place and durable, a healthy writer's state accounts for the whole file |
| JournalRuns.RunKeeps | src/audit/journal.rs:424-548 | the invariant holds after every run of events, crashes and restarts |
| JournalRuns.AcksOnlyGrow | src/audit/journal.rs:515-519 | no continuation of a run takes an acknowledgement back |
| JournalRuns.AcknowledgedMeansDurable | src/audit/journal.rs:446-530 | at every later point of any run each acknowledged record is exactly the line its number names, inside the durable bytes, and no number is acknowledged twice |
| JournalRuns.SyncedBatchIsAcknowledged | src/audit/journal.rs:508-521 | a healthy writer acknowledges every record of a batch that was written and synced, under the numbers that follow the last one |
| JournalRuns.SealsWhenDue | src/audit/journal.rs:448-457 | a due tick and a clean close leave nothing unsealed, and a batch fewer records than the threshold |
| JournalRuns.PoisonIsFinal | src/audit/journal.rs:470-475 | from a poisoned or stopped writer on, until a restart, nothing is acknowledged, no line is added, and no byte but those a power loss brings back |
| JournalRuns.FailedWriteIsFinal | src/audit/journal.rs:502-529 | in any run, after an attempted write that fails (of a batch, of the checkpoint after it, of a checkpoint alone), until a restart: that batch is not acknowledged if its own write failed, nothing later is, no line is added, and no byte but those a power loss brings back |
| JournalRuns.LifeOnlyAppends | src/audit/journal.rs:678-681 | between a start and the next start or power loss the file only grows |
| JournalRuns.RecoveryAccountsForEverything | src/audit/journal.rs:718-791 | on every reachable disk recovery succeeds iff there are fewer than 2^64 - 1 lines, keeps every whole line, drops a partial last one, and finds numbers 1, 2, ... without a gap |
| JournalRuns.RestartRestoresTheWriter | src/audit/journal.rs:718-791 | killing a healthy writer and opening again gives back its own last sequence, chain, last checkpoint and count over the same bytes |
| JournalRuns.LastSequenceStrandsTheJournal | src/audit/journal.rs:562-566 | a checkpoint with the last 64-bit number is written without error and the journal can then not be opened |
| JournalRuns.RunReaches | src/audit/journal.rs:477-521 | every length below the limit is reached by a valid run, so the edge is real |
| Issues.RunIssues | src/audit/journal.rs:562-592 | over every run each sealing step, landed or not, signs a checkpoint over genuine lines; if it synced, those lines and its own begin the journal ever after; and the journal holds no checkpoint that was not issued over exactly the lines before it |
| JournalWriter.JournalFile.WriteBatch | src/audit/journal.rs:678-681 | a synced write appends the buffer durably; a failed one leaves a prefix of it |
| JournalWriter.JournalFile.Recover | src/audit/journal.rs:718-791 | the line-by-line scan returns the state that accounts for all whole lines and cuts the torn tail durably, or refuses and changes nothing; a repair that fails refuses too, with the file as it was or cut without being durable |
| JournalWriter.RenderLine | src/audit/journal.rs:488-493 | the digits are spliced in after the opening brace and the line is terminated |
| JsonWitness.StampInjective | src/audit/journal.rs:488-493 | a line determines its number and the rest of the record's body |
| JournalWriter.DrainConserves | src/audit/journal.rs:460-468 | draining the queue loses and reorders no record, takes at most the batch limit, and empties the queue unless the limit is reached |
| JournalWriter.WriterThread.Checkpoint | src/audit/journal.rs:562-602 | the sealing step of the system: on success the state covers the new line, on failure it is unchanged |
| JournalWriter.WriterThread.HandleTick | src/audit/journal.rs:448-457 | a tick is the system's tick step |
| JournalWriter.WriterThread.HandleClose | src/audit/journal.rs:532-539 | a clean close seals an unsealed tail |
| JournalWriter.WriterThread.BuildBuffer | src/audit/journal.rs:477-500 | the buffer is the numbered lines back to back, each boundary is where its line ends, and exhaustion is reported exactly when the numbers run out |
| JournalWriter.FoldLines | src/audit/journal.rs:510-514 | folding the buffer between boundaries is folding the lines |
| JournalWriter.WriterThread.HandleBatch | src/audit/journal.rs:470-529 | the loop body over one batch is the system's commit step; a synced batch with numbers left is answered with the next numbers in order; a poisoned writer refuses all and changes nothing |
| JournalWriter.WriterThread.HandleQueue | src/audit/journal.rs:446-530 | one turn over the queue is one system step, with every drained record answered, with a number if it was synced, and the others still queued |
| JournalWriter.WriterThread.Serve | src/audit/journal.rs:446-530 | draining the queue turn by turn is a run of the system in which every queued record is answered, in order, with the acknowledgements of that run; a healthy writer whose writes all sync answers each with a number |
| Reader.JournalReader.Next | src/audit/reader.rs:209-282 | returns the item the file holds at the reader's line (record with its recomputed chain, end, gap, unreadable or torn tail) and advances exactly past accepted records |
| Reader.JudgeMeans | src/audit/reader.rs:222-282 | a line is a record iff it carries a kind and the number that is due; a gap names the number due and the one there; a line without number or kind is unreadable |
| Reader.EndMeans | src/audit/reader.rs:209-221 | the reader is at the end iff its lines are the whole file, and a torn tail names the last number and how many bytes are left |
| Reader.JournalReader.Resume | src/audit/reader.rs:158-184 | refused exactly if the file is shorter than the offset; at a position of this file the reader stands where the first reader stood |
| Reader.AtBoundary | src/audit/reader.rs:209-221 | from any line boundary the bytes start with exactly the next whole line, or are the newline-free tail |
| Reader.GrownFile | src/audit/reader.rs:100-116 | a file that has grown shows a reader the same positions and records for its old whole lines |
| Verify.ScanJournal | src/audit/verify.rs:112-148 | the read loop computes the fold of all readable records and reports what stopped it |
| Verify.VisitClean | src/audit/verify.rs:194-247 | a record adds no problem iff it is not a checkpoint, or carries the chain over everything before it, covers exactly the range since the last checkpoint and (given keys) is validly signed |
| Verify.VerifyIsExact | src/audit/verify.rs:107-148 | no problem is reported iff the file ends at a line end and every line is fine; then counts, sealed range and chain are those the writer would hold |
| Verify.VerifierAcceptsEveryRun | src/audit/verify.rs:107-148 | after every run of the system verification reports a problem iff there is a torn tail, and otherwise the writer's own counts |
| VerifyReport.ReportNames | src/audit/verify.rs:107-247 | for every file and number: a chain, coverage or signature problem, or a missing signature, is reported there iff that is what is wrong with the checkpoint parsed there; unreadable iff the scan stops early or a checkpoint does not parse |
| VerifyReport.ScanNames | src/audit/verify.rs:194-247 | the same after any number of readable lines |
| VerifyReport.ScanCounts | src/audit/verify.rs:112-148 | on every file the counts are those of lines, checkpoints, accepted signatures and events since the last parsed checkpoint, and the sealed range is what that checkpoint covers |
| Tamper.CoversExactly | src/audit/verify.rs:209-233 | in a passing file a checkpoint covers a number iff it is the first checkpoint after it and the number is no checkpoint |
| Tamper.CheckpointsTile | src/audit/verify.rs:209-233 | checkpoints and their ranges tile 1 to the last checkpoint, every number in exactly one place |
| Tamper.SameChainSameHistory | src/audit/verify.rs:209-216 | a passing checkpoint with a genuine chain value forces the genuine lines before it, or a collision |
| Tamper.PassingFileIsTheGenuineHistory | src/audit/verify.rs:194-247 | over every run: in any file that passes and whose accepted signatures the run issued, the lines before each checkpoint are those the gateway sealed at that number, or a collision is exhibited; and they begin the journal if that seal synced |
| Tamper.JournalQualifies | src/audit/verify.rs:107-148 | after every run the journal itself meets that assumption under any keys, and passes under keys that cover the signers if it has no torn tail |
| Exports.FindSealed | src/audit/verify.rs:170-178 | the binary search finds the checkpoint with a number iff there is one |
| Exports.CompareExports | src/audit/verify.rs:150-179 | for each number the problem named is exactly what is wrong: repeated, past the end, not in the journal, or there with another line; none iff the exports are strictly increasing and each is a journal checkpoint |
| Exports.Reconcile | src/audit/verify.rs:150-187 | for sorted exports each number is named for exactly what is wrong with it, missing exports included; no problem iff they equal the journal's checkpoint lines |
| Exports.VerifyWithExports | src/audit/verify.rs:107-189 | the whole verification is clean iff the journal passes and the exports are exactly its checkpoint lines |
| Exports.ExportsAreVouched | src/audit/journal.rs:593-599 | whatever a run went through and whichever exports were lost, the exported checkpoints are the journal's own, each once and in order |
| Projection.ActivityProjection.ReadBatch | src/audit/activity_sqlite.rs:108-134 | one batch holds exactly the non-checkpoint records between the old and the new position; it takes no more lines than the row limit and no record once the byte limit is reached, and stops short only at one of the two; it fails only on a line that cannot be projected |
| Projection.ActivityProjection.Ingest | src/audit/activity_sqlite.rs:101-152 | rows and position advance together to the projection of the lines before the new position, or the table is untouched |
| Projection.ActivityProjection.Poll | src/audit/activity_sqlite.rs:77-99 | one poll of a grown file keeps the table the projection of the lines before the saved position; ready means all lines; unless a commit fails or a line is blocked it gets on or is caught up |
| Projection.ActivityProjection.PollAll | src/audit/activity_sqlite.rs:54-99 | over any run of polls with reads and commits that fail at will the table stays the projection of the lines before the saved position |
| Projection.ActivityProjection.PollLife | src/audit/activity_sqlite.rs:54-99 | polling after each event of a writer's life keeps the table the projection of the journal before the saved position |
| Projection.RowsAreTheEvents | src/audit/activity_sqlite.rs:111-149 | over every run of the journal the rows of the whole file are exactly its events, each under its number with its own line, and every acknowledged record is one |
| Projection.HealthyIsNotBlocked | src/audit/activity_sqlite.rs:111-134 | beside a healthy writer no line blocks the projection, so every poll that commits gets on or is caught up |
| Projection.GatheredTable | src/audit/activity_sqlite.rs:111-149 | a gathered batch completes the projection of a longer prefix, each record once |
| Merge.CheckOrdering | src/ingestion.rs:905-932 | the one-timestamp memory accepts exactly the files ordered as declared |
| Merge.PopHeap | src/ingestion.rs:804-818 | the heap yields the unique record that precedes all others in heap order |
| Merge.MergeOrderInPlainTerms | src/ingestion.rs:804-818 | the declared order: earlier time first, then lower partition (both the other way when reversed), then file order |
| Merge.OrderedInPlainTerms | src/ingestion.rs:905-932 | a file is ordered iff its timestamps never step against the direction |
| Merge.EmitsEachOnce | src/ingestion.rs:1034-1100 | the merge emits as many records as the input holds |
| Merge.EmitsInFileOrder | src/ingestion.rs:1034-1100 | inside a partition file order is kept, on ordered input or not |
| Merge.MergeIsGlobalSort | src/ingestion.rs:1034-1100 | the pop order of one slot per partition is the global sort in the declared order iff every partition is ordered as declared |
| Merge.SortUnique | src/ingestion.rs:804-818 | the global sort is unique, in both directions |
| Merge.NoKeyLost | src/ingestion.rs:1068-1090 | every input key is among the written records' keys |
| Merge.NeighboursBothWritten | src/ingestion.rs:1068-1088 | a record that follows one of its own partition is written, whatever its key |
| Merge.SinglePartitionUnchanged | src/ingestion.rs:1057-1100 | merging one partition without a limit returns it as it is, repeated records included, and counts no duplicate |
| Merge.KeyIdentifies | src/ingestion.rs:581-606 | records with equal keys are equal iff their metadata agree and their label texts agree in presence and length |
| Merge.MergeOfTwo | src/ingestion.rs:1057-1100 | merging one record from each of two partitions at one instant writes the second iff the keys differ |
| Merge.DifferentRecordsDropped | src/ingestion.rs:594-606 | two pairs of different records, one differing in metadata only and one where labels continue the payload, of which the merge writes one |
| Merge.MergePartitions | src/ingestion.rs:1014-1116 | without a limit the output is the merge order minus cross-partition duplicates and written plus dropped is the total input; with a limit it is the prefix of that length, the drops are those before the cut, and `limited` says whether the order went on; the heap is at its largest at the start, one record for each non-empty partition |
| TimeBounds.TryPartitions | src/ingestion.rs:668-698 | exactly min(requested, width) consecutive non-empty intervals from start to end, widths within one of each other, every intermediate sum in range; refused iff the width overflows |
| TimeBounds.EachInstantOnce | src/ingestion.rs:668-698 | every instant of the interval lies in exactly one partition, no other instant in any |
| TimeBounds.ParseIsExact | src/ingestion.rs:720-751 | every sign, whole part and fraction of up to nine digits parses to the instant denoted iff that fits 128 bits |
| TimeBounds.ParseWholeIsExact | src/ingestion.rs:720-751 | the same for texts without a dot |
| TimeBounds.ParseAcceptsNothingElse | src/ingestion.rs:720-751 | whatever the numeric branch accepts is one of those texts |
| TimeBounds.RoundTrip | src/ingestion.rs:720-762 | printing and parsing returns every signed 128-bit instant |
| OidcCache.OidcValidator.InstallKeys | src/auth/oidc.rs:1112-1136 | new keys, next generation, and only entries whose key is still published with the same material |
| OidcCache.Retain | src/auth/oidc.rs:1131-1134 | the pruning loop keeps exactly those entries |
| OidcCache.OidcValidator.RememberVerified | src/auth/oidc.rs:1213-1248 | the validator's state becomes that of the remember step: a validation of the current generation and a live token is answered from then on, and another changes nothing |
| OidcCache.RememberedIsAnswered | src/auth/oidc.rs:1213-1248 | a validation of the current generation and a live token is answered until the token ends or five minutes have passed, and no longer |
| OidcCache.OthersStayAnswered | src/auth/oidc.rs:1228-1248 | any other validation changes nothing; and no other token's answer changes, unless 4096 live entries leave no room, when all are forgotten |
| OidcCache.InstallKeepsCurrent | src/auth/oidc.rs:1112-1136 | new keys take away exactly the answers whose key is gone or has other material |
| OidcCache.ValidationIsCached | src/auth/oidc.rs:1333-1405 | snapshot, verification and insertion with nothing in between leave what the named key makes of the token in the cache |
| OidcCache.NewKeysValidate | src/auth/oidc.rs:1112-1136 | keys that are installed take effect at once |
| OidcCache.NothingElseIsCached | src/auth/oidc.rs:1333-1405 | a request under a missing key, or whose key refuses the token, caches nothing; clearing forgets every answer |
| OidcCache.AdmitKeys | src/auth/oidc.rs:1442-1469 | a key id is admitted iff exactly one usable entry offers it, with that entry's material |
| OidcCache.StepKeeps | src/auth/oidc.rs:1333-1405 | every interleaved step of requests, refreshes, clears and waiting keeps the cache safe |
| OidcCache.RunKeeps | src/auth/oidc.rs:1112-1248 | after every interleaving each entry names a key installed now with the same material and expires at the earlier of the token's end and five minutes after its validation |
| OidcCache.CachedAnswersAreCurrent | src/auth/oidc.rs:1195-1204 | a cached answer is what a currently installed key gives for that token, within both time limits; at most 4096 entries |
| Resolver.RowAgrees | src/auth/credential_broker.rs:138-194 | unless it fails, a row resolves iff it has a non-empty account and a secret, and is predicted iff moreover the account is not blank, with the account it resolves under |
| Resolver.RowRefused | src/auth/mod.rs:381-415 | a row fails iff its account is an unresolved reference, or its secret is a sentinel with no account or nothing stored, or an unresolved reference under an account |
| Resolver.SecretMeans | src/auth/mod.rs:452-563 | a secret is its trimmed text, or what is stored if it is the sentinel or not set; a sentinel with nothing stored and an unresolved reference are refused, and blank text is no secret |
| Resolver.ApiTokenComesFirst | src/auth/mod.rs:132-162 | the API token is used if it resolves and its failure is final; only without it does Bitbucket use the app password |
| Resolver.PredictionAgrees | src/auth/credential_broker.rs:138-194 | whenever the resolver answers for Bitbucket, Jira or Confluence, the label names the same row and account, or nothing, iff the row that has what resolution needs has no blank account: the API row, or for Bitbucket the app row when the API row lacks something |
| Resolver.BlankAccountIsNotPredicted | src/auth/mod.rs:381-415 | a token under a blank account resolves and is not predicted |
| Migrate.ReadVendorString | src/cli/creds.rs:773-830 | a text is returned iff every section leaves the key unset or gives that text and one gives it; nothing iff all leave it unset; a refusal otherwise |
| Migrate.PlanRowMeans | src/cli/creds.rs:832-889 | a row is rejected iff a setting is disputed or a secret has no account, skipped iff it has no secret, and otherwise planned under its account, for checking if the secret is the sentinel and for writing if not |
| Migrate.CheckConflicts | src/cli/creds.rs:1027-1058 | accepts exactly the plans in which no slot gets two values |
| Migrate.RewriteAliases | src/cli/creds.rs:1073-1096 | the key becomes the sentinel in every named section that has text for it, and nothing else changes |
| Migrate.WriteAllAt | src/cli/creds.rs:460-546 | after all writes each planned slot holds its planned value |
| Migrate.ApplyWrite | src/cli/creds.rs:502-546 | a write with its undo recorded can be taken back exactly; without it, as after a failed readback, no undo of the others restores the keychain |
| Migrate.RollbackIsExact | src/cli/creds.rs:1160-1181 | the rollback restores the keychain iff every undo works |
| Migrate.FailureMeans | src/cli/creds.rs:460-546 | each reason for stopping is given iff it holds: a failed read, a sentinel with nothing behind it, another value there without force, a failed write, a failed readback |
| Migrate.GoesThroughMeans | src/cli/creds.rs:460-589 | with a keychain that works a run goes through iff every sentinel has a non-empty entry and it is forced or no entry that was there differs from the file |
| Migrate.WithoutForce | src/cli/creds.rs:476-479 | a run without force that goes through leaves every entry that was there |
| Migrate.Migration.Rollback | src/cli/creds.rs:1160-1181 | the undo loop restores the prior entries, most recent first, passing over those whose undo fails |
| Migrate.Migration.Execute | src/cli/creds.rs:455-589 | done when nothing stops any plan, or aborted at the first plan that fails, for that reason; the keychain is as it was after a failed readback iff the value was not stored and every undo works, after a failed pre-read iff nothing had changed, and otherwise iff every undo works |
| Migrate.Migration.MigrateWith | src/cli/creds.rs:403-655 | it succeeds exactly when every row can be planned without conflict, every plan goes through and backup and file write work; success is the planned writes and the rewritten file, and without force every entry that was there is kept; an abort names the first thing that went wrong, leaves the file, and (if every undo works) the keychain iff it is neither a failed readback of a stored value nor a failed pre-read after a change |
| MigrateMeaning.RawIsLoaded | src/config/mod.rs:414-422 | the merged configuration gives a key its overlay value or the first section's text |
| MigrateMeaning.RewriteAllEntry | src/cli/creds.rs:591-609 | after the rewrite an entry is the sentinel iff it was text of a migrated key, and otherwise the same |
| MigrateMeaning.OtherRowsKeepTheirMeaning | src/cli/creds.rs:591-609 | rows that are not migrated resolve as before, under every overlay and every secret snapshot, whichever keychain reads fail |
| MigrateMeaning.MigratedRowKeepsItsMeaning | src/auth/mod.rs:381-563 | for every migrated row, overlay, snapshot, account setting and failing read: before and after agree iff a condition on the configuration and keychain before the run holds, by cases on the runtime account and on whether the loader sees the text |
| MigrateMeaning.MigratedRowResolves | src/auth/mod.rs:452-563 | where the loader sees the text and the runtime account is the one in the file, the row resolves afterwards to that account and the file's value |
| MigrateMeaning.OrdinaryRow | src/auth/mod.rs:452-563 | there, with reads that work, the condition is that the value means itself, or reads as a sentinel while the slot already holds it |
| MigrateMeaning.AccountReferenceLosesItsSecret | src/cli/creds.rs:832-889 | a row whose account is a reference resolves before the run and fails after it |
| MigrateMeaning.SecondRunChangesNothing | src/cli/creds.rs:832-889 | planning again finds only backed sentinels, so a run that can read the keychain goes through, writes no entry and rewrites no key |
| DeclaredRegistry.DeclaredIsWellFormed | src/auth/secrets.rs:164-260 | the declared rows, in the order migration plans them, and the section names have the form the migration theorems ask for |
| Rotation.RotatingWriter.constructor | src/audit/mod.rs:275-285 | an existing file is appended to with its size counted |
| Rotation.RotatingWriter.MoveUp | src/audit/mod.rs:307-315 | one archive replaces the next, or the step stops before or after the removal |
| Rotation.RotatingWriter.Rotate | src/audit/mod.rs:302-328 | on success the log loses exactly the archive that had to go and the current file is empty; stopped anywhere it loses at most its oldest file |
| Rotation.NothingEvictedWhileRoom | src/audit/mod.rs:302-315 | while the last archive number is free a rotation gives up nothing |
| Rotation.RotatingWriter.WriteRecord | src/audit/mod.rs:287-300 | an accepted record ends the log whole, after everything kept; a write that fails leaves exactly what landed, uncounted; a refused record leaves nothing; what the counter knows of a file stays within the limit or is one record |
| Rotation.RotatingWriter.Work | src/audit/mod.rs:261-272 | after any run, failed writes included, archives and current file are a byte suffix of what was there and all that landed, in at most max_files files; the accepted records are the counted pieces; and if no write left bytes uncounted every file made by the run is within the limit or one record |
| Rotation.RotatingWriter.OverrunsWhenStale | src/audit/mod.rs:287-300 | with bytes uncounted some record is accepted without a rotation that takes the file past the limit |
| Rotation.CountedIsSize | src/audit/mod.rs:296-298 | the size counter equals the file's size iff no write left bytes uncounted |
| Rotation.RunSplitsNoRecord | src/audit/mod.rs:261-272 | over a log that ended at a newline, after any run the log reads back line by line as what is kept of the old lines and of the run's records iff no write kept in it landed a proper part of one |
| Calendar.DaysToDateIsExact | src/logger.rs:358-370 | every day count gives a date of the proleptic Gregorian calendar whose independent day number it is |
| Calendar.DateToDaysIsExact | src/logger.rs:358-370 | every date is reached, from its own number |
| Calendar.DaysToDateWalks | src/logger.rs:358-370 | zero is 1970-01-01 and each next count is the next day, strictly later |
| Calendar.YearOfEraIsExact | src/logger.rs:362-365 | the year estimate is exact for every day of an era |
| Calendar.TimestampRoundTrip | src/logger.rs:345-355 | the text is in the form of section 5.6 of RFC 3339 iff the second is before year 10000, and then names the second it was made from |

## Left out

- JournalWriter.JournalFile.Recover: does not model read errors; directory syncs and the file lock are left out too. What a power loss brings back after a cut that was not synced is taken to be newline-free, as the torn tail was.
- JournalWriter.WriterThread.Checkpoint: does not itself hand the line to the export sink; exports are modelled as the synced checkpoints the sink took.
- Checkpoint cadence in time: a tick is due or not as a parameter; a tick drained into a batch is dropped, as in the code.
- The sorting of the exports by the sink; they reach the verifier sorted by sequence.
- Reader.JournalReader.Next: does not model the overflow of the expected number at the last 64-bit value, nor I/O errors in mid-read.
- Projection.ActivityProjection.Poll: rows are whole records, not the flattened columns; a panicking worker counts as a failed ingest.
- Merge: byte-size limits, cancellation, temporary files and artifact manifests; the deduplication key is the hashed text, not its SHA-256.
- The RFC 3339 branch of the Splunk bound parser and the Loki bound parser, which call a library.
- OidcCache.RunKeeps: tokens stand for their digests, one clock stands for both, and fetching, claim checks and back-off are left out.
- Migrate.Migration.MigrateWith: does not model secrets nested in `NINJAONE_SERVERS`; a failed keychain write has no effect.
- Resolver.PredictionAgrees: does not cover the two-pass caller in `src/auth/credential_broker.rs:38-79`, whose first pass sees an empty keychain and can name Bitbucket's second row.
- Retention sweeps, log redaction, HTTP transport, streaming parsers, CLI parsing and the remaining vendor tables would only add easy members.
