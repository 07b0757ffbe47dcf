# OriginDB: a verified model

This project models the core of OriginDB, a single-node in-memory database with a write-ahead log, a
changefeed and filtered subscriptions, and proves what that core keeps. `dafny verify dfyconfig.toml`
checks all of it.

The model has five parts. Code that updates state in place is modelled by classes and loops, each proved
against a function; what the system promises is then proved about those functions. Concurrent parts are
state machines over atomic steps, and their theorems hold for every interleaving.

1. **Durable commit and recovery.** `bytes`, `row_codec` and `wal` are the byte layer: the row codec, the
   framing of log records, the torn tail, and the write-ahead log object. `tables` says what a committed
   write and a replayed record do to the tables. `transaction` and `engine` are the objects that stage,
   commit and recover. `protocol` is the whole system as a state machine: committers enqueue under a lock, a
   writer drains, writes, syncs and acknowledges, a checkpointer renames a snapshot and truncates, and a
   crash, of the process or of power, cuts the file anywhere at or after its synced length, inside a magic that
   was never synced too, and leaves any part of what it keeps on disk and the rest only cached.
   `protocol_runs` holds the runs that show why its guards are there, `protocol_objects` that the log and
   engine objects take its steps. `snapshot` says what a JSON snapshot keeps. Rows are compared on key and
   columns.
2. **Filtered changefeed.** `predicate` (tokenizer, printer, evaluation), `lexical_grammar` (what each token
   may look like), `predicate_parser` (grammar and recursive descent) and `like` are the WHERE clause. `subscriptions` is the routing index, `view` is the
   incremental maintenance of a filtered view, `changefeed` the bounded history, `fanout` the ordered
   delivery behind a barrier.
3. **Reducer overlay.** `ordering` is key order and prefix ranges, `memtable` the table with its JSON cache and
   `table_writes` a commit's writes to it, `overlay` what a reducer sees, `overlay_commit` the commit of what
   it staged, `base64` the encoding of binary columns (section 4 of RFC 4648).
4. **Stream formats.** `websocket` and `websocket_server` are frames and their reassembly (sections 5.2 and
   5.3 of RFC 6455); `json_sdk`, `json_parser` and `json_grammar` are the guest SDK's JSON value,
   printer and parser and the grammar they keep to, `decimals` the value of digits, `sequences` a shared notion.
5. **Tick scheduler.** `tick` is the schedule arithmetic and the dispatch pass, `tick_protocol` the
   dispatcher and workers as a state machine.

## Where the code does less than its comments say

The model follows the code. Each of these has its exact condition, for all inputs, and a failing input or run; the
guards of the crash theorem have the theorem that they suffice and, for the checkpoint and the write error, a run
in which leaving one out fails.

- An INSERT of a committed key is resolved as an UPDATE but logged and published as an INSERT
  (`src/storage/storage_engine.cpp:354-359`, `:379`, `:397`). Its record replays to the live tables exactly when
  it changed nothing (`Tables.LoggedWriteReplays`, `Tables.ChangedUpsertReplaysWrong`), and a filtered view
  misses exactly those that take a row out of the filter (`Views.ViewMaintained`, `Views.SilentExitOccurs`),
  although the repository's README says leaving rows notify.
- A commit that fails part-way leaves its earlier writes applied and unlogged. The tables are as they were
  exactly when those writes together put back every row they touch (`Tables.CommitLeavesTables`); an input where
  they do not is `Tables.FailedCommitLeavesWrites`.
- Recovering a DROP_TABLE logs it again; a second recovery agrees exactly when no table dropped on the way was
  created again (`Tables.SecondRecoveryAgrees`, `Tables.RecreatedTableLost`).
- A torn tail is not cut before new appends, and a torn magic is not repaired. Whatever is appended after a
  restart is read back exactly when the crash left an empty file or one that ends at a frame boundary
  (`Wal.RestartReadableIff`).
- A checkpoint that renames its snapshot while the writer has work can mix two commits: a run that is clean up
  to that one step recovers the tables of no prefix of the history (`ProtocolRuns.RacingCheckpointMixesCommits`).
  The same can happen with an idle writer after the crash of a process, because opening the log syncs nothing,
  so the file it works on may not be on disk (`ProtocolRuns.UnsyncedCheckpointMixesCommits`).
  A write error is harmless while nothing is queued behind it, which the crash theorem includes; a run with a
  batch behind it, acknowledged after the error, again recovers no prefix (`ProtocolRuns.WriteErrorLeavesGap`).
- JSON snapshots lose value types; they are faithful exactly for null, bool, int64, finite double and string
  (`Snapshots.SnapshotFaithful`, `Snapshots.IntegerLosesWidth`).
- `TransactionImpl::Get` answers the first staged write of a key. That is the latest exactly when the two make
  the same row visible (`Transactions.ReadsLatestIff`).
- RunBatch is a barrier for the callbacks but not for its own closures: it can return while the worker that
  counted the batch to zero has yet to lock and notify the mutex on its stack
  (`src/changefeed/changefeed_engine.cpp:58-68`, `Fanout.ReturnOutrunsNotify`). Every run leaves nobody behind
  exactly when there is no pool or no event has more than one target (`Fanout.LeavesNobodyIff`).
- A history cap of one keeps nothing after a trim (`Changefeed.TrimKeepsNewest`), and a page of GetEvents keeps to
  its limit exactly when that is positive or there is nothing to return (`Changefeed.PageKeepsLimit`).
- The dispatcher's advance loop ends exactly for positive periods (`TickSchedules.PeriodMustBePositive`).
- LIKE agrees with wildcard matching exactly on subjects without carriage returns and line feeds (`Like.CompiledLikeIsWildcard`).
- Text messages arrive under every way to cut their stream exactly when no frame is over 16 MiB + 1 bytes
  (`WebSockets.DeliveredIff`).
- Nothing in the connection's thread catches what the frame parser throws, so an exception there ends the
  process. It throws exactly for the last four 64-bit lengths of a masked text frame, whose announced size
  wraps below the header (`WebSockets.ThrowsExactly`, `WebSockets.ThrowingFrame`).
- The Base64 decoder takes more than section 4 of RFC 4648 lets an encoder write. Text survives decoding and
  encoding exactly when it is canonical (`Base64.CanonicalIff`, `Base64.LaxlyDecoded`).

"Clean" in the crash theorem means: only fully applicable commits, no INSERT over an existing key that changes the
row, a write error only with an empty queue behind it and no checkpoint from then to the restart, a checkpoint
begun only while the writer has no work and the whole file is synced, every value in a snapshot stable, records
under 4 GiB, and restarts only from an empty file or one that ends at a frame boundary, in which no table that
was dropped has been created again.

## Model

| member | source | states |
|---|---|---|
| Protocol.CrashRecovery | src/storage/storage_engine.cpp:471-548 | after any clean run from an empty directory, with write errors behind which nothing is queued and restarts from cached or synced bytes among its steps, and a crash keeping at least the synced bytes, recovery yields the tables of a prefix of the operations in commit order, and that prefix holds every operation of every acknowledged transaction |
| Protocol.GroupCommit | src/storage/wal_impl.cpp:233-267 | in every reachable state of a clean run, file, drained batch and queue together are the log in consecutive sequence order, or after a write error the file is a prefix of it; live tables equal the replay of the history and of the snapshot and then the log; every acknowledged or published transaction is secured in full |
| Protocol.CheckpointSafe | src/storage/storage_engine.cpp:143-186 | with an idle writer and a synced file, a crash before the rename, after it, with the file emptied, or with the magic rewritten recovers the same tables |
| Protocol.CrashKeepsPrefix | src/storage/wal_impl.cpp:136-178 | whatever part of the unsynced tail a crash keeps, recovery gives a prefix of the history that reaches past everything secured |
| Protocol.StepKeeps | src/storage/storage_engine.cpp:303-451 | every enabled clean step (commit, definition, drain, write, sync, acknowledge, write error, publish, checkpoint steps, restart) keeps the protocol invariant |
| Protocol.RunKeeps | src/storage/storage_engine.cpp:303-451 | the invariant holds along every clean run |
| Protocol.RestartKeeps | src/storage/wal_impl.cpp:341-357 | a crash of the process or of power and the recovery after it re-establish the invariant: sequence numbers come from what was read, only what was on disk counts as synced, and tables dropped again are logged again |
| Protocol.TruncateKeeps | src/storage/wal_impl.cpp:180-204 | truncation behind a barrier keeps the invariant |
| Protocol.WriteErrorKeeps | src/storage/wal_impl.cpp:255-265 | a write error with an empty queue keeps the invariant: the file stays a prefix of the log |
| ProtocolRuns.RacingCheckpointMixesCommits | src/storage/storage_engine.cpp:176-183 | a run from the start, clean up to one rename whose only fault is a queue that is not empty, and a cut that recovers the tables of no prefix of the history |
| ProtocolRuns.UnsyncedCheckpointMixesCommits | src/storage/wal_impl.cpp:74-95 | a run from the start through the crash of a process and a restart, clean up to one rename by an idle writer whose only fault is a file not on disk, and a cut that recovers the tables of no prefix |
| ProtocolRuns.WriteErrorLeavesGap | src/storage/wal_impl.cpp:255-265 | a run clean before and after one write error with a batch queued behind it, which is later acknowledged, and a cut that recovers the tables of no prefix of the history |
| ProtocolRuns.RowPublished | src/storage/storage_engine.cpp:421-451 | a clean run that commits, writes, syncs, acknowledges and publishes a row |
| ProtocolObjects.WriterTurn | src/storage/wal_impl.cpp:233-293 | a turn of the log object's writer is a run of Drain, WriteChunk, Sync and Ack, or of Drain and WriteError, between states the object shows |
| ProtocolObjects.CommitTurn | src/storage/storage_engine.cpp:321-419 | the locked part of a commit on the engine object is one Commit step, also when it fails part-way or the log is broken |
| ProtocolObjects.RestartTurn | src/storage/wal_impl.cpp:74-95 | opening the file a crash left, however much of it is on disk, and recovering from it on new objects is one Restart step when no table is dropped again |
| ProtocolObjects.TruncateTurn | src/storage/storage_engine.cpp:183-186 | the checkpoint's truncation on the log object, the barrier and the turn it waits for included, is a run of the protocol from a renamed snapshot to an empty log, and always succeeds |
| Tables.ReplayIdempotent | src/storage/storage_engine.cpp:471-548 | replaying a log whose operations all settled (succeeded, or were a CREATE, a DROP, a DELETE or an INSERT of the row already there) over the tables it produced changes nothing |
| Tables.LoggedWriteReplays | src/storage/storage_engine.cpp:344-379 | the record of an applied write replays to the live tables if and only if it is not an INSERT that changed an existing row |
| Tables.GenuineCommitReplays | src/storage/storage_engine.cpp:326-387 | a write set has no failing write and no upsert exactly when all its records succeed, and then their replay is the commit |
| Tables.ReplayableCommitReplays | src/storage/storage_engine.cpp:326-387 | replay follows the live tables through every write of a commit if and only if every write applies and no upsert changes its row, and then its records all settle |
| Tables.CommitLeavesTables | src/storage/storage_engine.cpp:326-374 | a commit leaves the tables as they were if and only if the writes before the first failing one together put back every row they touch |
| Tables.CommittedRow | src/storage/storage_engine.cpp:326-374 | a commit, failed or not, changes each row by the applied writes that touch it and nothing else |
| Tables.FailedCommitLeavesWrites | src/storage/storage_engine.cpp:370-374 | an input whose commit fails with the tables already changed |
| Tables.ChangedUpsertReplaysWrong | src/storage/storage_engine.cpp:354-379 | an applied upsert whose record does not replay to the live tables |
| Tables.RecreatedTableLost | src/storage/storage_engine.cpp:503-505 | a log with a table created, dropped and created again, which a second recovery loses |
| Tables.CommitConcat | src/storage/storage_engine.cpp:326-413 | committing two write lists in turn is committing their concatenation, stopping at the first failure |
| Tables.ReplayConcat | src/storage/storage_engine.cpp:471-548 | replay composes over concatenated logs, and so does succeeding |
| Tables.SecondRecoveryAgrees | src/storage/storage_engine.cpp:503-505 | replaying the log with the DROP_TABLE records recovery appends gives the same tables if and only if no table it dropped exists at the end |
| Tables.DropsOfAbsent | src/storage/storage_engine.cpp:503-505 | dropping again tables that are not there changes nothing |
| Tables.RecordedOpReadBack | src/storage/storage_engine.cpp:376-387 | an entry built for an operation is read back as that operation, whatever order the columns were encoded in |
| Tables.RecordedOpsReadBack | src/storage/storage_engine.cpp:471-548 | the same for a whole log |
| Engine.StorageEngine.Apply | src/storage/storage_engine.cpp:344-374 | one write changes the tables as specified, or nothing if it cannot be applied |
| Engine.StorageEngine.CommitLocked | src/storage/storage_engine.cpp:321-419 | under the lock, all writes apply and are enqueued as one consecutively numbered batch with one event each, or the commit fails with the log untouched |
| Engine.StorageEngine.Commit | src/storage/storage_engine.cpp:303-451 | true only if every write applied, the queue up to and including its batch is in the file, synced in Fsync mode; events are published exactly then |
| Engine.StorageEngine.CreateTable | src/storage/storage_engine.cpp:222-246 | fails with nothing changed if the table exists, otherwise adds an empty table and appends its record |
| Engine.StorageEngine.DropTable | src/storage/storage_engine.cpp:248-270 | fails with nothing changed if the table is missing, otherwise removes it and appends its record |
| Engine.StorageEngine.RecoverEntry | src/storage/storage_engine.cpp:481-543 | one log entry has its replay effect; an undecodable one is skipped; only a DROP_TABLE that finds its table appends a record |
| Engine.StorageEngine.RecoverFromWAL | src/storage/storage_engine.cpp:471-548 | the tables become the replay of the readable log, and the file gains exactly the records of the re-executed drops |
| Engine.EventsRebuildTables | src/storage/storage_engine.cpp:389-411 | applying the events the commit loop built to the tables it began with rebuilds the tables it left; only those of a successful commit are published |
| Engine.EventCarriesRows | src/storage/storage_engine.cpp:389-411 | an event names the operation, table and key of its write, and carries the row before it and the row after it |
| TableWrites.ApplyToTable | src/storage/storage_engine.cpp:338-374 | one commit write on the table object, an INSERT of a committed key retried as an UPDATE, changes its rows and finds its old row exactly as the logical write does, and keeps the JSON cache coherent |
| TableWrites.OneTableOfMany | src/storage/storage_engine.cpp:326-374 | a write to a database is the same write to its one table, leaving the others alone |
| Engine.Enumerate | src/storage/row_codec.cpp:187-190 | iterating a column map yields each column once, in some order |
| Wal.LoggedEntryReadBack | src/storage/wal_impl.cpp:363-430 | an entry is written and read back unchanged if and only if its sequence is a positive 64-bit number and its record is under 4 GiB |
| Wal.RecordRoundTrip | src/storage/wal_impl.cpp:382-430 | deserializing a serialized record gives the entry |
| Wal.DecodedRecordSize | src/storage/wal_impl.cpp:382-430 | a decoded entry never needs more bytes than it was decoded from |
| Wal.TornTail | src/storage/wal_impl.cpp:155-176 | a log cut anywhere is read as exactly the entries whose frames lie wholly before the cut, in order |
| Wal.TornFile | src/storage/wal_impl.cpp:136-178 | the same for a file cut at or after its magic |
| Wal.CompleteFramesIsLargest | src/storage/wal_impl.cpp:155-176 | the number of entries kept is the largest whose frames fit before the cut |
| Wal.AppendsReadableIff | src/storage/wal_impl.cpp:155-176 | for every log and every cut of it, whatever is appended behind the cut is read back after the surviving entries if and only if the cut is a frame boundary |
| Wal.RestartReadableIff | src/storage/wal_impl.cpp:74-87 | for every cut of a log file, inside its magic too, everything appended after the restart is read back if and only if the cut left nothing or ended at a frame boundary |
| Wal.TornTailHidesLaterEntries | src/storage/wal_impl.cpp:78-87 | three bytes of a torn frame swallow every entry appended after them, up to 16 MiB |
| Wal.ReadFramesLoggable | src/storage/wal_impl.cpp:155-176 | whatever bytes are read, every entry that comes out could have been written |
| Wal.KnownCodes | src/storage/wal_impl.cpp:25 | the magic's bytes, and the codes of the record types in their declared order |
| Wal.RecordLayout | src/storage/wal_impl.cpp:363-380 | a frame is the length and the record; a record is its type, sequence, transaction and time stamp at fixed places, then table, key and data |
| Wal.SerializeRecord | src/storage/wal_impl.cpp:363-380 | the framed record's bytes |
| Wal.DeserializeRecord | src/storage/wal_impl.cpp:382-430 | the entry a record decodes to, or none if it is truncated |
| Wal.WriteAheadLog.constructor | src/storage/wal_impl.cpp:74-95 | an empty file gets the magic, others are left as they are, nothing is synced, and numbering continues after the highest readable sequence |
| Wal.WriteAheadLog.ReadAll | src/storage/wal_impl.cpp:136-178 | the loop reads what the log function reads, bad magic giving nothing |
| Wal.WriteAheadLog.AppendBatchAsync | src/storage/wal_impl.cpp:105-134 | consecutive sequence numbers, one batch at the end of the queue, or an immediate false when the log is broken |
| Wal.WriteAheadLog.WriteAndSync | src/storage/wal_impl.cpp:269-293 | the file grows by a prefix of the blob, by all of it on success, and success in Fsync mode syncs it |
| Wal.WriteAheadLog.WriterPass | src/storage/wal_impl.cpp:233-267 | everything queued is written in one pass, all its promises get the same answer, and a failure is permanent |
| Wal.WriteAheadLog.Drain | src/storage/wal_impl.cpp:318-329 | when the barrier succeeds everything queued before it is in the file, and synced in Fsync mode |
| Wal.WriteAheadLog.Truncate | src/storage/wal_impl.cpp:180-204 | refused with nothing changed below the last sequence, otherwise the file becomes the magic alone |
| RowCodec.RowRoundTrip | src/storage/row_codec.cpp:182-204 | decoding an encoding gives the same key and columns with exact types for every enumeration of the columns, if and only if all lengths fit 32 bits |
| RowCodec.TruncatedRowRejected | src/storage/row_codec.cpp:37-92 | every strict prefix of an encoding is rejected |
| RowCodec.DecodedRowFits | src/storage/row_codec.cpp:194-204 | whatever bytes are decoded, the row is one that survives encoding |
| RowCodec.ShortRowFits | src/storage/row_codec.cpp:31-33 | an encoding under 4 GiB has no overflowing length |
| RowCodec.StoreEnumeration | src/storage/row_codec.cpp:187-202 | storing the columns back one by one rebuilds the map whatever their order |
| RowCodec.ValueRoundTrip | src/storage/row_codec.cpp:107-178 | a value is read back with its type, leaving exactly the bytes after it |
| RowCodec.TaggedNumbers | src/storage/row_codec.cpp:95-148 | the tags and bytes of null, of 32-bit numbers and of booleans |
| RowCodec.TaggedWideNumbers | src/storage/row_codec.cpp:95-148 | the tags of 64-bit integers, time stamps and doubles, negative ones in two's complement |
| RowCodec.TaggedBlobs | src/storage/row_codec.cpp:95-148 | the tags of strings and binary columns |
| RowCodec.KnownRow | src/storage/row_codec.cpp:182-192 | the bytes of a row of one column: its key, the number of columns, the name and the value |
| RowCodec.EncodeValue | src/storage/row_codec.cpp:107-148 | the tagged bytes of a value |
| RowCodec.EncodeRow | src/storage/row_codec.cpp:182-192 | the bytes of a row for the enumeration the map yields |
| RowCodec.DecodeValue | src/storage/row_codec.cpp:150-178 | the bounded reader consumes exactly one value or fails |
| RowCodec.DecodeRow | src/storage/row_codec.cpp:194-204 | the decoding loop computes the row function, errors included |
| Bytes.GetU64Put | src/storage/row_codec.cpp:14-60 | a 64-bit integer written is read back, leaving what follows |
| Bytes.GetBlobPut | src/storage/row_codec.cpp:31-74 | a length-prefixed string written is read back, leaving what follows |
| Bytes.LittleEndian | src/storage/row_codec.cpp:14-35 | 32-bit and 64-bit numbers have their lowest byte first, and strings a 32-bit length before them |
| Snapshots.SnapshotFaithful | src/storage/storage_engine.cpp:143-220 | a snapshot loads back as the tables it was taken from if and only if every value is stable |
| Snapshots.IntegerLosesWidth | src/storage/storage_engine.cpp:711-754 | tables that a snapshot does not give back: a 32-bit integer reloads as a 64-bit one |
| Snapshots.Losses | src/storage/storage_engine.cpp:711-754 | what each type loads back as: binary columns vanish, time stamps and doubles that are not finite become null, 32-bit integers 64-bit ones, the rest stay |
| Snapshots.ReloadedIsStable | src/storage/storage_engine.cpp:711-754 | what a snapshot loaded is kept by the next one |
| Transactions.ReadsLatestWhenStagedOnce | src/storage/transaction_impl.cpp:70-88 | a transaction reads its own latest write of a key it staged once |
| Transactions.ReadsLatestIff | src/storage/transaction_impl.cpp:76-84 | for every write set that touches a key, Get answers its latest staged write if and only if the first and the last make the same row visible |
| Transactions.SecondWriteUnread | src/storage/transaction_impl.cpp:76-84 | after staging a key again, Get still answers its first staged write |
| Transactions.OwnWriteVisible | src/storage/transaction_impl.cpp:70-88 | a key not staged before is read as the row just staged for it, or as missing after a DELETE |
| Transactions.Transaction.Insert | src/storage/transaction_impl.cpp:23-36 | appends an INSERT while active, otherwise changes nothing |
| Transactions.Transaction.Update | src/storage/transaction_impl.cpp:38-52 | appends an UPDATE whose row carries the requested key |
| Transactions.Transaction.Delete | src/storage/transaction_impl.cpp:54-68 | appends a DELETE while active, otherwise changes nothing |
| Transactions.Transaction.Get | src/storage/transaction_impl.cpp:70-90 | answers from the first staged write of the key |
| PredicateParser.AcceptsExactlyTheGrammar | src/changefeed/predicate_evaluator.cpp:251-437 | the parser returns a tree if and only if a derivation of the grammar yields the tokens and denotes that tree, AND and OR to the left |
| PredicateParser.GrammarAccepted | src/changefeed/predicate_evaluator.cpp:251-437 | every derivable token list is accepted and parsed to its derivation's tree |
| PredicateParser.TokenRoundTrip | include/changefeed/predicate_evaluator.h:16-23 | every tree printed with parentheses by precedence parses back to itself |
| PredicateParser.Parser.Match | src/changefeed/predicate_evaluator.cpp:273-279 | steps over a token exactly when it is the one asked for |
| PredicateParser.Parser.ParseExpr | src/changefeed/predicate_evaluator.cpp:289-304 | the OR loop consumes and returns what the grammar function does |
| PredicateParser.Parser.ParseTerm | src/changefeed/predicate_evaluator.cpp:307-322 | the AND loop, likewise, always advancing |
| PredicateParser.Parser.ParseFactor | src/changefeed/predicate_evaluator.cpp:325-346 | parentheses, NOT and comparisons, likewise |
| PredicateParser.Parser.ParseComparison | src/changefeed/predicate_evaluator.cpp:349-432 | comparisons, LIKE and IS NULL, likewise |
| PredicateParser.Parser.Parse | src/changefeed/predicate_evaluator.cpp:255-266 | a whole token list or an error |
| Predicates.TextRoundTrip | src/changefeed/predicate_evaluator.cpp:89-437 | printing a predicate, then tokenizing and parsing the text, gives it back if and only if the grammar can write it |
| Predicates.ParsedIsWritable | src/changefeed/predicate_evaluator.cpp:89-437 | whatever text is parsed, the tree is one that can be written |
| Predicates.RenderLexed | src/changefeed/predicate_evaluator.cpp:89-224 | a rendered token list is tokenized back to itself |
| Predicates.LexedWritable | src/changefeed/predicate_evaluator.cpp:89-224 | every token that comes out can be rendered, and END comes once, last |
| Predicates.Tokenize | src/changefeed/predicate_evaluator.cpp:89-224 | the tokenizer's loop computes the lexing function, errors included |
| Predicates.ScanLexeme | src/changefeed/predicate_evaluator.cpp:92-220 | one turn consumes exactly the lexeme at the position, or fails |
| Predicates.ParseClause | src/changefeed/predicate_evaluator.cpp:529-545 | tokenizing then parsing, failing if either does |
| LexicalGrammar.LexExactly | src/changefeed/predicate_evaluator.cpp:89-224 | the tokenizer returns a token list if and only if the text falls into white space and lexemes that spell those tokens, each as long as it can be: keywords in any case, names, signed decimals, quoted strings with doubled quotes, operators |
| LexicalGrammar.LexemeExactly | src/changefeed/predicate_evaluator.cpp:92-220 | the next lexeme is exactly the one such piece the text begins with |
| Predicates.EvaluateSelects | src/changefeed/predicate_evaluator.cpp:486-518 | of any set of rows, those a predicate accepts are the set its text means: OR the union, AND the intersection, NOT the complement, IS NULL the rows without the column or with null in it, LIKE a full match of a text, a comparison the rows whose value stands to the literal as asked |
| Predicates.ComparisonLaws | src/changefeed/predicate_evaluator.cpp:442-484 | of <, = and > exactly one holds for a number or text against a literal of its kind, <=, >= and != are what they say in terms of them, numbers compare by value and texts by their codes |
| Predicates.NumberMeaning | src/changefeed/predicate_evaluator.cpp:115-140 | the value of a number literal times ten to the length of its fraction is the signed whole number all its digits write |
| Predicates.NegatedComparison | src/changefeed/predicate_evaluator.cpp:442-518 | NOT of a comparison is the complementary comparison if and only if the comparison makes sense on the row; otherwise NOT is true |
| Predicates.TextOrderTotal | src/changefeed/predicate_evaluator.cpp:475-477 | text comparison is a total order |
| Predicates.LikeMeansWildcard | src/changefeed/predicate_evaluator.cpp:506-512 | LIKE on a one-line text is wildcard matching of the pattern |
| Like.LikePatternToRegex | src/changefeed/predicate_evaluator.cpp:230-247 | the translation loop computes the translation function |
| Like.TranslationIsLiteral | src/changefeed/predicate_evaluator.cpp:230-247 | the translated expression reads as one atom per pattern character: none acts as a metacharacter |
| Like.CompiledLikeIsWildcard | src/changefeed/predicate_evaluator.cpp:506-512 | full matching accepts only what the wildcard pattern does, and the two agree on all patterns if and only if the subject has no carriage return and no line feed |
| Like.WildcardConcat | src/changefeed/predicate_evaluator.cpp:230-247 | a concatenated pattern matches if and only if the subject splits into parts that its halves match |
| Like.WildcardOne | src/changefeed/predicate_evaluator.cpp:230-247 | the empty pattern matches the empty text, % every text, _ every single character, any other character itself alone |
| Subscriptions.IndexIsExact | src/changefeed/sql_subscription.cpp:405-423 | the routing sets are exactly the live subscriptions by table and the catch-alls, without stale ids or empty buckets |
| Subscriptions.CandidatesSuffice | src/changefeed/sql_subscription.cpp:370-403 | the candidates of an event find every subscription a full scan finds |
| Subscriptions.ToldIff | src/changefeed/sql_subscription.cpp:49-97 | a subscription is told of an event if and only if it is active and takes all tables, or the table is its own and its filter, if any, selects one of the rows the event is judged by: the old row of a DELETE, either row of an UPDATE, the new row of an INSERT |
| Subscriptions.SqlSubscriptionManager.Subscribe | src/changefeed/sql_subscription.cpp:277-299 | a fresh id is entered exactly when the query and its WHERE clause parse; otherwise only the id is used up |
| Subscriptions.SqlSubscriptionManager.SubscribeToAllTables | src/changefeed/sql_subscription.cpp:301-325 | a fresh catch-all subscription is entered |
| Subscriptions.SqlSubscriptionManager.Unsubscribe | src/changefeed/sql_subscription.cpp:327-349 | exactly that subscription goes, from routing and its client's list too |
| Subscriptions.SqlSubscriptionManager.UnsubscribeAll | src/changefeed/sql_subscription.cpp:351-367 | exactly the client's subscriptions go, from routing too |
| Subscriptions.SqlSubscriptionManager.ProcessEvent | src/changefeed/sql_subscription.cpp:370-403 | each delivery occurs exactly as often as there are live subscriptions whose full test produces it, each client gets one for each of its matching subscriptions, and every delivery is owed to a subscription whose filter selects a row of the event |
| Subscriptions.ServedFromOwnList | src/changefeed/sql_subscription.cpp:370-403 | a client gets one delivery for each entry of its own list that matches, and a client without a list gets none |
| Subscriptions.SqlSubscriptionManager.Index | src/changefeed/sql_subscription.cpp:405-411 | a new id is put in its one routing set |
| Subscriptions.SqlSubscriptionManager.Unindex | src/changefeed/sql_subscription.cpp:413-423 | a live id is taken out of its one routing set, and an empty bucket goes with it |
| Views.ViewMaintained | src/changefeed/sql_subscription.cpp:49-97 | for any predicate and any history of applied writes, a client applying only delivered events holds exactly the matching rows after every write if and only if no INSERT replaces a matching row by one that does not match |
| Views.SilentExitOccurs | src/storage/storage_engine.cpp:354-359 | a subscription and an INSERT over a committed row that takes the row out of its filter unnoticed |
| Views.GenuineHistoryKeepsView | src/changefeed/sql_subscription.cpp:49-97 | a history of genuine INSERT, UPDATE and DELETE never drifts |
| Views.WriteKeepsView | src/changefeed/sql_subscription.cpp:66-96 | one write keeps an exact view exact if and only if it is not such an INSERT |
| Views.UndeliveredIsIrrelevant | src/changefeed/sql_subscription.cpp:66-96 | an event that is not delivered leaves the matching rows as they were |
| Changefeed.ChangefeedEngine.PublishEvent | src/changefeed/changefeed_engine.cpp:159-185 | consecutive offsets; the retained events are a contiguous suffix of those published, within the cap, holding the newest unless the cap is one; a publish beyond the cap leaves the largest number that is at most three quarters of the cap, and any other keeps all; trimming has moved at most three elements per published event |
| Changefeed.ChangefeedEngine.GetEvents | src/changefeed/changefeed_engine.cpp:303-322 | the first matching retained events from an offset on, up to the limit but at least one |
| Changefeed.ChangefeedEngine.OldestRetained | src/changefeed/changefeed_engine.cpp:372-380 | everything published from the answered offset on is retained |
| Changefeed.PagesConcat | src/changefeed/changefeed_engine.cpp:303-322 | reading page after page, each from just past the last offset, loses and repeats nothing |
| Changefeed.PageKeepsLimit | src/changefeed/changefeed_engine.cpp:309-319 | a page has at most as many events as its limit if and only if the limit is positive or nothing is selected; limit zero returns the first |
| Changefeed.LaterResumes | src/changefeed/changefeed_engine.cpp:303-322 | starting after the n-th selected event selects exactly the rest |
| Changefeed.LaterAscends | src/changefeed/changefeed_engine.cpp:303-322 | what is selected is in offset order |
| Changefeed.TrimKeepsNewest | src/changefeed/changefeed_engine.cpp:173-177 | a trim keeps nothing if and only if the cap is one |
| Changefeed.TrimPaid | src/changefeed/changefeed_engine.cpp:169-177 | three moves per published event pay for every trim |
| Changefeed.KeptShare | src/changefeed/changefeed_engine.cpp:173-177 | a trim keeps the largest number of events that is at most three quarters of the cap |
| Changefeed.ChangefeedEngine.LatestRetained | src/changefeed/changefeed_engine.cpp:159-185 | at any time, the last n events published are retained for every n up to three quarters of the cap |
| Changefeed.LaterComplete | src/changefeed/changefeed_engine.cpp:303-322 | an event is selected if and only if it matches and its offset is not before the start |
| Fanout.OrderedDelivery | src/changefeed/changefeed_engine.cpp:382-471 | for any number of workers and any interleaving, each subscriber sees strictly increasing offsets, and between events exactly those it was a target of |
| Fanout.LeavesNobodyIff | src/changefeed/changefeed_engine.cpp:47-69 | for every number of workers and every bound on the targets of an event: in every run a fan-out that may return has no worker left inside a closure, if and only if there is no pool or no event has more than one target |
| Fanout.BarrierComplete | src/changefeed/changefeed_engine.cpp:47-69 | RunBatch returns only after each index has run exactly once, with nothing queued and no worker holding or having just run a task |
| Fanout.ReturnOutrunsNotify | src/changefeed/changefeed_engine.cpp:58-68 | for every pool, a run with two targets in which RunBatch returns while a worker has yet to notify |
| Fanout.StepKeeps | src/changefeed/changefeed_engine.cpp:47-85 | every step of publishers, delivery thread and workers, the count and the notification apart, keeps the fan-out invariant |
| Fanout.ReachesKeeps | src/changefeed/changefeed_engine.cpp:382-471 | so does every run |
| Ordering.PrefixInRange | src/wasm/host_functions.cpp:270-278 | the carried bound never drops a key with the prefix, 0xFF tails included |
| Ordering.RangeHasPrefix | src/wasm/host_functions.cpp:270-278 | a key from the prefix up to below the bound has the prefix |
| Ordering.OrderedAscends | src/storage/mem_table.cpp:102-113 | keys are enumerated in ascending byte order |
| Ordering.AscendingUnique | src/storage/mem_table.cpp:102-113 | there is only one ascending enumeration of a set of keys |
| Ordering.LessMeans | src/storage/mem_table.cpp:102-113 | a key is before another if and only if at the first byte where they differ it has ended or its byte is smaller |
| Ordering.HasPrefixMeans | src/wasm/host_functions.cpp:286-291 | a key has a prefix if and only if it is the prefix with something after it |
| MemTables.MemTable.Insert | src/storage/mem_table.cpp:42-53 | refused for an existing key, otherwise stores the row and drops its cache entry |
| MemTables.MemTable.Update | src/storage/mem_table.cpp:55-74 | refused for a missing key, otherwise stores the columns with the next version and drops the cache entry |
| MemTables.MemTable.Delete | src/storage/mem_table.cpp:76-89 | removes the row and its cache entry, or reports a missing key |
| MemTables.MemTable.CachedJson | src/storage/mem_table.cpp:163-169 | the answer is the row's own rendering, and the cache stays coherent |
| MemTables.MemTable.GetJsonCached | src/storage/mem_table.cpp:115-121 | answers what rendering the current row would, whatever was cached |
| MemTables.MemTable.Scan | src/storage/mem_table.cpp:102-113 | visits the rows of the range in key order until the callback stops it |
| MemTables.MemTable.ScanJsonCached | src/storage/mem_table.cpp:123-131 | hands over what an uncached scan would, and stops where it would |
| MemTables.RangeKeysAscend | src/storage/mem_table.cpp:102-113 | a scan's keys ascend and are exactly those within both inclusive bounds |
| MemTables.ScansCorrespond | src/storage/mem_table.cpp:102-131 | the cached and the plain scan visit corresponding rows, early stop included |
| MemTables.RangeIsInclusive | src/storage/mem_table.cpp:102-113 | a key is in the range if and only if it is stored and neither before the start nor after the end; both bounds are included, and an empty end is none |
| MemTables.StopsExactly | src/storage/mem_table.cpp:102-131 | the scan visits a prefix of the rows, goes on as long as the callback asks for more and stops at the first time it does not |
| Overlays.FlatRoundTrip | src/wasm/host_functions.cpp:675-725 | a JSON field stored in a row is read back if and only if it is flat: not nested, not beyond a signed integer, and bytes alone in canonical Base64 |
| Overlays.ObjectRoundTrip | src/wasm/host_functions.cpp:675-725 | an object survives JsonToRow and RowToJson if and only if all its fields are flat |
| Overlays.StoredField | src/wasm/host_functions.cpp:702-725 | what each kind of JSON field is after storing and showing: integers modulo 2^64 as signed, nested values as their text, bytes as the bytes they decode to or null, the rest as they were |
| Overlays.ShownValue | src/wasm/host_functions.cpp:675-699 | how stored values show: 32-bit integers as they are, floats widened, time stamps in milliseconds truncated toward zero |
| Overlays.HostCallContext.TableRead | src/wasm/host_functions.cpp:146-192 | permission error, miss, or the visible text: staged over committed, tombstones hiding |
| Overlays.HostCallContext.TableWrite | src/wasm/host_functions.cpp:195-224 | error codes in order, otherwise exactly that entry of the overlay changes |
| Overlays.HostCallContext.TableDelete | src/wasm/host_functions.cpp:227-247 | permission error, otherwise a tombstone |
| Overlays.HostCallContext.TableScan | src/wasm/host_functions.cpp:250-326 | the lowest rows in key order of the visible rows with the prefix: as many as a positive limit asks for, or 1000 otherwise, or all there are; the status is their number |
| Overlays.RangeCollectsPrefix | src/wasm/host_functions.cpp:280-293 | collecting the range up to the bound and filtering gives exactly the rows with the prefix |
| Overlays.PrefixRows | src/wasm/host_functions.cpp:280-305 | overlaying the committed rows of a prefix gives the visible rows of the prefix |
| Overlays.PrefixBound | src/wasm/host_functions.cpp:270-278 | the carry loop computes the bound |
| Overlays.FirstRowsLowest | src/wasm/host_functions.cpp:250-326 | the rows a scan hands over are as many as the limit or all, every one visible and with the prefix, in key order, and all before those left out |
| OverlayCommits.OverlayAgreement | src/wasm/host_functions.cpp:549-600 | after a commit the table shows exactly what the call saw of it if and only if every object it staged there is flat |
| OverlayCommits.ReadsAndScansAgree | src/wasm/host_functions.cpp:146-326 | so reads and limited scans after the commit answer what they did inside the call |
| OverlayCommits.CommitSucceeds | src/wasm/host_functions.cpp:549-600 | with no concurrent commit, the call commits if and only if every staged delete finds its key |
| OverlayCommits.CommitDistinct | src/storage/storage_engine.cpp:326-413 | writes of distinct keys commit together if and only if each applies alone, each has its own effect, and nothing else changes |
| OverlayCommits.StagedGenuine | src/wasm/host_functions.cpp:549-600 | what a call stages on the tables it was run on has no INSERT of a committed key, no UPDATE of a missing one and no failing DELETE, if every staged delete finds its key |
| OverlayCommits.StagedAllEntries | src/wasm/host_functions.cpp:577-595 | each overlay entry is staged exactly once, and nothing else is |
| OverlayCommits.CommittedRow | src/wasm/host_functions.cpp:549-600 | after the commit each row is the staged one, gone if it was deleted, or the old one |
| OverlayCommits.CommitHostCall | src/wasm/host_functions.cpp:549-615 | missing tables that are written to are created, every entry is staged and committed, and custom events are published only on success |
| OverlayCommits.CreateMissing | src/wasm/host_functions.cpp:557-571 | creates exactly the missing tables with a staged object |
| OverlayCommits.StageTable | src/wasm/host_functions.cpp:577-595 | stages one table's entries in key order as UPDATE, INSERT or DELETE |
| Base64.RoundTrip | src/wasm/host_functions.cpp:618-669 | decoding gives back any bytes that were encoded |
| Base64.CanonicalIff | src/wasm/host_functions.cpp:637-667 | a text survives decoding and encoding if and only if it is canonical (digits, padding only at the end and matching, no spare bits), which is exactly what the encoder writes |
| Base64.LaxlyDecoded | src/wasm/host_functions.cpp:655-665 | a text that is decoded although it is not canonical |
| Base64.EncodedLength | src/wasm/host_functions.cpp:621-635 | the encoding has four characters per started group of three bytes |
| Base64.KnownEncodings | src/wasm/host_functions.cpp:621-635 | the test vectors of section 10 of RFC 4648, padding included |
| Base64.Alphabet | src/wasm/host_functions.cpp:621-622 | the 64 digits are the capitals, the small letters, the decimal digits, plus and slash, in this order |
| Base64.Base64Encode | src/wasm/host_functions.cpp:621-635 | the encoding loop computes the encoding |
| Base64.Base64Decode | src/wasm/host_functions.cpp:637-667 | the decoding loop computes the decoding, errors included |
| WebSockets.ChunkingIrrelevant | src/websocket/websocket_server.cpp:238-276 | for frames of at most 16 MiB + 1 bytes, messages, the way the connection ends and what is pending depend only on the concatenated bytes |
| WebSockets.StreamDelivers | src/websocket/websocket_server.cpp:238-276 | masked text messages arrive as sent, in order, however the stream is cut |
| WebSockets.DeliveredIff | src/websocket/websocket_server.cpp:238-276 | for every list of nonempty masked text messages and every bound on the size of a chunk, the messages arrive under all ways to cut their stream if and only if no frame is over 16 MiB + 1 bytes |
| WebSockets.LargeFrameOverflows | src/websocket/websocket_server.cpp:269-275 | received byte by byte, the messages before a larger frame are delivered and then the connection overflows |
| WebSockets.LargeFrameDependsOnChunks | src/websocket/websocket_server.cpp:269-275 | a frame of one more byte that arrives under one cut and not under another |
| WebSockets.ThrowsExactly | src/websocket/websocket_server.cpp:491-498 | taking the payload of a frame throws if and only if it is a masked text frame with one of the last four 64-bit lengths, whose announced size wraps below its header |
| WebSockets.ThrowingFrame | src/websocket/websocket_server.cpp:491-498 | ten bytes that end the connection by an exception |
| WebSockets.DrainConcat | src/websocket/websocket_server.cpp:246-267 | draining what has arrived and later the rest is draining everything at once, up to a close |
| WebSockets.PendingStaysSmall | src/websocket/websocket_server.cpp:269-275 | while frames are small the buffer limit is never reached |
| WebSockets.HandledIsDrain | src/websocket/websocket_server.cpp:238-276 | as long as no chunk overflows the buffer, the chunked connection hands on what one drain of all bytes would |
| WebSockets.ClientFrameRoundTrip | src/websocket/websocket_server.cpp:445-513 | parsing a masked text frame in any of the three length classes gives its payload, and its size is found in a stream |
| WebSockets.ServerFrameRoundTrip | src/websocket/websocket_server.cpp:414-435 | a frame the server sends is sized and parsed back to its message |
| WebSockets.MaskedTwice | src/websocket/websocket_server.cpp:500-510 | masking twice with the same key gives the payload back |
| WebSockets.XorBit | src/websocket/websocket_server.cpp:500-510 | a bit of the exclusive or of two bytes is set if and only if exactly one of theirs is |
| WebSockets.XorIdentity | src/websocket/websocket_server.cpp:500-510 | the exclusive or with a byte changes nothing if and only if that byte is zero |
| WebSockets.MaskedBits | src/websocket/websocket_server.cpp:500-510 | bit by bit, a masked byte differs from the byte sent exactly where the mask byte at its position modulo four has a one |
| WebSockets.HelloFrames | src/websocket/websocket_server.cpp:414-513 | the unmasked and the masked text frame of section 5.7 of RFC 6455, byte for byte |
| WebSockets.LengthFieldShortest | src/websocket/websocket_server.cpp:336-362 | a length takes one byte exactly up to 125, three exactly up to 65535, nine exactly beyond |
| WebSockets.OtherFrames | src/websocket/websocket_server.cpp:246-267 | a frame that is not text delivers nothing, and ends the stream if and only if it is a close frame |
| WebSocketServers.CompleteFrameSize | src/websocket/websocket_server.cpp:336-362 | the size loop computes the frame size, zero while the header is incomplete |
| WebSocketServers.ParseWebSocketFrame | src/websocket/websocket_server.cpp:445-513 | the parser computes the parsing function, unmasking in place |
| WebSocketServers.Unmask | src/websocket/websocket_server.cpp:500-510 | the payload array is masked in place, nothing else |
| WebSocketServers.BuildFrame | src/websocket/websocket_server.cpp:414-435 | header and payload of a sent frame, lengths in network order |
| WebSocketServers.DrainFrames | src/websocket/websocket_server.cpp:246-267 | the inner loop takes off exactly the whole frames, up to a close frame or an exception of the parser |
| WebSocketServers.HandleClient | src/websocket/websocket_server.cpp:238-276 | the receive loop: what is delivered, what is pending, and whether it is open, closed, over the buffer limit or ended by an exception |
| JsonSdk.PrintedParses | src/cmd/origindb_init.cpp:552-622 | tryParse of toString is the value, for every value of null, booleans, safe integers, strings, arrays and objects with distinct keys, with any surrounding white space |
| JsonSdk.ValueRoundTrip | src/cmd/origindb_init.cpp:650-838 | parsing a printed value inside any valid continuation stops exactly at its end |
| JsonSdk.StringRoundTrip | src/cmd/origindb_init.cpp:591-773 | every string of code units survives quoting and parsing |
| JsonSdk.EscapeRoundTrip | src/cmd/origindb_init.cpp:591-610 | every code unit's escape is read back as that unit and never starts with a quote |
| JsonSdk.NumberRoundTrip | src/cmd/origindb_init.cpp:676-722 | a printed integer is read back, stopping before what follows |
| JsonSdk.DecimalParsed | src/cmd/origindb_init.cpp:676-722 | every number text, with any sign, fraction and exponent, is read to its end, and its value is the signed whole number of all its digits moved left by the length of the fraction less the exponent |
| JsonSdk.FractionBetween | src/cmd/origindb_init.cpp:676-722 | a number w.f is at least w and less than w + 1 |
| JsonSdk.KeyRoundTrip | src/cmd/origindb_init.cpp:804-838 | a printed key and colon are read back, stopping before the value |
| JsonSdk.SetKeepsDistinct | src/cmd/origindb_init.cpp:521-527 | setting a member never duplicates a key |
| JsonSdk.GetAfterSet | src/cmd/origindb_init.cpp:497-527 | get after set answers the set value for that key and the old one for every other |
| JsonParsers.JsonParser.SkipWs | src/cmd/origindb_init.cpp:642-648 | skips exactly the leading white space |
| JsonParsers.JsonParser.Literal | src/cmd/origindb_init.cpp:667-674 | steps over a word if the text continues with it, otherwise stays |
| JsonParsers.JsonParser.ParseNumber | src/cmd/origindb_init.cpp:676-722 | consumes exactly one number or fails |
| JsonParsers.JsonParser.ParseString | src/cmd/origindb_init.cpp:724-773 | consumes exactly one string or fails |
| JsonParsers.JsonParser.ParseArray | src/cmd/origindb_init.cpp:775-802 | consumes exactly one array or fails |
| JsonParsers.JsonParser.ParseObject | src/cmd/origindb_init.cpp:804-838 | consumes exactly one object or fails, a repeated key taking the last value |
| JsonParsers.JsonParser.ParseValue | src/cmd/origindb_init.cpp:650-665 | consumes exactly one value or fails |
| JsonParsers.ParseText | src/cmd/origindb_init.cpp:615-622 | a whole text or nothing |
| JsonParsers.ToString | src/cmd/origindb_init.cpp:552-589 | the printing loops compute the printed text |
| JsonParsers.QuoteText | src/cmd/origindb_init.cpp:591-610 | the quoting loop computes the quoted text |
| JsonGrammar.AcceptsExactlyJson | src/cmd/origindb_init.cpp:615-838 | tryParse returns a value if and only if the text is one the JSON grammar writes for that value, with any white space, escape and number form; it differs from RFC 8259 in taking leading zeros and bare control characters |
| JsonGrammar.SetKeepsOrder | src/cmd/origindb_init.cpp:521-527 | a key set again keeps its place and takes the new value; a new key goes last |
| JsonGrammar.EscapedShortest | src/cmd/origindb_init.cpp:591-610 | each code unit is printed in the shortest way the grammar has that leaves no control character bare, with small hex digits |
| JsonGrammar.NatTextCanonical | src/cmd/origindb_init.cpp:562-564 | whole numbers are printed in the digits that say them, without leading zeros |
| JsonGrammar.PrintedNumbers | src/cmd/origindb_init.cpp:560-566 | whole numbers below 2^53 either way are printed as such, every other number as the runtime prints it |
| JsonGrammar.PrintedCompactly | src/cmd/origindb_init.cpp:569-585 | arrays and objects are printed with their brackets, commas and colons and no white space |
| TickProtocol.TicksConserved | src/wasm/tick_scheduler.cpp:42-90 | for any number of workers and any interleaving, an entry is in flight if and only if it is waiting once or held by exactly one worker, the queue never exceeds the entries, and fires equal executed plus skipped plus pending |
| TickProtocol.PassLeavesSchedule | src/wasm/tick_scheduler.cpp:42-64 | when a pass ends every entry's fire time is later than the pass and a whole number of periods after its start |
| TickProtocol.SkippedAndExecuted | src/wasm/tick_scheduler.cpp:42-100 | a run in which one fire is executed and one coalesced, and the statistics report both |
| TickProtocol.StepKeeps | src/wasm/tick_scheduler.cpp:42-100 | every step of dispatcher, workers and statistics keeps the invariant |
| TickSchedules.AdvancedBeyond | src/wasm/tick_scheduler.cpp:51-52 | the advanced fire time is the first multiple of the period beyond now |
| TickSchedules.AdvancedAligned | src/wasm/tick_scheduler.cpp:51-52 | advancing keeps the schedule in step with its start |
| TickSchedules.PeriodMustBePositive | src/wasm/tick_scheduler.cpp:51-52 | the advance loop can leave the past if and only if the period is positive |
| TickSchedules.DueIsEnqueuedOrCoalesced | src/wasm/tick_scheduler.cpp:49-59 | every due entry is either enqueued or coalesced, never both |
| TickSchedules.EnqueuedExactly | src/wasm/tick_scheduler.cpp:53-56 | an entry is enqueued if and only if it is due and not in flight |
| TickSchedules.TickScheduler.AddEntry | src/wasm/tick_scheduler.cpp:14-19 | a new entry is due at once, in step with its start |
| TickSchedules.TickScheduler.Advance | src/wasm/tick_scheduler.cpp:51-52 | the do-while loop computes the advanced time |
| TickSchedules.TickScheduler.DispatchPass | src/wasm/tick_scheduler.cpp:42-64 | a pass advances, enqueues and coalesces exactly as specified, leaves every fire time beyond now, and wakes at the earliest fire time or 4 ms from now, whichever comes first |

## Left out

- Threads, mutexes, condition variables and sockets as such: they are atomic steps, sequences and parameters; liveness and wake-ups are not claimed.
- fsync variants and the None and Flush modes: the synced length models Fsync; in the other modes only a process crash is covered.
- Snapshot write-and-rename and whole-file truncation are single durable steps, and the snapshot's stored last_sequence is ignored, as loading ignores it.
- Schema contents: EncodeSchema and DecodeSchema are further uses of the same reader and writer, and the schema document inside a CREATE_TABLE record is opaque bytes.
- Row version and timestamp: not encoded, so recovery and agreement are about key and columns; `MemTables.MemTable.Update` does model them.
- Integer widths of counters, offsets, versions and subscription ids: unbounded here; lengths, sequences and frame sizes keep their widths.
- Engine.StorageEngine.Commit: the wait for the writer thread is one writer pass; interleaved committers are in `Protocol`, and the order of publishing among concurrent committers is not claimed.
- Fanout.OrderedDelivery: the targets of an event are any distinct subscribers, so which subscriptions match, acknowledgement and the stored current offset are not modelled; a callback that throws counts as called.
- CompactEvents: removal by wall-clock age is not modelled.
- The SELECT regular expression: its captured parts are a parameter of `Subscriptions.SqlSubscriptionManager.Subscribe`.
- Column projection in FilterEvent: deliveries carry the list of columns, and view maintenance is proved for SELECT * only.
- Custom "EVENT" events: they take the INSERT branch of MatchesEvent; their payloads are not modelled further.
- Text that is not valid UTF-8: the JSON library throws on it; rows and keys here are byte strings, and their rendering as JSON text is a parameter.
- Floating point: SQL and SDK numbers are exact decimals, stored floats are bit patterns, the printing of numbers that are not safe integers is a parameter, and out-of-range number texts are not errors.
- The regular-expression engine: LIKE is matched over the fragment the translation produces, a literal, an escaped literal, `.` and `.*`.
- Memory for a record of the announced length, up to 4 GiB, which recovery takes before it knows the record is there: a length misread behind a torn tail can end it for want of memory.
- Guest memory, traps, capabilities beyond the allowed tables and the read-only flag, and the splicing of the scan's JSON array text.
- Overlays.HostCallContext.TableScan: the result is the list of keys and value texts, because the array text around them adds no decision.
- WebSockets.StreamDelivers: messages in several fragments are not modelled, and the code does not reassemble them either.
- Fanout.BarrierComplete: what a worker does to the mutex of a batch that has already returned is undefined and not modelled.
- ProtocolObjects.CommitTurn: CREATE_TABLE and DROP_TABLE calls and the snapshot of a checkpoint are related to the protocol only through the functions they share with it.
- ProtocolObjects.RestartTurn: a recovery that drops tables again appends records in several writer turns, which the protocol takes as one step.
- TickProtocol.TicksConserved: shutdown, error counts and the longest execution time are not modelled.
- Handshakes, gRPC, the command line, metrics, authentication, configuration, the SQL prototype and the binary protocol: plumbing, or an easier copy of the row codec.
