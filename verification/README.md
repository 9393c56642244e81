# TSQL, modelled and proved in Dafny

TSQL is a small SQL server: a storage engine with a write-ahead log, snapshots and UNIQUE indexes,
buffered transactions, a query executor, a recursive-descent parser and a session loop. This project
models each of these parts as the Go code has it and proves what the parts promise together.

Code that changes things step by step is imperative here too. `TableStore.Table`,
`EngineStore.Engine`, `WalFile.Wal`, `TxnStore.Txn`, `Connection.Conn` and `ParserStore.Parser` are
classes whose methods update their fields; the executor's loops and the lexer are methods with loop
invariants. Each is proved against a function on values, and the theorems are about those functions.
Concurrency and crashes are state machines over explicit steps (`Writers`, `Durability`).

How the modules build on each other:

- `Values`, `SqlOrder`, `Keys`, `Schema`: cell values, comparison, column types, the textual keys of values.
- `UniqueIndex`, `Tables`, `TableStore`: one UNIQUE index, one table, the mutable table.
- `WalCodec`, `WalFile`: log records as bytes, reading up to the first torn one.
- `LogReplay`, `TableHistory`, `EngineModel`, `Checkpoints`, `EngineStore`: replay at commit records,
  recovery from a snapshot, the mutable engine.
- `Durability`, `Writers`: crash at every step of commits and checkpoints; interleaved autocommit
  writers.
- `TxnModel`, `TxnStore`, `Sessions`, `Rollbacks`, `Connection`, `LoneCommits`: transactions and
  connections.
- `Ast`, `Eval`, `ThreeValued`, `Validate`: expressions, SQL truth values, plan-time validation.
- `Joins`, `Grouping`, `Aggregates`, `Ordering`, `Plans`, `Query`, `QuerySafety`, `SelectMeaning`:
  SELECT from sources to result, with derived tables and IN-subqueries.
- `Shortcut`: the UNIQUE-index shortcut for `col = literal`.
- `Accessor`, `Dml`, `DmlLoops`, `DmlMeaning`, `Atomicity`: INSERT, UPDATE and DELETE over the engine
  or a transaction, foreign keys, failing statements.
- `Statements`: the meaning of whole INSERT and UPDATE statements.
- `Ddl`, `DmlSessions`, `Interference`: table definitions, whole sessions from the empty database on, and
  COMMIT beside another connection.
- `Grammar`, `Printing`, `Lexer`, `SqlText`, `ParserStore`, `ParsedQueries`: from text to queries.

Library behaviour enters as arbitrary values of constrained types: float rounding and arithmetic, the
texts of floats and times, gob and CRC-32 (decoding inverts encoding, the checksum is any function),
timestamp parsing and `unicode.IsPrint`. The clock is a parameter, and so is how much of a write the
operating system takes. Results hold for every choice.

Where the code does not keep a natural property, the model keeps the code, and a lemma gives the
exact condition together with a witness:

- AND uses OR's test for NULL, so NULL AND TRUE is FALSE (`ThreeValued.AndAgreesIff`,
  `ThreeValued.AndUnderNotWitness`). IN with a NULL and an empty list is NULL
  (`ThreeValued.InAgreesIff`, `QuerySafety.NullNotInNothing`).
- Compare is documented as a total order. NaN breaks it (`Values.CompareTransitive`), and integers
  are compared as floats, so the UNIQUE shortcut can miss rows the scan finds
  (`SqlOrder.IntegerOrder`, `Shortcut.ShortcutIsScanIff`, `Shortcut.BigKeyIsMissed`).
- Transaction ids start over at every opening; an uncommitted fragment can come back with the next
  user of its id (`LogReplay.ReusedIdIff`, `LogReplay.ReusedIdWitness`).
- Payloads over 64 MiB are written but not read back, and hide what follows
  (`WalCodec.ReadEncodedIff`, `WalCodec.OversizedRecordHidesTheRest`).
- Pruning goes by sequence numbers that start over at each truncation and may delete the snapshot in
  force (`Durability.PruningIsSafeIff`, `Durability.PruningCanLoseEverything`).
- The id counter wraps after the largest int64 (`Tables.ApplyPutKeepsIdsBelowIff`,
  `Tables.LargestIdWraps`).
- A transaction nobody interferes with can be refused at commit: because a value of a put it has
  itself superseded now belongs to another row, or because it removed a committed row and inserted
  one with the same id (`LoneCommits.LoneCommitIff`, `LoneCommits.SupersededPutIsRefused`,
  `LoneCommits.ReinsertedRowIsRefused`).
- An error ends a transaction, but the messages behind it are handled all the same, each statement
  taking effect at once; the client's ROLLBACK comes too late for them
  (`Rollbacks.RollbackLeavesNoTrace`, `Rollbacks.ErrorThenInsertStays`).
- A self-numbering primary key that is also a foreign key is numbered after the foreign-key check
  (`Dml.InsertKeepsFkIff`, `Dml.AutoReferenceWitness`).
- The rows of an empty derived table are forgotten and its alias is looked up among the stored
  tables, which is an error or, with fewer columns there, an index out of range
  (`QuerySafety.DerivedRowsIff`, `QuerySafety.StarOverDerivedPanicsIff`,
  `QuerySafety.ShadowedQueryPanics`).
- UPDATE does not check NOT NULL (`Atomicity.UpdateKeepsNotNullIff`,
  `Atomicity.NotNullIsOverwritten`).
- A statement that fails outside a transaction keeps what it did so far; a failing key move loses its
  row (`Atomicity.FailedStatementInRoomIsCleanIff`, `Atomicity.FailedInsertLeavesRow`,
  `Atomicity.FailedMoveLosesRow`).
- DROP TABLE ignores foreign keys (`Ddl.DropKeepsFkIff`, `Ddl.DropLeavesDanglingRow`).
- COMMIT does not check foreign keys again (`Interference.CommitKeepsFkIff`,
  `Interference.ParentVanishesBeforeCommit`).
- A snapshot does not hold the table id counter: the id of a dropped last table is given again after
  loading (`Checkpoints.SnapshotRoundTrip`, `Checkpoints.DroppedIdComesBack`).

## Model

| member | source | states |
|---|---|---|
| Values.CompareAntisymmetric | internal/types/types.go:105-162 | swapping the operands of Compare negates its sign, and every value, NaN included, equals itself |
| Values.CompareTransitive | internal/types/types.go:105-162 | Compare is transitive on a triple if and only if the middle value is not a NaN between two numbers that are out of order; so it is a total preorder over all NaN-free values, integers and floats mixed |
| Values.NaNBreaksOrder | internal/types/types.go:114-129 | the NaN exclusion is needed: 2 <= NaN <= 1 but not 2 <= 1 |
| SqlOrder.CompareTextIsDictionary | internal/types/types.go:141-142 | a text compares below another exactly if it is a proper prefix of it or has the smaller character at the first difference |
| SqlOrder.CompareIsOrder | internal/types/types.go:105-162 | Compare is negative exactly if the first value stands before the second, and positive exactly if behind it, in an order defined on its own: NULL, numbers by size, texts by the dictionary, false before true, earlier times first |
| SqlOrder.IntegerOrder | internal/types/types.go:115-132 | two integers stand in their integer order exactly unless they round to the same float; so always if one of them is below 2^53 |
| SqlOrder.LargeIntegersCollide | internal/types/types.go:115-132 | 2^53 and 2^53 + 1 compare equal |
| Values.CheckStoresKind | internal/types/types.go:167-205 | a checked value has the kind of its column, checking it again changes nothing, NULL stays NULL, and except for integers in boolean columns the stored form still compares equal to the literal |
| Values.CheckAccepts | internal/types/types.go:167-205 | a column takes exactly NULL, values of its kind, integers into FLOAT and BOOL and whole floats of 64 bits into the integer types; a BOOL column stores whether the integer is not zero; NaN and the infinities are refused |
| Keys.UniqKeyInjective | internal/storage/engine.go:500-518 | two values have the same UNIQUE key exactly when they are the same value |
| Keys.EscapePrefixFree | internal/executor/executor.go:1806-1824 | the escapes inside a quoted string form a prefix code |
| Keys.GroupKeyInjective | internal/executor/executor.go:998-1003 | two tuples of any length have the same NUL-separated group key exactly when they have the same length and agree position by position, times modulo 2^64 nanoseconds |
| UniqueIndex.RunIsExactIff | internal/storage/engine.go:537-560 | from an exact index, a run of writes ends with an exact index if and only if no write takes the key of a row that holds it at the end and is not written again; several rows may share a key in between |
| Tables.RunKeepsIndexIff | internal/storage/engine.go:598-635 | the same for a whole table, over all its UNIQUE columns |
| Tables.CommitKeepsIndex | internal/storage/txn.go:358-395 | if every buffered put, superseded ones included, is unique against the final rows, applying the operations in place leaves the index exact however they hand keys around |
| Tables.SupersededPutsMatter | internal/storage/txn.go:379-394 | checking only the last put of each row would not do: the index entry of another row gets lost |
| Tables.ClashesIsScan | internal/storage/engine.go:227-242 | on an exact index the UNIQUE check of put rejects a row exactly when a linear scan finds another row with one of its non-NULL values |
| Tables.PutKeepsIndex | internal/storage/engine.go:189-258 | an autocommit put, accepted or refused, keeps the index exact |
| Tables.DeleteKeepsIndex | internal/storage/engine.go:261-286 | an autocommit delete keeps the index exact |
| Tables.ApplyPutKeepsIdsBelowIff | internal/storage/engine.go:600-618 | storing a row keeps the id counter above all stored ids if and only if the id is not the largest int64, which wraps the counter around |
| Tables.LargestIdWraps | internal/storage/engine.go:610-614 | one row under the largest id puts the counter at the smallest, below it |
| Tables.AutoIdIsFresh | internal/storage/engine.go:205-225 | below the wrap-around an automatic id is the counter and belongs to no stored row, and the counter stays above all ids |
| Tables.UniqueGetIsScan | internal/storage/engine.go:564-579 | the index answers with a row id exactly when a scan finds the value in that row |
| Tables.ReachableIndexIsExact | internal/storage/engine.go:187-286 | in every table state reached by puts, deletes, reservations and validated commits the UNIQUE index is exact |
| Tables.ReachableIdsBelow | internal/storage/engine.go:189-258 | as long as the largest id is never used, the counter is above every stored id in every reachable state |
| TableStore.ListingIsUnique | internal/storage/engine.go:308-330 | a set of row ids has exactly one increasing listing |
| TableStore.SortIds | internal/storage/engine.go:308-330 | the ids handed out are the ids of the table in increasing order, each once |
| TableStore.Table.BuildUniq | internal/storage/engine.go:530-535 | rebuilding the index from duplicate-free rows, in whatever order the map yields them, gives the exact index |
| TableStore.Table.Load | internal/storage/engine.go:92-106 | a table loaded from a snapshot has the rows and counter of the snapshot and an exact index |
| TableStore.Table.ApplyPut | internal/storage/engine.go:598-618 | a row is stored as commit and replay do: the entries of the old row leave the index, those of the new one enter, the counter moves |
| TableStore.Table.StoreRow | internal/storage/engine.go:249-254 | a row is stored as autocommit does: the same without the counter, which its check has moved |
| TableStore.Table.ApplyDelete | internal/storage/engine.go:475-480 | the row and its index entries go, nothing else changes |
| TableStore.Table.FindClash | internal/storage/engine.go:232-242 | true exactly when some UNIQUE cell of the row is indexed under another id |
| TableStore.Table.Admission | internal/storage/engine.go:203-242 | gives the verdict and the id counter that put has on the old state: errors for negative, missing and taken ids and wrong width, the counter moving on even when the UNIQUE check then fails |
| TableStore.Table.AllRows | internal/storage/engine.go:308-330 | all rows, each once, by increasing id |
| WalCodec.ReadEncodedIff | internal/storage/wal.go:57-97 | an encoded record followed by anything reads back as itself if and only if its payload is at most 64 MiB, a bound the writer does not check |
| WalCodec.TornRecordStops | internal/storage/wal.go:129-167 | a record cut short anywhere reads as nothing |
| WalCodec.ReadTornLog | internal/storage/wal.go:126-167 | encodings of any records within the bound, followed by any proper prefix of another one, read back as exactly those records and their total length |
| WalCodec.ReadCutLog | internal/storage/wal.go:126-167 | an encoded log cut at any byte reads back as exactly the records that lie in front of the cut as a whole |
| WalCodec.ReadAfterTruncation | internal/storage/wal.go:129-167 | any bytes cut to their readable length and continued with anything read as the old records and then what follows |
| WalCodec.TruncationIsStable | internal/storage/wal.go:181-200 | for arbitrary file bytes, reading after truncation to the valid length gives the same records and length, and one appended record then reads back behind them |
| WalCodec.OversizedRecordHidesTheRest | internal/storage/wal.go:142-145 | a record over the bound hides itself and everything logged after it |
| WalFile.EncodeRecord | internal/storage/wal.go:57-97 | the buffer filled field by field holds the encoding of the record |
| WalFile.ReadRecords | internal/storage/wal.go:129-167 | the reading loop returns the records and the offset of the scan |
| WalFile.Wal.Open | internal/storage/wal.go:181-200 | whatever bytes are on disk, the readable records are returned and the file is cut to exactly them |
| WalFile.Wal.Append | internal/storage/wal.go:203-223 | a record within the bound is readable afterwards if it was written in full, synced or not; a write that is cut short leaves the readable records as they were and makes every later append fail; only a full success is counted |
| WalFile.TornTailIsIgnored | internal/storage/wal.go:203-223 | a record cut short behind a readable file leaves its readable records and length as they were |
| WalFile.Wal.Truncate | internal/storage/wal.go:226-243 | the file is empty and the sequence number starts over; an earlier failed write or a failing sync or truncation leaves both, a failing seek leaves the number only |
| LogReplay.ReplayIsCommitOrder | internal/storage/engine.go:107-120 | replay of any interleaved log applies the committed transactions in commit order, each as the records logged under its id since the last commit of that id |
| LogReplay.EffectiveIffCommitFollows | internal/storage/engine.go:107-120 | an operation takes effect, once, if and only if a commit record of its id follows it |
| LogReplay.UncommittedIsInvisible | internal/storage/engine.go:107-120 | records of ids that never commit can be inserted or removed anywhere without changing what replay applies |
| LogReplay.UncommittedTail | internal/storage/engine.go:107-120 | losing records behind the last commit record changes nothing that replay applies |
| LogReplay.ReusedIdIff | internal/storage/engine.go:107-120 | a transaction logged under an id after an old log is recovered as itself if and only if the old log left nothing pending under that id; ids start over at every opening |
| LogReplay.ReusedIdWitness | internal/storage/engine.go:86-91 | a put logged without its commit comes back with the next user of id 1 |
| TableHistory.LiveIndexIsExact | internal/storage/txn.go:436-471 | running any history of validated transactions keeps the index exact |
| TableHistory.TableRecovery | internal/storage/engine.go:439-483 | replaying a whole history over a table that has already been through part of it gives the live rows and the live index, although rows of different times share keys on the way |
| EngineModel.CatalogReplay | internal/storage/engine.go:416-462 | replaying a DROP-free log over the catalog reached after part of it meets no unknown table and ends in the same catalog, table ids included |
| EngineModel.RecoveryFromSnapshot | internal/storage/engine.go:77-122 | recovery from a snapshot taken after part of a DROP-free run, with the whole log still in place, succeeds and gives the catalog, rows and exact indexes of the live engine |
| EngineModel.LiveIsHealthy | internal/storage/engine.go:416-483 | every valid run leaves live memory with exact indexes |
| EngineModel.ReplayKeepsCounters | internal/storage/engine.go:77-122 | replay of any log whose puts do not use the largest id, over a snapshot or over nothing, leaves every id counter above the recovered ids, so automatic ids do not collide after recovery |
| Checkpoints.SnapshotRoundTrip | internal/storage/snapshot.go:14-94 | saving and loading a healthy engine gives it back, indexes included, except that the table id counter starts over after the largest id in use; so it comes back whole if and only if the table created last has not been dropped |
| Checkpoints.DroppedIdComesBack | internal/storage/engine.go:96-106 | after CREATE, DROP, snapshot and load the next table gets the id of the dropped one |
| Durability.StepKeepsInv | internal/storage/engine.go:353-383 | every step of commits, CREATE TABLE, failed appends, checkpoint phases, pruning and crashes keeps the relation between snapshot, manifest, log and memory; a crash may come at any step, also in the middle of logging a transaction, and may lose any unsynced end of the log. Hypothesis: no transaction id left without a commit record in the surviving log is drawn again before the log is truncated |
| Durability.EveryCrashPointRecovers | internal/storage/engine.go:353-383 | in every run, after every step and for every part of the unsynced log that survives, opening the database succeeds and gives exactly the committed catalog, rows and indexes, under the same hypothesis on transaction ids |
| Durability.CutFileIsUnsynced | internal/storage/wal.go:181-200 | in bytes: wherever the file is cut behind its last commit record, what is read back is the log up to an unsynced record |
| Durability.PruningIsSafeIff | internal/storage/engine.go:638-664 | after a checkpoint pruning keeps the data if and only if fewer than two older snapshots have higher sequence numbers than the one just written; otherwise the database opens empty |
| Durability.PruningCanLoseEverything | internal/storage/engine.go:353-383 | a run from the empty database: CREATE TABLE and a checkpoint, a one-row commit and a checkpoint, a checkpoint of the empty log; the snapshots are then 3, 2 and 0 with 0 in force, and pruning leaves a database that opens empty |
| Writers.StepKeepsInv | internal/storage/engine.go:187-286 | every step of every autocommit writer, and every crash followed by an opening, keeps the invariant over locks, transaction ids, log mutex, pending fragments and memory. Hypothesis: an id that a crash left in the log with operations and without a commit record is not drawn again while the log is in place |
| Writers.EveryInterleavingRecovers | internal/storage/engine.go:187-286 | for any number of autocommit writers, from any opened database, whatever fragments earlier crashes left in its log, in every interleaving and through further crashes, at every crash point and for every part of the unsynced log that survives: recovery succeeds, each table comes back as in memory plus at most one operation that was committed and not yet applied, synced commits are never lost, and the indexes are exact, under the same hypothesis on transaction ids |
| Writers.ReopenedIsStart | internal/storage/engine.go:77-122 | what a crash leaves can be opened and worked on |
| Writers.CutFileSurvives | internal/storage/wal.go:181-200 | in bytes: wherever the crash cuts the file behind the synced records, what is read back is a prefix of the log that holds all of them |
| EngineStore.Engine.ApplyOne | internal/storage/engine.go:441-483 | one log record applied in place, CREATE and DROP included: the engine becomes the model state after the record, or an unknown table id is reported |
| EngineStore.Engine.ApplyPending | internal/storage/engine.go:428-437 | the buffered operations of a committed transaction are applied in order |
| EngineStore.Engine.Replay | internal/storage/engine.go:107-120 | the loop over the log leaves the engine in the state of the committed operations in commit order, and fails exactly if one of them meets an unknown table |
| EngineStore.Engine.CommitTxn | internal/storage/txn.go:436-471 | the records and the commit record are appended and the rows applied in order; if an append fails, the log has the records before it and the tables are untouched |
| EngineStore.Engine.Put | internal/storage/engine.go:189-258 | an unknown table is reported; a put is admitted or refused as its table says; an admitted one is logged as Begin, Put and Commit under the next id and stored; a refused one leaves log and rows alone; if an append fails, only the id counter may have moved |
| EngineStore.Engine.Delete | internal/storage/engine.go:261-286 | an existing row is logged as deleted and removed; an unknown table, a missing row or a failing append changes no rows |
| EngineStore.Engine.ReserveID | internal/storage/engine.go:584-596 | the old counter is handed out and the counter moves on; an unknown table is reported |
| EngineStore.Engine.CreateTable | internal/storage/engine.go:125-146 | a taken name is refused; otherwise the definition is logged as Begin, Create and Commit and an empty table gets the next table id; if an append fails, nothing is added |
| EngineStore.Engine.DropNamed | internal/storage/engine.go:149-168 | an unknown name is refused; otherwise the drop is logged and the table leaves both maps; if an append fails, it stays |
| TxnModel.CommitIsRowTxn | internal/storage/txn.go:358-406 | operations that pass validation form a transaction every table accepts |
| TxnModel.CommitInstallsOverlay | internal/storage/txn.go:352-471 | commit as one step: if validation passes, each table ends up with exactly the rows the transaction saw, without duplicates in UNIQUE columns, and the index is exact |
| LoneCommits.LoneCommitIff | internal/storage/txn.go:352-406 | for every sequence of calls that all succeed on a fresh transaction over an unchanged base without duplicates: COMMIT succeeds if and only if no UNIQUE value of a put that a later operation on its row supersedes is held by another row at the end, and no inserted id is among the committed rows |
| LoneCommits.LastPutIsSeen | internal/storage/txn.go:114-135 | a put that nothing supersedes is what the transaction sees of its row |
| LoneCommits.SupersededPutIsRefused | internal/storage/txn.go:379-394 | on t(id PRIMARY KEY, k UNIQUE): insert (1, 7), update it to (1, 8), insert (2, 7): three successful calls, and COMMIT fails |
| LoneCommits.ReinsertedRowIsRefused | internal/storage/txn.go:396-406 | remove committed row (1, 7) and insert it again: two successful calls, and COMMIT fails |
| TxnModel.CallKeepsEngine | internal/storage/txn.go:216-344 | no call on an open transaction, failing or not, changes committed rows, definitions or indexes |
| TxnModel.CallShowsInOverlay | internal/storage/txn.go:216-344 | a successful call changes the view of the transaction by its one operation, in its table only |
| TxnStore.CheckUnique | internal/storage/txn.go:194-214 | accepts a row exactly when no other effective row has one of its UNIQUE values |
| TxnStore.Txn.Get | internal/storage/txn.go:82-100 | the backward scan of the buffer finds what the forward overlay of AllRows holds, for every buffer; a finished transaction reads the engine |
| TxnStore.Txn.EffMap | internal/storage/txn.go:114-135 | the effective rows are the committed rows with the buffer applied in order |
| TxnStore.FirstHolder | internal/storage/txn.go:159-179 | the lowest row id that holds the value, if any row does |
| TxnStore.Txn.UniqueGet | internal/storage/txn.go:159-179 | the lowest effective row id that holds the value, NULL never; a finished transaction asks the index of the engine |
| TxnStore.IndexGetIsScan | internal/storage/engine.go:562-580 | on a healthy engine the index gives a row id for a value of a UNIQUE column exactly if that row holds it |
| TxnStore.Txn.Insert | internal/storage/txn.go:218-285 | error, buffer, inserted ids and id counter are those of the model call, automatic ids staying reserved when the insert fails |
| TxnStore.Txn.Update | internal/storage/txn.go:298-323 | error and buffer are those of the model call |
| TxnStore.Txn.Remove | internal/storage/txn.go:326-344 | error and buffer are those of the model call |
| TxnStore.Txn.Validate | internal/storage/txn.go:358-406 | accepts exactly if every table still exists, every buffered put is unique in the overlay of the freshest rows, and no inserted id has been taken |
| TxnStore.Txn.Commit | internal/storage/txn.go:352-417 | if validation passes and the log takes all records, the engine is the model engine with the buffer applied; if an append fails, the transaction is over and the tables are untouched; if validation fails, nothing changes and the transaction stays open; committing a finished one does nothing |
| TxnStore.Txn.Rollback | internal/storage/txn.go:421-430 | the buffer is dropped and the engine is not touched |
| Sessions.OpenTxnIsInvisible | internal/server/server.go:167-243 | no sequence of messages, including errors, ROLLBACK and disconnect, changes committed rows, definitions or indexes until a COMMIT succeeds; only id counters may move |
| Sessions.OpenTxnGrowsCounters | internal/storage/engine.go:584-596 | until then, below the largest int64, the id counters only go up, by at most one for each call |
| Rollbacks.EndingMessage | internal/server/server.go:211-230 | ROLLBACK, a text that does not parse, DDL and a lost client end the transaction at once: the engine is untouched and no later message, COMMIT included, reaches the transaction |
| Rollbacks.RefusedCommit | internal/server/server.go:194-206 | so does a COMMIT that is refused |
| Rollbacks.FailedStatement | internal/server/server.go:232-244 | a statement ends the transaction exactly if it or one of its calls fails; only id counters may have moved |
| Rollbacks.AfterTheEnd | internal/server/server.go:156-244 | a connection runs the messages of a transaction up to its end and handles all later ones as on an idle connection |
| Rollbacks.RollbackLeavesNoTrace | internal/server/server.go:177-219 | BEGIN, messages without a successful COMMIT, ROLLBACK and a late COMMIT leave every table as it was if and only if the messages behind an error that ended the transaction, run on a connection of their own, leave every table as it was; so always if the transaction was still open at the ROLLBACK |
| Rollbacks.ErrorThenInsertStays | internal/server/server.go:156-165 | the condition is needed: BEGIN, an error, INSERT, ROLLBACK leaves the row |
| Sessions.CommitIsAtomic | internal/server/server.go:176-196 | a successful COMMIT installs in every table exactly what the transaction saw |
| Sessions.AutocommitKeepsHealth | internal/server/server.go:225-243 | statements outside a transaction, failing midway or not, leave every index exact |
| Connection.Conn.Abort | internal/server/server.go:156-165 | an error or a lost client ends the transaction and leaves the engine as it was |
| Connection.Conn.HandleInTxn | internal/server/server.go:167-243 | one message with a transaction in flight takes the connection to the model session state; which messages end the transaction is stated by Rollbacks.EndingMessage, RefusedCommit and FailedStatement |
| Connection.Conn.HandleIdle | internal/server/server.go:167-243 | one message on an idle connection, CREATE TABLE and DROP TABLE included, takes it to the model session state |
| Eval.ResolveInRange | internal/executor/executor.go:142-167 | a resolved column lies inside every row its scope covers, and resolution never panics |
| Eval.ArithmeticNeverPanics | internal/executor/executor.go:1355-1401 | the zero test on floats also keeps integer division from panicking |
| ThreeValued.AndAgreesIff | internal/executor/executor.go:1478-1490 | AND gives the SQL-92 truth value if and only if both operands are NULL or neither is |
| ThreeValued.OrAgrees | internal/executor/executor.go:1491-1503 | OR gives the SQL-92 truth value for all operands |
| ThreeValued.CompareAgrees | internal/executor/executor.go:1411-1437 | each of the six comparison operators is UNKNOWN for a NULL and otherwise TRUE exactly if the values stand in the relation it names, in the order of SqlOrder |
| ThreeValued.IntegerComparison | internal/executor/executor.go:1411-1437 | on integers, one of them below 2^53, the operators are those of the integers |
| ThreeValued.TextComparison | internal/executor/executor.go:1411-1437 | on texts the operators are those of the dictionary order |
| ThreeValued.InAgreesIff | internal/executor/executor.go:1448-1477 | IN and NOT IN give the SQL-92 truth value unless a NULL meets an empty list |
| QuerySafety.NullNotInNothing | internal/executor/executor.go:1609-1626 | NULL NOT IN (SELECT * FROM v) with v empty: the subquery leaves an empty list, and the condition is NULL where SQL-92 has TRUE |
| ThreeValued.AndFreeAgrees | internal/executor/executor.go:1409-1541 | without AND and with non-empty IN lists the evaluator computes the SQL-92 truth value, comparisons and IS NULL read off a reference of their own, or the same error |
| ThreeValued.AcceptsExactlyTrue | internal/executor/executor.go:1409-1541 | if no AND lies under a NOT and IN lists are non-empty, a row is accepted exactly when SQL-92 says TRUE, with the same reference |
| ThreeValued.AndUnderNotWitness | internal/executor/executor.go:1487-1487 | NOT (NULL AND TRUE) is NULL in SQL-92 but accepts every row here |
| Eval.ResolveIff | internal/executor/executor.go:142-167 | a column reference resolves if and only if it means a column: of the first table with its alias, or, unqualified, of the only table that has the name; to that column's place in the joined row |
| Validate.ValidValueSettles | internal/executor/executor.go:187-242 | an expression that passed validation evaluates without a panic and without name errors on every row its scope covers |
| Validate.ValidBoolSettles | internal/executor/executor.go:187-242 | the same for conditions |
| Validate.ValidIff | internal/executor/executor.go:187-242 | an expression passes exactly if every column in it resolves, its only function is NOW(), and its IN lists consist of literals |
| Validate.HavingIff | internal/executor/executor.go:1545-1606 | HAVING passes exactly if every plain column in it is one of the GROUP BY list, and every function is NOW(), count(*) or an aggregate of a column that resolves |
| Validate.HavingSettles | internal/executor/executor.go:1545-1606 | HAVING that passed validation evaluates without a panic on every group, the empty group without a representative row included |
| Joins.NestedLoop | internal/executor/executor.go:687-715 | the nested loops of one join step return the rows of the step, or its first error |
| Joins.InnerStepIsFilteredProduct | internal/executor/executor.go:687-715 | an inner step yields the Cartesian product restricted to TRUE conditions, in order |
| Joins.LeftStepIsUnion | internal/executor/executor.go:703-712 | a left step yields the inner join and the unmatched left rows padded with NULL, as a multiset |
| Joins.ChainIsLeftDeep | internal/executor/executor.go:686-716 | any chain of INNER and LEFT steps computes the left-deep join |
| Joins.LeftStepCount | internal/executor/executor.go:703-712 | a left step has for each left row as many rows as matches, but at least one |
| Joins.LeftChainKeepsRows | internal/executor/executor.go:686-716 | a chain of LEFT joins loses no row of the first table |
| Joins.InnerWithinLeft | internal/executor/executor.go:686-716 | turning any INNER steps of a chain into LEFT: if the looser chain succeeds, so does the other, and its rows are a subsequence of the looser ones |
| Grouping.GroupRows | internal/executor/executor.go:989-1013 | the loop yields one group per distinct key, in order of first occurrence, each with its first row as representative and its rows in order |
| Grouping.SameGroupIff | internal/executor/executor.go:997-1003 | two rows share a group exactly when all their group values agree |
| Grouping.GroupsAddUp | internal/executor/executor.go:989-1013 | every quantity summed per row adds up over the groups to its total over all rows |
| Grouping.AggregatesAreTotals | internal/executor/executor.go:1715-1803 | count(col) and the integer sum of a column are such per-row totals |
| Eval.IntegerSums | internal/executor/executor.go:1374-1388 | integer +, - and * give the integer result modulo 2^64 |
| Eval.IntegerDivision | internal/executor/executor.go:1370-1398 | integer division by zero is an error; otherwise a = b * q + r with a remainder smaller than b and of the sign of a, and only MIN / -1 wraps |
| Aggregates.GroupAggregatesAddUp | internal/executor/executor.go:1715-1765 | the counts of a column over all groups add up to its count over all rows, and the sums of an integer column to its sum, modulo 2^64 |
| Grouping.BestIsBound | internal/executor/executor.go:1779-1800 | min and max are values of the group and bound all of them |
| Aggregates.Sum | internal/executor/executor.go:1728-1755 | the loop computes the sum as the aggregate semantics define it: wrapping integers, floats added from the left, NULL for no values, an error for text |
| Aggregates.Avg | internal/executor/executor.go:1756-1778 | the loop computes the average of the values as floats |
| Aggregates.MinMax | internal/executor/executor.go:1779-1800 | the loop computes the aggregate; its result is NULL exactly if all cells are, and otherwise a cell such that no cell stands before it (min) or behind it (max) |
| Aggregates.CountCells | internal/executor/executor.go:1717-1727 | the loop counts the non-NULL cells |
| Aggregates.ExtremeMeaning | internal/executor/executor.go:1779-1800 | the aggregate named min gives a least cell of the column and the one named max a greatest one, in the order of SqlOrder; NULL exactly if all cells are NULL |
| Aggregates.AvgMeaning | internal/executor/executor.go:1756-1778 | avg is the running total of all cells as floats, first row to last, divided by their number; NULL for none, and an error exactly if some cell is no number |
| Aggregates.SumMeaning | internal/executor/executor.go:1728-1755 | sum is NULL for no cells, the sum modulo 2^64 for integers only, otherwise the sum of the integers as a float plus the running total of the floats; an error exactly if some cell is no number |
| Ordering.BeforeIsStrictOrder | internal/executor/executor.go:940-952 | the multi-key comparator, ties broken by position, is a strict total order on NaN-free keys |
| Ordering.BeforeIsRank | internal/executor/executor.go:946-958 | that order in terms of Compare alone: at the first key whose values differ, the smaller value first for ASC and the larger one for DESC; without such a key the earlier item first |
| Ordering.StableOrderRanks | internal/executor/executor.go:946-958 | the sort returns every item once, in that order if no key is NaN |
| Ordering.StableOrderIsUnique | internal/executor/executor.go:1056-1068 | there is only one stable order, so any stable sort returns this one |
| Ordering.OrderByLimit | internal/executor/executor.go:919-966 | any permutation in that order gives, cut by LIMIT, what ORDER BY with LIMIT returns |
| Query.RewriteIsDirect | internal/executor/executor.go:1611-1686 | if every IN-subquery succeeds, the condition with literal lists in their place gives on every row the truth value, NULL or error of the direct semantics of IN over the subquery results, at any nesting |
| QuerySafety.CandidatesSafe | internal/executor/executor.go:887-917 | after validation neither the shortcut nor the joins meet a missing cell or an unknown name, and every candidate has a cell for every column in scope |
| QuerySafety.MakePlanOk | internal/executor/executor.go:788-885 | planning never panics, and what it hands on refers only to existing cells, GROUP BY columns and legal aggregates |
| QuerySafety.GroupResultSafe | internal/executor/executor.go:989-1107 | grouping, HAVING, ORDER BY and projection of groups never panic, the empty implicit group included |
| QuerySafety.RunPlanSafe | internal/executor/executor.go:732-1108 | past planning a query meets no unknown name and no missing cell, and every result row has one cell per header |
| QuerySafety.SelectNeverPanics | internal/executor/executor.go:732-1108 | no SELECT panics, whatever its columns, conditions, derived tables and IN-subqueries, unless a derived table in it comes out empty and its alias names a stored table that has rows but fewer columns |
| QuerySafety.DerivedRowsIff | internal/executor/executor.go:671-680 | a derived table stands for the rows of its SELECT if and only if there are any, or a stored table of the same name is empty |
| QuerySafety.StarOverDerivedPanicsIff | internal/executor/executor.go:671-680 | SELECT * over a derived table panics if and only if the inner result is empty and its alias names a stored table that has rows but fewer columns |
| QuerySafety.ShadowedQueryPanics | internal/executor/executor.go:671-680 | with t(a) holding a row and u(a, b) none, SELECT * FROM (SELECT * FROM u) t panics although the inner query runs |
| Query.SourcesMeaning | internal/executor/executor.go:737-762 | the sources stand for the FROM entries one by one, side by side and under different aliases: stored tables with their columns, derived tables with the headers and rows of their query |
| Query.SubqueryGivesLits | internal/executor/executor.go:1611-1690 | a subquery stands for the cells of its one column, row by row |
| Query.SelectIsRewritten | internal/executor/executor.go:765-786 | a query that succeeds is run with WHERE, HAVING and ON in their places, each worth on every row what the original is worth with its subqueries met where they stand |
| SelectMeaning.PlanGroups | internal/executor/executor.go:802-824 | a query is grouped by the places of its GROUP BY columns, and grouped at all exactly if there are some, an aggregate among the fields, or HAVING |
| SelectMeaning.PlannedField | internal/executor/executor.go:515-592 | a planned field of a row is worth what its expression is worth |
| SelectMeaning.PlannedGroupField | internal/executor/executor.go:515-592 | a planned field of a group is worth what its expression is worth over the group |
| SelectMeaning.RowSelectMeaning | internal/executor/executor.go:918-986 | the candidate rows, each once, ordered by Compare on the values of the ORDER BY expressions with DESC as given, cut by LIMIT, give one result row each, whose cells are the values of the select expressions |
| SelectMeaning.GroupSelectMeaning | internal/executor/executor.go:989-1107 | the groups of which HAVING is TRUE, each once, ordered in the same way, cut by LIMIT, give one result row each, whose cells are the values of the select expressions over the group |
| SelectMeaning.GroupKeysMeaning | internal/executor/executor.go:1033-1055 | the keys groups are ordered by are the values of the ORDER BY expressions over them |
| SelectMeaning.HavingFilters | internal/executor/executor.go:1019-1032 | HAVING keeps the subsequence of exactly those groups of which it evaluates to TRUE; every group has been evaluated without error |
| SelectMeaning.MadeGroups | internal/executor/executor.go:989-1018 | one group for each distinct combination of GROUP BY values in order of first occurrence; without GROUP BY one group, even of no rows |
| SelectMeaning.CountOfNothing | internal/executor/executor.go:1014-1018 | an aggregate query without GROUP BY and HAVING over no rows has one result row, LIMIT 0 aside, and count(*) in it is 0 |
| SelectMeaning.StarIsWholeRow | internal/executor/executor.go:522-534 | SELECT * returns every joined row unchanged, all tables side by side |
| Shortcut.EqualCellIff | internal/types/types.go:105-205 | a cell of the column type compares equal to a literal exactly when it is the stored form of the literal or collides with it: same float rounding, NaN, or the other zero |
| Shortcut.ScanLoop | internal/executor/executor.go:1138-1156 | the loop collects the rows the scan defines, or its first error |
| Shortcut.ShortcutIsScanIff | internal/executor/executor.go:1119-1157 | UPDATE and DELETE: the UNIQUE shortcut returns the rows of the full scan if and only if no stored cell collides with the literal |
| Shortcut.SelectShortcutIff | internal/executor/executor.go:887-917 | SELECT: the UNIQUE shortcut returns the rows of the general join path if and only if no stored cell collides with the literal |
| Shortcut.PlainShortcut | internal/executor/executor.go:629-666 | no collision for text, booleans and timestamps, for integer literals below 2^53 in magnitude, and for float literals when neither literal nor column holds NaN or -0 |
| Shortcut.BigKeyIsMissed | internal/executor/executor.go:629-666 | a row with key 2^53 + 1 is found by the scan for 2^53 and missed by the shortcut |
| Accessor.LookupIsIndex | internal/storage/engine.go:564-579 | a lookup over the rows in id order answers what the exact index answers |
| Accessor.PerformKeepsUnique | internal/storage/txn.go:216-344 | every call on the engine or on a transaction keeps UNIQUE columns free of duplicates in the rows it shows |
| Dml.StoreKeepsFkIff | internal/executor/executor.go:338-355 | storing a row keeps all foreign keys if and only if its own foreign-key cells name existing parent rows |
| Dml.DropKeepsFk | internal/executor/executor.go:361-382 | removing a row keeps all foreign keys if and only if no other row refers to it |
| Dml.CallKeepsInv | internal/executor/executor.go:460-468 | every checked call, accepted or refused, keeps exact indexes, typed cells, unique columns and foreign keys |
| Dml.MoveKeepsInv | internal/executor/executor.go:1219-1234 | a primary-key move keeps the invariant at its midpoint, when the row is gone, and at its end, whether the put succeeds or not |
| Dml.ExecKeepsInv | internal/executor/executor.go:386-480 | every INSERT, UPDATE and DELETE, successful or failing midway, keeps the invariant |
| Dml.RunKeepsInv | internal/executor/executor.go:1159-1284 | after every sequence of statements, autocommit or in one open transaction, every non-NULL foreign-key cell names an existing parent row, every cell has the kind of its column, and UNIQUE columns hold no duplicates |
| Dml.InsertKeepsFkIff | internal/executor/executor.go:460-468 | an accepted INSERT keeps all foreign keys if and only if it does not number a key column that refers to a table without that number |
| Dml.AutoReferenceWitness | internal/executor/executor.go:460-468 | INSERT of a NULL into a self-numbering key that is a foreign key stores a reference to nothing |
| Dml.SelectAfterRun | internal/executor/executor.go:732-1108 | after every run no SELECT panics, shadowed derived tables aside |
| Dml.ShortcutAfterRun | internal/executor/executor.go:1119-1157 | after every run the shortcut finds what the scan finds, unless a stored cell collides with the literal |
| Dml.SelectShortcutAfterRun | internal/executor/executor.go:887-917 | the same for SELECT, against the general join path |
| DmlLoops.CheckFk | internal/executor/executor.go:338-355 | accepts a row exactly when every non-NULL foreign-key cell is the id of a parent row |
| DmlLoops.FkReferenced | internal/executor/executor.go:361-382 | true exactly when some row other than the parent row itself refers to it |
| DmlLoops.InsertLoop | internal/executor/executor.go:411-479 | the row loop leaves the rows and the result of inserting one by one up to the first error |
| DmlLoops.UpdateLoop | internal/executor/executor.go:1190-1248 | the candidate loop leaves the rows and the result of updating one by one up to the first error |
| DmlLoops.DeleteLoop | internal/executor/executor.go:1273-1282 | the candidate loop leaves the rows and the result of deleting one by one up to the first error |
| DmlMeaning.TargetsAreColumns | internal/executor/executor.go:391-415 | a column list names each column once, and each value goes to the column of that name; without a list, in order |
| DmlMeaning.CoerceAccepts | internal/executor/executor.go:96-106 | a TIMESTAMP column also takes the texts read as a time and stores the time; otherwise the column type alone decides |
| DmlMeaning.PreparedCells | internal/executor/executor.go:417-458 | a row to insert holds the given values, in stored form, in the given columns and NULL elsewhere |
| DmlMeaning.InsertAcceptsIff | internal/executor/executor.go:417-458 | INSERT accepts a row if and only if there is one value for each listed column, each fits its column, no NOT NULL column is NULL, and the primary key is an integer or, if it numbers itself, NULL; the row is then stored under its integer key, else under an id of the engine |
| DmlMeaning.InsertStores | internal/executor/executor.go:460-468 | a successful insert adds that row under its own or the next id and changes nothing else |
| DmlMeaning.AssignedCells | internal/executor/executor.go:1191-1204 | assigned columns get the value of their last SET expression on the original row, other cells stay |
| DmlMeaning.UpdateStores | internal/executor/executor.go:1205-1246 | a successful update replaces the row in place or moves it to its new key and changes nothing else |
| Statements.InsertMeaning | internal/executor/executor.go:386-480 | a successful INSERT stores the row of each VALUES list in order under its own or a handed-out id, changes no other table and counts them; below the largest id all of them are new and the old rows stay |
| Statements.UpdateMeaning | internal/executor/executor.go:1159-1248 | a successful UPDATE puts the assigned row of each of its rows in its place or under its new key, leaves all other rows of all tables, has nothing else, and counts its rows |
| Statements.AffectedAreWanted | internal/executor/executor.go:1119-1157 | the rows of an UPDATE or DELETE are those for which the condition is TRUE, collisions aside |
| DmlMeaning.DeleteMeaning | internal/executor/executor.go:1252-1284 | a successful DELETE, by scan or by index, leaves exactly the rows for which its condition is not TRUE, if and only if no stored cell collides with the literal of an index lookup |
| Atomicity.UpdateKeepsNotNullIff | internal/executor/executor.go:1206-1220 | UPDATE does not check NOT NULL: a row that honours it still does after the assignments if and only if no NOT NULL column is last set to NULL |
| Atomicity.NotNullIsOverwritten | internal/executor/executor.go:1206-1220 | UPDATE t SET a = NULL succeeds on a NOT NULL column |
| Atomicity.FailedInsertIsCleanIff | internal/executor/executor.go:417-480 | an INSERT that fails outside a transaction leaves the rows as they were if and only if its first row already failed |
| Atomicity.FailedDeleteIsCleanIff | internal/executor/executor.go:1272-1282 | the same for DELETE |
| Atomicity.FailedUpdateIsCleanIff | internal/executor/executor.go:1204-1248 | an UPDATE that fails outside a transaction leaves the rows as they were if and only if every row before the failing one was set to what it already held and the failing one was not deleted on its way to another key |
| Atomicity.FailedStatementIsCleanIff | internal/executor/executor.go:47-64 | the three together, for whole statements with their planning |
| Atomicity.FailedStatementInRoomIsCleanIff | internal/executor/executor.go:47-64 | the same from what can be checked before the call: the counter is above the stored ids, and neither it nor a key a row is moved to is within reach of the largest int64 |
| Atomicity.TakenCounterHidesTrace | internal/storage/engine.go:206-222 | that the counter names no stored row is needed: otherwise a first row can be stored over an equal one, and the failing INSERT leaves the rows as they were |
| Atomicity.FailedInsertLeavesRow | internal/executor/executor.go:417-480 | INSERT INTO t VALUES (1), (1) fails and leaves the first row |
| Atomicity.FailedMoveLosesRow | internal/executor/executor.go:1221-1240 | UPDATE t SET id = 2 over rows 1 and 2 fails and loses row 1 |
| Ddl.DefinedIsOk | internal/executor/executor.go:246-333 | what CREATE TABLE lets in: a new name, distinct columns, an integer key, and foreign keys that name the primary key of an existing other table |
| Ddl.DropKeepsFkIff | internal/executor/executor.go:268-279 | DROP TABLE keeps all foreign keys if and only if no row of another table refers to the dropped one |
| Ddl.DropLeavesDanglingRow | internal/executor/executor.go:268-279 | dropping the parent of a row leaves the row referring to nothing |
| DmlSessions.BeginKeepsInv | internal/server/server.go:177-193 | a new transaction sees the committed rows, so it starts with types, UNIQUE columns and foreign keys in order |
| DmlSessions.CommitKeepsInv | internal/storage/txn.go:352-417 | a successful COMMIT makes what the transaction saw the committed state, in order |
| DmlSessions.CreateKeepsInv | internal/storage/engine.go:125-146 | a new, empty table keeps the invariant |
| DmlSessions.EverySessionIsConsistent | internal/server/server.go:167-243 | from the empty database on, after any sequence of CREATE TABLE, DROP TABLE, statements, BEGIN, COMMIT, ROLLBACK and errors on one connection, the committed tables and what an open transaction sees of them are well-typed, without duplicates in UNIQUE columns, and every foreign key names a row; self-numbering foreign keys and drops of referenced tables excepted |
| DmlSessions.TransactionEnds | internal/server/server.go:156-243 | ROLLBACK, DDL, a refused COMMIT and exactly the failing statements end a transaction; nothing but a successful COMMIT touches a table |
| DmlSessions.AbandonedLeavesNoTrace | internal/server/server.go:176-243 | BEGIN, statements that succeed, and then ROLLBACK, DDL, a refused COMMIT or a failing statement leave every table as before the BEGIN, and a COMMIT after that changes nothing |
| Interference.CommitKeepsFkIff | internal/storage/txn.go:352-417 | whatever others have committed since BEGIN: a successful COMMIT keeps all foreign keys if and only if the rows it brings refer to rows that are still there and no row it leaves alone refers to one it removes |
| Interference.ParentVanishesBeforeCommit | internal/storage/txn.go:358-406 | a child is inserted in a transaction, another connection deletes its parent, and COMMIT succeeds: the child refers to nothing |
| Printing.ParseOfPrint | internal/parser/parser.go:897-1145 | an expression, IN-subqueries included, printed with parentheses only where precedence needs them parses back to itself, whatever follows that cannot belong to it |
| Printing.ReadSelect | internal/parser/parser.go:623-831 | a printed query, with fields and aliases, derived tables, joins and their kinds, WHERE, GROUP BY, HAVING, ORDER BY with directions and LIMIT, parses back to itself |
| Lexer.LexOfWrite | internal/parser/parser.go:270-334 | tokens written out, strings with doubled quotes, are lexed back to the same tokens |
| Lexer.LexLoop | internal/parser/parser.go:270-334 | the pass over the text returns the tokens of the lexical grammar, or its error |
| SqlText.TextRoundTrip | internal/parser/parser.go:216-233 | an expression written as text, lexed and parsed is the same expression |
| SqlText.QueryTextRoundTrip | internal/parser/parser.go:216-233 | a query written as text, lexed and parsed is the same query |
| Grammar.ParseOr | internal/parser/parser.go:899-913 | terminates on every token list and consumes at least one token when it succeeds |
| Grammar.ParseSelect | internal/parser/parser.go:685-832 | terminates on every token list, through derived tables and IN (SELECT), and consumes at least one token when it succeeds |
| ParserStore.Parser.ParseOr | internal/parser/parser.go:899-913 | result and cursor are those of the grammar |
| ParserStore.Parser.ParseAnd | internal/parser/parser.go:915-929 | result and cursor are those of the grammar |
| ParserStore.Parser.ParseNot | internal/parser/parser.go:931-941 | result and cursor are those of the grammar |
| ParserStore.Parser.ParseTail | internal/parser/parser.go:948-1010 | result and cursor are those of the grammar; a NOT that does not open NOT IN is put back |
| ParserStore.Parser.ParseIn | internal/parser/parser.go:975-1009 | result and cursor are those of the grammar, for lists and subqueries |
| ParserStore.Parser.ParseAdd | internal/parser/parser.go:1012-1031 | result and cursor are those of the grammar |
| ParserStore.Parser.ParseMul | internal/parser/parser.go:1033-1052 | result and cursor are those of the grammar |
| ParserStore.Parser.ParseUnary | internal/parser/parser.go:1054-1065 | result and cursor are those of the grammar; a leading minus subtracts from zero |
| ParserStore.Parser.ParsePrimary | internal/parser/parser.go:1067-1145 | result and cursor are those of the grammar |
| ParserStore.Parser.ParseTableRef | internal/parser/parser.go:623-669 | result and cursor are those of the grammar |
| ParserStore.Parser.JoinStart | internal/parser/parser.go:718-744 | recognises the words that open a join and puts a dangling INNER or LEFT back |
| ParserStore.Parser.ParseSelect | internal/parser/parser.go:685-832 | result and cursor are those of the grammar |
| ParsedQueries.SelectShape | internal/parser/parser.go:685-832 | every query the parser accepts has one ON and one join kind per joined table, at every depth |
| ParsedQueries.ParsedSelectNeverPanics | internal/executor/executor.go:732-1108 | whatever the tokens, a query that parses runs to a result or an SQL error, unless one of its derived tables comes out empty and is shadowed by a narrower stored table |

## Left out

- cmd/tsql, cmd/tsqld, internal/protocol, packaging: terminal, flags, sockets, JSON frames.
- Error message texts, token positions and column headers of results: only error codes and which
  error comes first are kept.
- Wall clock: NOW() is one time per statement, where the server reads the clock for every row.
- Parsing of INSERT, UPDATE, DELETE, CREATE TABLE and DROP TABLE: only SELECT and expressions are
  parsed.
- DROP in recovery claims: replay derives table ids anew, so histories with DROP can change ids.
- Mixed interleavings of autocommit writers with explicit commits or checkpoints, and of CREATE TABLE
  with a commit: the locks do not decide them. Commit is one atomic step in `Sessions`; the writers of
  `Writers` are autocommit only; `Durability` runs one operation at a time.
- meta.json, the auto-checkpoint goroutine and file names of snapshots.
- An fsync that fails after the commit record has been written: `WalFile.Wal.Append` says what is then
  readable, but no run of the engine goes through it.
- Wrap-around of the 32-bit table id; methods that log require ids below it.
- The order of tables in the catalog and of keys in Go maps: results that could depend on it do not.
- In-place rewriting of the syntax tree by IN-subqueries: the rewritten tree is a new value.
- Text is a sequence of characters; invalid UTF-8 inside quoted keys and bytes above 127 outside
  string literals are not modelled.
- Sort keys that are NaN: the comparator is then no order, and what a library sort does is open; only
  that the result is a permutation is stated.
- Printing.ParseOfPrint: without the names null, true, false, not and select in operand position, which
  the grammar reads differently there, and with literals that have a text.
- Printing.ReadSelect: the same, and only in front of the end, a closing parenthesis or a semicolon;
  aliases are printed with AS, INNER, OUTER and ASC are not printed.
- Dml.RunKeepsInv: for catalogs without self references (CREATE TABLE refuses them) and without a
  self-numbering key that is a foreign key; `Dml.InsertKeepsFkIff` is the exact condition for one row.
- DmlSessions.EverySessionIsConsistent: one connection, so the base of a transaction does not change
  under it; `Interference.CommitKeepsFkIff` is the exact condition when it does.
- WalFile.Wal.Truncate: what is appended after a failing seek is not modelled.
- Atomicity.FailedStatementIsCleanIff: for id counters that do not name a stored row while the
  statement runs; `Atomicity.RoomIsFine` gives that for counters and keys below the largest int64, and
  `Atomicity.TakenCounterHidesTrace` shows that it is needed.
- Statements.UpdateMeaning: for rows that are not moved to key 0, which would ask the engine for a number.
- EngineStore.Engine.ApplyOne: excludes exactly the rows too short for a UNIQUE column of their table,
  on which the source panics; so do ApplyPending, Replay and CommitTxn.
- EngineStore.Engine.CommitTxn: every table still exists; that one vanishes between validation and
  commit needs a concurrent DROP TABLE.
- TxnStore.Txn.Commit: excludes exactly the buffered rows too short for a UNIQUE column their table has
  now, on which the source panics; that needs a table dropped and created anew in between.
- Connection.Conn.HandleInTxn: the same rows excluded, and appends to the log succeed; `Txn.Commit` and
  `Durability` have the failing ones.
- Connection.Conn.HandleIdle: definitions of CREATE TABLE have been validated (`Ddl.DefinedIsOk`), and
  appends to the log succeed; the engine's own methods have the failing ones.
