# albackup, modelled in Dafny

albackup backs up a Microsoft SQL Server database to a directory of files and restores it. It
does this through SQLAlchemy, without the server's native backup.

A **dump** does four things:
- It reflects the catalog and corrects two things reflection gets wrong: the column order of
  primary keys, and clustered indexes or indexes with included columns.
- It writes each table's rows to `<table>.pickle` in pickled blocks. Each block is preceded by a
  decimal length line, and an `EOF` sentinel ends the file.
- It collects the text of every view, procedure, function and trigger. Views are ordered so that
  each one comes after the views it references. Trigger texts lose the database part of
  three-part table references.
- It pickles all of this into `_metadata.pickle`.

A **restore** works in phases:
1. It fixes the collation of text columns.
2. It drops and re-creates the schema.
3. It switches referential-integrity (RI) checks off.
4. It inserts the blocks of every table, each block in its own transaction.
5. It re-creates the stored objects.
6. It switches RI checks back on.

The repository holds two generations of this program:
- the `albackup` package (`albackup/__init__.py`, `albackup/dump.py`, `albackup/restore.py`);
- the older stand-alone scripts `dump.py` and `restore.py`.

The model covers both. Most operations take a `Variant` (`Package` or `Script`) wherever the two
generations differ: block size, transactions, case folding of view dependencies, the view seed,
and drop templates.

## How the model is built

- **The database connection** is a `Scope.Connection` object with an append-only log of `Event`s:
  `Begin`, `Commit`, `Rollback`, `Exec(stmt)` and `Close(result)`.
  - Which statements and commits the server refuses is a fixed predicate, `refuses`. `begin`,
    `rollback` and `close` always succeed (see Left out).
  - The rows a statement returns are a fixed function, `answer`.
- **A unit of work** is described by a value `Run(events, failure)`. Runs compose sequentially with
  `Scope.Then`: a unit stops at its first exception.
  - The `transaction` and `execute_resultset` context managers become `Scope.Transaction` and
    `Scope.ResultScope`.
  - Each imperative method is proved against such a function: its log grows by exactly the events
    of the corresponding `Run`, and it returns that run's failure.
  - Lemmas then state what these runs are: order, counts of begin/commit/rollback, and when they
    succeed.
- **Files.**
  - The backup directory is a `Codec.Directory` mapping paths to bytes.
  - A file open for writing is a `Codec.OutFile`; a file open for reading is a `Codec.InFile`
    with a read position.
  - pickle is a pair of functions `Codec.Serializer(dump, load)`. The round-trip lemmas assume
    `load` undoes `dump` only on the blocks concerned.
- **The catalog** (`sqlalchemy.MetaData`) is a `Catalog.MetaData` object. The normalisers and the
  text-column fix update its `tables` in place. A Python `dict`/`set` of tables or indexes is a
  sequence in iteration order.
- **Catalog queries** made by the dump-side normalisers are modelled by their answers, passed as
  functions: `sys.indexes`, the included-columns query, `sp_pkeys` and
  `sys.dm_sql_referenced_entities`.

## Model

| member | source | states |
|---|---|---|
| Common.Lower | albackup/dump.py:239 | Lower-casing keeps the length (ASCII letters only) |
| Common.LowerIdempotent | albackup/dump.py:244-246 | Lower-casing twice is lower-casing once, so keys folded by the seed and by the loop agree |
| Common.DecimalReadsBack | albackup/dump.py:89 | The decimal rendering of a length is a non-empty digit string that reads back as that number |
| Common.SpaceAfterSign | albackup/restore.py:80 | Python 2's `int()` skips white space around the number and after its sign: `+ 3` followed by a newline is 3, ` - 12 ` is -12, and a sign without digits is rejected |
| Common.LengthLineParses | albackup/restore.py:78-80 | `int()` of a length line as the writer produces it gives back the length |
| Catalog.FirstColumn | albackup/dump.py:205 | `[r[0] for r in rows]` yields the first columns in order; the model succeeds exactly when every row has a first column and it is text (the non-text case is listed under Left out) |
| Scope.ThenAssoc | albackup/__init__.py:34-50 | Sequential composition of units of work is associative |
| Scope.ThenDone | albackup/__init__.py:34-50 | The empty unit is a unit of composition on both sides |
| Scope.AttemptStopsAtFirstRefusal | albackup/restore.py:63-66 | Statements run in order up to and including the first refused one; success exactly when none is refused; a failure is the refusal of the last executed statement, and all earlier ones were accepted |
| Scope.TransactionBeginCommit | albackup/__init__.py:43-46 | `begin` is called once and first; `commit` is called once if the body completes and never if it raises |
| Scope.CountExit | albackup/__init__.py:44-50 | Leaving the scope commits only after a normal body and rolls back only when something failed |
| Scope.TransactionRollback | albackup/__init__.py:44-50 | A raising body is rolled back once and its exception re-raised; a refused commit is rolled back and re-raised; a successful transaction never rolls back |
| Scope.ResultScopeCloses | albackup/__init__.py:52-62 | The statement is executed first; its result is closed once on a normal exit and never when the body raises, whose failure passes through |
| Scope.Connection.constructor | albackup/__init__.py:80 | A new connection has an empty log |
| Scope.Connection.Begin | albackup/__init__.py:43 | `con.begin()` appends `Begin` |
| Scope.Connection.Commit | albackup/__init__.py:46 | `commit()` appends `Commit` and reports whether the server accepted it |
| Scope.Connection.Rollback | albackup/__init__.py:49 | `rollback()` appends `Rollback` |
| Scope.Connection.Execute | albackup/__init__.py:60 | `con.execute(s)` appends `Exec(s)`, reports acceptance, and returns a fresh result holding `answer(s)` |
| Scope.ResultSet.FetchMany | albackup/dump.py:80 | `fetchmany(n)` returns the next `min(n, pending)` rows and removes them |
| Scope.ResultSet.FetchAll | albackup/dump.py:205 | `fetchall()` returns every pending row and leaves none |
| Scope.ResultSet.Close | albackup/__init__.py:62 | `close()` appends `Close(stmt)` |
| Scope.TransactionEnter | albackup/__init__.py:43 | Entering `transaction(con)` appends `Begin` |
| Scope.TransactionExit | albackup/__init__.py:44-50 | Leaving `transaction(con)` appends exactly the commit/rollback events of `Transaction` and raises its failure |
| Scope.ResultsetEnter | albackup/__init__.py:60-61 | Entering `execute_resultset` executes the statement and yields its result |
| Scope.ResultsetExit | albackup/__init__.py:62 | Leaving `execute_resultset` closes the result only after a normal exit |
| Codec.ChunksPartition | albackup/dump.py:80-92 | The blocks successive `fetchmany(n)` calls return are non-empty, hold at most `n` rows, and concatenate to the result set in order |
| Codec.EmptyTableIsJustEof | albackup/dump.py:82-93 | A table without rows produces a file holding only `EOF` |
| Codec.NextLine | albackup/restore.py:78 | `readline()` splits the file into the line and the rest, and is non-empty before end of file |
| Codec.NextBytes | albackup/restore.py:83 | `read(n)` splits the file into what is read and the rest |
| Codec.NextLineOfLengthLine | albackup/restore.py:78 | `readline()` after a length line returns that line with its newline and leaves what follows |
| Codec.NextLineSplit | albackup/restore.py:78 | A line runs past any newline-free prefix |
| Codec.NextLineWithoutNewline | albackup/restore.py:78-79 | Without a newline `readline()` returns the rest of the file; this is how the bare `EOF` line is read |
| Codec.ReadFrame | albackup/restore.py:78-84 | Reading a written frame yields the decimal length line (never `EOF`), which parses to the block's size, followed by exactly the block's bytes |
| Codec.DecodeEncode | albackup/restore.py:77-95 | Round trip: reading a file the dump wrote yields the written blocks in order and ends cleanly at the sentinel |
| Codec.RowsSurvive | albackup/dump.py:76-96 | A table's rows survive the trip through its backup file: every block reads back and together they are the selected rows |
| Codec.Directory.constructor | albackup/dump.py:73 | The backup directory starts with the given files |
| Codec.OutFile.constructor | albackup/dump.py:79 | A file opened with `'wb'` is empty |
| Codec.OutFile.Write | albackup/dump.py:89-90 | `fh.write(b)` appends `b` |
| Codec.InFile.constructor | albackup/restore.py:77 | A file opened for reading is positioned at its start |
| Codec.InFile.ReadLine | albackup/restore.py:78 | `readline()` returns what `NextLine` says and advances past it |
| Codec.InFile.Read | albackup/restore.py:83 | `read(n)` returns what `NextBytes` says and advances past it |
| Dump.BlockSize | albackup/dump.py:14 | 500 rows per fetch in the package, 100 in the script (dump.py:12) |
| Dump.PathJoin | albackup/dump.py:26-29 | `os.path.join`: an absolute second part replaces the first; otherwise the two are joined with exactly one `/` |
| Dump.BackupDir | albackup/dump.py:26-29 | The backup directory is `<db>@<server>-<stamp>` under the root, or under `.` when no root is given |
| Dump.MetaCachePath | albackup/dump.py:50-51 | The catalog cache is `<db>@<server>.pickle` in the cache directory, and there is no cache without a cache directory |
| Dump.TableFileInjective | albackup/dump.py:73 | Distinct relative table names get distinct data files |
| Dump.BackupStep | albackup/dump.py:72-96 | Backing up one more table extends the log by that table's events and writes its file once its select is accepted |
| Dump.BackupFailureSticks | albackup/dump.py:72-96 | After the first failing table, the rest of the tables change neither the log nor the directory |
| Dump.TableBackupSucceeds | albackup/dump.py:76-96 | One table succeeds exactly when its select (and, in the package, the commit) is accepted; it then selects, closes, and in the package commits |
| Dump.BackupSucceeds | albackup/dump.py:68-96 | The backup succeeds exactly when every select (and every commit, in the package) is accepted, and then selects each table once, in catalog order |
| Dump.BackupWritesEveryTable | albackup/dump.py:72-96 | After a successful backup every table has its data file holding its framed rows; other files are unchanged and no other file appears |
| Dump.WriteBlocks | albackup/dump.py:80-93 | The fetch-and-write loop writes exactly `Encode` of the fetched blocks and drains the result |
| Dump.FetchSplitsChunks | albackup/dump.py:80-92 | One `fetchmany(n)` followed by the blocks of what is left gives the blocks of what was pending |
| Dump.BackupTable | albackup/dump.py:73-96 | Backing up one table appends exactly the events of `TableBackupRun` and writes its file when its select is accepted |
| Dump.BackupTables | albackup/dump.py:68-96 | `backup_tables` appends exactly the events of `BackupRun` and leaves the directory as `BackupFiles` says |
| Dump.FetchFailureSticks | albackup/dump.py:208-212 | After the first failing definition fetch, later names change nothing |
| Dump.FetchedDefinitions | albackup/dump.py:207-212 | Fetching succeeds exactly when every `sp_helptext` is accepted and returns text; each definition is then named after its object, is its fragments joined in order, and has no dependencies |
| Dump.ObjectDefinitionsContent | albackup/dump.py:199-213 | `_get_object_definitions` succeeds exactly when the listing, every fetch and, in the package, the commit succeed; the definitions then follow the listed names |
| Dump.FetchOne | albackup/dump.py:210-212 | One definition fetch appends exactly the events of `FetchDefinition` and returns its definition |
| Dump.FetchStep | albackup/dump.py:208-212 | One more fetched name extends the log and the definitions by that name's fetch |
| Dump.FetchAllDefinitions | albackup/dump.py:207-212 | The fetch loop appends exactly the events of `FetchDefinitions` and returns its definitions on success |
| Dump.ListNames | albackup/dump.py:204-205 | The listing inside `execute_resultset` returns the names in the first column |
| Dump.GetObjectDefinitions | albackup/dump.py:199-213 | `_get_object_definitions` in either variant appends exactly the events of `ObjectDefinitions` and returns its definitions (dump.py:53-68 without the transaction) |
| Dump.TwoObjectsCollected | test/TestDump.py:259-276 | Two listed objects with fragments `defintion`, `for`, `object<k>` yield `defintionforobject1` and `defintionforobject2` |
| Views.Key | albackup/dump.py:239 | Dependency names are lower-cased in the package and kept verbatim in the script (dump.py:92) |
| Views.Entities | albackup/dump.py:239 | The dependencies of a view are the referenced entity names, in order, keyed by the variant |
| Views.Extract | albackup/dump.py:230-240 | Extraction succeeds exactly when no view references another schema; views keep name and text and gain their dependencies; otherwise the first offending view is reported |
| Views.Pass | albackup/dump.py:252-258 | One pass puts every view either among the placed or among the remaining |
| Views.PassSplits | albackup/dump.py:252-258 | A pass permutes the views into placed and waiting, and afterwards knows the seed plus the placed views |
| Views.PassPlacedNothing | albackup/dump.py:259-273 | A pass that places nothing leaves everything waiting, and no view was ready |
| Views.PassNoneReady | albackup/dump.py:253-258 | When no view is ready, a pass places nothing |
| Views.PassValid | albackup/dump.py:252-258 | The views a pass places are in a valid order |
| Views.KeysMember | albackup/dump.py:255 | A key is known through the placed views exactly when one of them has that name |
| Views.OrderSound | albackup/dump.py:249-275 | A successful ordering is a permutation of the views in which each appears after everything it references that is not in the seed |
| Views.OrderStuck | albackup/dump.py:259-273 | When ordering fails, no waiting view is ready against the names then known, which include the seed and every placed view |
| Views.OrderComplete | albackup/dump.py:249-275 | If any valid order exists, the greedy passes succeed; with `OrderSound`, ordering fails exactly when no valid order exists |
| Views.MissingDependencyFails | albackup/dump.py:259-273 | A reference that is neither in the seed nor a view's name makes ordering fail |
| Views.NothingReadyFails | albackup/dump.py:259-273 | If no view is ready at the start, ordering fails at once, reporting all views and the seed |
| Views.Fold | albackup/dump.py:244-255 | The key function of the ordering is lower-casing in the package and identity in the script |
| Views.Seed | albackup/dump.py:244-246 | The package seeds the lower-cased tables, functions and procedures; the script seeds the tables only (dump.py:97) |
| Views.GetViewsSound | albackup/dump.py:222-280 | A successful `get_views` had no foreign reference and returns a permutation of the extracted views in which every reference is in the seed or names an earlier view |
| Views.OrderViews | albackup/dump.py:249-275 | The `while` loop with its inner `for` computes exactly `Order` |
| Views.FixtureOrdered | test/TestDump.py:346-363 | The test's views v1, v2, v4, v3 are ordered v1, v4, v3, v2 |
| Views.FixtureCycle | test/TestDump.py:365-373 | A cycle v1 -> v2 -> v4 -> v1 cannot be ordered |
| Views.FixtureMissing | test/TestDump.py:375-381 | A reference to `t99` cannot be satisfied |
| Views.FixtureScriptSeed | dump.py:96-109 | A view on a function cannot be placed by the script, but is placed by the package |
| Views.FixtureExtracted | test/TestDump.py:298-314 | The test's views gain dependencies `t1` and `t2, tig1, func1`; an empty schema and `dbo` are both accepted |
| Views.FixtureForeign | test/TestDump.py:317-330 | A dependency in schema `xyz` aborts extraction at `view1` |
| Normalize.KeyColumnsExclude | albackup/dump.py:157-160 | The intended key columns are exactly the non-included columns, and all columns when nothing is included |
| Normalize.KeyColumnsAppend | albackup/dump.py:157-160 | The intended filter distributes over concatenation, so the key columns keep the index's column order and multiplicity, as `sa.Index` receives them positionally (albackup/dump.py:165-169) |
| Normalize.KeyColumnsOne | albackup/dump.py:157-160 | A single column is kept exactly when it is not included |
| Normalize.FixedIndexDecision | albackup/dump.py:122-172 | An index needing no rebuild is kept; a rebuilt one keeps its name, is clustered and unique exactly as `sys.indexes` says, includes the included columns in query order and keys on `KeyColumns` of its columns, the intended by-name filter rather than the one written at albackup/dump.py:159 (see Findings) |
| Normalize.UniqueAloneKeeps | albackup/dump.py:142-165 | A unique, non-clustered index without included columns is left alone: uniqueness alone does not require a rebuild |
| Normalize.FixAllIndexesChanges | albackup/dump.py:100-174 | The pass changes only indexes, keeps each table's number of indexes and every name, and keeps each index that needs no rebuild |
| Normalize.FixIndexesWithIncludedColumns | albackup/dump.py:98-174 | The method leaves the catalog as `FixAllIndexes` of the old catalog, which filters key columns by name as intended rather than as written at albackup/dump.py:159 |
| Normalize.FixtureIndexes | test/TestDump.py:122-228 | The test's `ix1`: kept unchanged; rebuilt clustered; rebuilt unique over c1, c3 with c2 included |
| Normalize.KeyColumnsAsWrittenKeepsAll | albackup/dump.py:159 | As written, the included-column filter keeps every column |
| Normalize.IncludedColumnFilterFinding | albackup/dump.py:155-159 | For c1, c2, c3 with c2 included, the code keeps c1, c2, c3 where c1, c3 is intended |
| Normalize.WithKeyInsert | albackup/dump.py:188 | Inserting a row puts it in front of the rows with its own key |
| Normalize.InsertSorted | albackup/dump.py:188 | Insertion keeps the rows sorted and adds exactly the inserted row |
| Normalize.SortSortsAndPermutes | albackup/dump.py:188 | `pkeys.sort(key=lambda x: x[4])` orders the rows by key ordinal and is a permutation |
| Normalize.SortStable | albackup/dump.py:188 | The sort is stable: rows with the same ordinal keep their order |
| Normalize.FirstMissing | albackup/dump.py:190-193 | `table.columns[name]` fails at the first name that is not a column |
| Normalize.FixKeysSucceeds | albackup/dump.py:180-196 | Without an unknown column, tables without a primary key are unchanged; others keep everything but the key, whose name is kept and whose columns are the `sp_pkeys` columns in stable key order |
| Normalize.FixKeysLength | albackup/dump.py:180 | The pass keeps the number of tables |
| Normalize.FixKeysFails | albackup/dump.py:190-193 | A failure names a column that some table's `sp_pkeys` rows mention but the table lacks |
| Normalize.FixKeysAt | albackup/dump.py:180-196 | One step of the pass: skip a table without a key, stop at an unknown column, or replace the key |
| Normalize.FixPrimaryKeyOrder | albackup/dump.py:176-196 | The method leaves the catalog, and returns the failure, as `FixKeys` of the old catalog says |
| Normalize.FixtureSortedKey | test/TestDump.py:230-257 | Ordinals 3, 1, 2 for c3, c1, c2 give the key c1, c2, c3 |
| Triggers.Find3Least | albackup/dump.py:304 | The lazy third group takes the shortest length after which `" ` follows |
| Triggers.Find2Least | albackup/dump.py:304 | The lazy second group takes the shortest length for which the rest of the pattern can match |
| Triggers.Find1Least | albackup/dump.py:304 | The lazy first group takes the shortest length for which the rest of the pattern can match |
| Triggers.MatchAtSound | albackup/dump.py:304 | What the matcher returns is a match of `on "(.+?)"\."(.+?)"\."(.+?)" ` (case-insensitive `on`) |
| Triggers.MatchGroups | albackup/dump.py:304 | Each group of a match is one the matcher accepts at that length |
| Triggers.MatchAtFirst | albackup/dump.py:304 | Wherever the pattern matches, the matcher finds a match, and it is the first one lazy backtracking reaches |
| Triggers.NoMatchCopies | albackup/dump.py:307 | `regex.sub` copies text without a match unchanged |
| Triggers.NoMatchUnchanged | albackup/dump.py:306-308 | A trigger without a three-part reference keeps its text |
| Triggers.SubstituteSkips | albackup/dump.py:307 | Text before the first match is copied unchanged |
| Triggers.SubstituteMatch | albackup/dump.py:307 | At a match, the replacement `on "\2"."\3" ` is written and scanning continues after the match |
| Triggers.GetTriggers | albackup/dump.py:299-311 | `get_triggers` has the same run as the trigger listing, and each trigger keeps its name and dependencies and has its text rewritten |
| Triggers.FixtureRewrite | test/TestDump.py:409-421 | `... on "db"."schema"."table" .....` becomes `... on "schema"."table" .....` |
| Base.JoinDotted | albackup/__init__.py:16 | Joining with dots is the first part followed by each other part after a dot |
| Base.LoggerNameSpec | albackup/__init__.py:8-17 | A logger name is `albackup` followed by each given name after a dot |
| Base.FactoryLoggerNameSpec | albackup/__init__.py:19-28 | A factory logger name is `albackup.<name>` followed by each further name after a dot |
| Base.FixtureLoggerNames | test/TestInit.py:12-25 | `loggerFactory('TestInit')` gives `albackup.TestInit`, `albackup.TestInit.l1` and `albackup.TestInit.l1.l1` |
| Base.InitialInfo | albackup/__init__.py:82-84 | The base constructor starts with only its start time; `Restore.__init__` then replaces this dictionary with the loaded one (see Left out) |
| Base.InitialInfoLacksTheRest | albackup/__init__.py:86-131 | Before anything is collected, every other property raises `KeyError` |
| Base.DumpRestoreBase.constructor | albackup/__init__.py:72-84 | The base keeps the backup directory and connection and starts with the initial info |
| Base.DumpRestoreBase.Lookup | albackup/__init__.py:86-131 | A property yields its info entry exactly when it is present |
| Base.PaddingSpec | albackup/__init__.py:212-214 | The padding is one to eight bytes, completes the password to whole blocks, and each byte is its length |
| Base.PackInt | albackup/__init__.py:215 | `struct.pack('i', n)` succeeds exactly inside the 32-bit range, giving four bytes |
| Base.UnpackPack | albackup/__init__.py:215-225 | Unpacking undoes packing |
| Base.RawLayout | albackup/__init__.py:206-216 | The encrypted password is the IV, the 4-byte length, then the whole-block ciphertext of the padded password |
| Base.DecryptEncrypt | albackup/__init__.py:206-228 | Round trip: decrypting an encrypted password gives it back |
| Base.CheckEncrypted | albackup/__init__.py:202-204 | `_check` of an encrypted password accepts exactly that password |
| Restore.EachStopsAtFirstFailure | albackup/restore.py:128-135 | A loop of units succeeds exactly when each does, and then logs all their events; otherwise it stops at the first failing unit and raises its failure |
| Restore.ManualTransactionNeverRollsBack | restore.py:44-52 | The script's hand-written transaction begins once and commits only after a normal body; it never rolls back, and re-raises the body's failure |
| Restore.ScopedSplit | restore.py:40-52 | The per-object scope is `Begin`, the body, then the exit events of the variant |
| Restore.ScopeEnter | albackup/restore.py:130 | Entering the per-object scope appends `Begin` |
| Restore.ScopeExit | albackup/restore.py:130 | Leaving the per-object scope appends the exit events of the variant: a transaction in the package, commit only in the script |
| Restore.FixColumn | albackup/restore.py:31-39 | A fixed column keeps its name and nullability, and stays a text column exactly when it was one |
| Restore.FixTextSpec | albackup/restore.py:25-39 | The fix gives `TEXT` columns the Latin-1 collation and resets `NTEXT` columns; everything else is left unchanged, and the fix is idempotent |
| Restore.ColumnKeysSpec | albackup/restore.py:30-38 | A table's suspect keys are exactly `<table>.<column>` of its text columns |
| Restore.SuspectKeysSpec | albackup/restore.py:27-38 | The suspect keys are exactly `<table>.<column>` of every text column of every table |
| Restore.FixTextColumns | albackup/restore.py:25-39 | `fixTextColumns` updates the catalog as `FixTextTables` says and records every suspect column with `True` (restore.py:104-115) |
| Restore.FixtureTextColumns | test/TestRestore.py:66-90 | The test's `t1.c2` (`TEXT`) and `t2.c3` (`NTEXT`) are the suspect columns |
| Restore.FormatLiteral | albackup/restore.py:132 | `%` formatting copies a literal without `%` unchanged |
| Restore.FillFormats | albackup/restore.py:132 | A two-slot drop template formats to its filled-in statement |
| Restore.DropViewStmts | albackup/restore.py:65-66 | One `DROP VIEW` per view, in reverse order of the views |
| Restore.DropViews | albackup/restore.py:63-66 | `_drop_views` appends exactly the events of attempting those statements |
| Restore.DropViewsReverse | albackup/restore.py:65-66 | Views are dropped last first, up to the first refused drop; success exactly when none is refused |
| Restore.FixtureDropViews | test/TestRestore.py:116-131 | Views v1, v2 are dropped as v2, then v1 |
| Restore.CreateSchema | albackup/restore.py:41-50 | `createSchema` appends exactly the events of `SchemaRun`: one transaction around the view drops, `drop_all` and `create_all` |
| Restore.SchemaOrder | albackup/restore.py:41-50 | When all is accepted: `Begin`, every view drop, drop all, create all, `Commit` |
| Restore.ChangeRIChecks | albackup/restore.py:52-60 | `changeRIChecks` appends exactly the events of `RiRun` |
| Restore.RiChecksStatement | albackup/restore.py:54-60 | The two RI statements differ; one accepted RI switch is `Begin`, the statement, `Commit`; a refused statement raises its refusal (restore.py:124-126, 141-143) |
| Restore.BlockRunAccepted | albackup/restore.py:85-93 | When all is accepted, a block is one insert inside its own transaction in the package, and a bare insert in the script |
| Restore.LoopLine | albackup/restore.py:78-79 | The read loop stops at end of file or at `EOF`, and otherwise reads a frame from a shorter rest |
| Restore.LoopFrame | albackup/restore.py:80-95 | A length line `int()` rejects raises; a block the deserialiser rejects raises; otherwise the block is inserted and the loop goes on |
| Restore.BlockRuns | albackup/restore.py:77-95 | One insert unit per block, in file order |
| Restore.InsertLoopDecodes | albackup/restore.py:77-95 | The insert loop is the inserts of the decoded blocks followed by the decoding failure |
| Restore.ReadsWhatWasWritten | albackup/restore.py:77-95 | Reading back a file the dump wrote inserts exactly the written blocks |
| Restore.BlockEventsAccepted | albackup/restore.py:77-95 | When all is accepted, the loop logs exactly `BlockEvents` |
| Restore.InsertBlocksSpec | albackup/restore.py:77-95 | Inserting blocks succeeds exactly when every block does; a failure comes from the first failing block; accepted in full, the log is `BlockEvents` |
| Restore.InsertBlock | albackup/restore.py:85-93 | Inserting one block appends exactly the events of `BlockRun` |
| Restore.ImportBlocks | albackup/restore.py:77-95 | The block-reading loop appends exactly the events of `InsertLoop` over the file's content |
| Restore.ImportTable | albackup/restore.py:73-95 | One table's import appends exactly the events of its `TableImportRun`: a missing file raises; in the script one transaction surrounds the table (restore.py:20-38) |
| Restore.TableRuns | albackup/restore.py:72-95 | One import unit per table, in catalog order |
| Restore.ImportTables | albackup/restore.py:69-95 | `import_tables` appends exactly the events of `ImportTablesRun` |
| Restore.BackupThenRestore | albackup/restore.py:69-95 | After a successful backup, importing a table inserts exactly the blocks its select returned, and together they are its rows |
| Restore.ScriptTableTransaction | restore.py:24-38 | In the script, all of a table's inserts share one transaction: `Begin`, the inserts, `Commit` |
| Restore.ObjectBody | albackup/restore.py:131-135 | An object's body is its drop statement when there is a template, then its definition |
| Restore.ImportOne | albackup/restore.py:129-135 | Re-creating one object appends exactly the events of `ObjectRun` |
| Restore.ImportObject | albackup/restore.py:125-135 | `_import_object` appends exactly the events of `ImportObjectRun` |
| Restore.ObjectEventsAccepted | albackup/restore.py:128-135 | When all is accepted, each object succeeds and the loop logs `ObjectEvents` |
| Restore.ObjectRunAccepted | albackup/restore.py:130-135 | When all is accepted, an object is `Begin`, its drop when there is a template, its definition, `Commit` |
| Restore.ImportObjectSpec | albackup/restore.py:125-135 | Re-creating objects succeeds exactly when each does; accepted in full, the log is `ObjectEvents`; a failure is the first failing object's |
| Restore.ImportObjectAccepted | albackup/restore.py:125-135 | When all is accepted, the loop succeeds and logs `ObjectEvents` |
| Restore.FixtureImportObject | test/TestRestore.py:338-354 | Two objects with a test template: each is drop, then create, inside its own transaction |
| Restore.ImportObjects | albackup/restore.py:97-121 | `import_objects` appends exactly the events of `ObjectsRun` |
| Restore.ObjectsOrder | albackup/restore.py:99-121 | When all is accepted: views without a drop, then procedures, functions and triggers, each with its drop template |
| Restore.ScriptRestore | restore.py:104-143 | The script's restore fixes the text columns, then appends exactly the events of `ScriptRestoreRun` |
| Restore.ScriptData | restore.py:117-130 | The script's first phases append exactly the events of `ScriptDataRun` |
| Restore.ScriptObjects | restore.py:132-143 | The script's last phases append exactly the events of `ScriptObjectsRun` |
| Restore.DropAndCreate | restore.py:118-120 | `drop_all` then `create_all`, outside any transaction |
| Restore.ScriptDataOrder | restore.py:117-130 | When all is accepted: drop all, create all, RI off inside a transaction, then the table imports |
| Restore.ScriptObjectsOrder | restore.py:132-143 | When all is accepted: views, procedures, functions, triggers, each with the script's drop template, then RI on inside a transaction |
| Restore.ScriptPhaseOrder | restore.py:117-143 | When all is accepted, the script's events are the data phases followed by the object phases |

## Left out

- `Restore.__init__` loads `_metadata.pickle` (albackup/restore.py:16-22). pickle of the whole info dictionary is not modelled, so the restore operations take the catalog and object lists as parameters.
- `finsih_backup` (albackup/dump.py:313-319) and the scripts' `_metadata.pickle` writing: pickling the info dictionary and the clock are not modelled.
- `get_meta_data` (albackup/dump.py:46-66): catalog reflection through SQLAlchemy and the pickle cache are outside the model. Only the cache path (`Dump.MetaCachePath`) is modelled.
- `Dump.run` (albackup/dump.py:35-44) and the scripts' module-level code (dump.py:143-196, restore.py:86-143): connecting, logging set-up and hard-coded credentials are left out. The restore script's phase order is modelled (`Restore.ScriptRestore`).
- `Password.change` (albackup/__init__.py:157-192): interactive terminal I/O and writing the JSON configuration are not modelled. `_encrypt`, `_decrypt` and `_check` are modelled.
- Blowfish, base64 and `Random`: the cipher and the encoding are opaque function pairs. The IV is a parameter.
- Timestamps (`datetime.now`, `utcnow`): the clock is outside the model; stamps are parameters.
- Logging: the `logger.*` calls, including the rows dumped on a failed insert (albackup/restore.py:89-92), have no effect in the model.
- `crappy_backslash` (albackup/restore.py:127): it is compiled but never used.
- The dump-side catalog queries of `fix_indexes_with_included_columns`, `fix_primary_key_order` and `_get_object_dependencies` are modelled by their answers. Their SQL text and connection events (albackup/dump.py:102-156, 184-187, 215-220; the per-view transaction at dump.py:81-87) are not modelled.
- Normalize.FixIndexesWithIncludedColumns: it uses the corrected by-name key-column filter, not the row comparison written at albackup/dump.py:159 (see Findings).
- Normalize.FixIndexesWithIncludedColumns: the object-id lookup `fetchone()[0]` and the two index queries are given answers that cannot fail. The source raises on a missing table or index row, and the model does not.
- SQLAlchemy's `drop_all`, `create_all`, `table.insert()` and `table.select()` are opaque statements that carry the data they are built from.
- Restore.Format: models only the `%s` and `%%` conversions, which are all the templates use.
- Python dictionaries and sets of tables and indexes are sequences. The model fixes one iteration order; the source's order is arbitrary.
- Integer widths: lengths and row counts are unbounded. Only `struct.pack('i')` is bounded to 32 bits, because only there does the source fail on large values.
- Common.Lower: only the ASCII letters A-Z are folded. The source calls Python's `unicode.lower()` on dependency and seed names (albackup/dump.py:239, 244-246), which folds every cased letter. For example, a reference `Ärger` to a table `ärger` is placed by the source, but the model's ordering fails on it.
- Views.Key, Views.Fold and Views.Seed: they inherit the ASCII-only folding of `Common.Lower`. Ordering is generic in the key function, so its lemmas hold for any folding.
- Scope.Connection.Begin, Scope.Connection.Rollback and Scope.ResultSet.Close: these always succeed in the model; only statements and commits can be refused. In the source, a raising `rollback()` (albackup/__init__.py:49) would replace the body's exception, and a raising `begin()` (:43) or `close()` (:62) would abort the scope. `Scope.TransactionRollback`'s re-raise of the body's failure holds under this assumption.
- Codec.OutFile.Write: writing the dump's data files (albackup/dump.py:79-93) always succeeds; full disks and I/O errors are outside the model.
- Catalog.FirstColumn: the model also fails when a first column is not text. The source's `[r[0] for r in rows]` (albackup/dump.py:205) fails only on a row without columns and would go on to `sp_helptext 'None'` for a NULL name. `sysobjects.name` is never NULL, so this case does not arise; the requirement is right for the fragments joined at albackup/dump.py:211.
- `albackup/compare.py`, `albackup/__main__.py` and `test_all.py` are not part of this model.

## Notes

- `albackup/restore.py:114` checks `type='%s'` where `name='%s'` is evidently meant: the trigger drop test is `type='TR' and type='<name>'`, which is never true. The model uses the template as written, so triggers are not dropped before they are re-created (`Restore.TRIGGER_DROP`). restore.py:81 has the same template.
- The unit test of `import_objects` (test/TestRestore.py:319-336) expects procedures, functions, views, triggers in that order and a trigger template with `name='%s'`. The model follows the code: views, procedures, functions, triggers (albackup/restore.py:99-121).
- The restore tests for large column types and connection recycling (`test/TestRestore.py:42-64, 148-317`) exercise methods the restore does not define. They are not modelled.
- The dump tests call `_order_view_by_dependencies` (test/TestDump.py:346-381), which the code does not define: ordering is inline in `get_views`. The fixtures are stated about `Views.Order`, the model of that inline loop.
- `albackup/__init__.py:200` is indented with a tab and four spaces, which Python 2 reads as column 12. The docstring above it is at column 16 and the `def password` body at column 8, so compiling the module raises `IndentationError`, and neither `albackup.dump` nor `albackup.restore` can be imported as written. The model reads `password` as if line 200 were indented like the docstring above it.
- The script does not roll back: an object that fails to re-create leaves its transaction open (restore.py:44-52, `Restore.ManualTransactionNeverRollsBack`).

## Findings

| source | as written | input that shows it | evidently intended | confidence | as-written member | corrected member |
|---|---|---|---|---|---|---|
| albackup/dump.py:159 | `filter(lambda x: x.name not in included_columns, ix.columns)` compares a column name with the fetched result rows, so no column is ever filtered out | an index over c1, c2, c3 with c2 included: the key columns stay c1, c2, c3 and c2 appears both as key and as included column | key columns are the index columns whose names are not among the included column names: c1, c3 | not executed | Normalize.IncludedColumnFilterFinding | Normalize.KeyColumnsExclude |
