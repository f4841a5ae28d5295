/** The dump side: where a backup goes, how each table's rows reach its file, and how
    the stored definitions of views, procedures, functions and triggers are collected.
    The script variant (`dump.py`) shares the file format and the collection loop; it
    fetches smaller blocks and opens no transactions. */
module Dump {
  import opened Common
  import opened Catalog
  import opened Scope
  import opened Codec

  /** Rows per `fetchmany` call. */
  function BlockSize(v: Variant): (n: nat)
    ensures n > 0
    ensures v == Package ==> n == 500
    ensures v == Script ==> n == 100
  {
    match v
    case Package => 500
    case Script => 100
  }

  // ---------------------------------------------------------------------------
  // File and directory names

  predicate IsAbsolute(p: string) { |p| > 0 && p[0] == '/' }

  /** `os.path.join(a, b)` on POSIX: an absolute `b` replaces `a`; otherwise `b` follows
      `a`, with one `/` between them unless `a` is empty or already ends with one. */
  function PathJoin(a: string, b: string): (r: string)
    ensures IsAbsolute(b) ==> r == b
    ensures |r| >= |b|
    ensures !IsAbsolute(b) ==> |r| >= |a| + |b| && r[..|a|] == a && r[|r| - |b|..] == b
    ensures !IsAbsolute(b) ==> (|r| == |a| + |b| + 1 <==> a != [] && a[|a| - 1] != '/')
    ensures !IsAbsolute(b) && |r| == |a| + |b| + 1 ==> r[|a|] == '/'
    ensures |r| <= |a| + |b| + 1
  {
    if IsAbsolute(b) then b
    else if a == [] || a[|a| - 1] == '/' then a + b
    else a + "/" + b
  }

  /** The directory one dump writes into: `<db>@<server>-<stamp>` under the given root,
      or under the current directory when no root is given.  The stamp is the start
      time in UTC formatted as `%Y%m%d-%H%M`; the clock is not modelled. */
  function BackupDir(root: string, db: string, server: string, stamp: string): (r: string)
    ensures var leaf := db + "@" + server + "-" + stamp;
      && |r| >= |leaf|
      && (!IsAbsolute(db) ==> r[|r| - |leaf|..] == leaf)
      && (!IsAbsolute(db) && root == [] ==> r == "./" + leaf)
      && (!IsAbsolute(db) && root != [] && root[|root| - 1] != '/' ==> r == root + "/" + leaf)
  {
    var leaf := db + "@" + server + "-" + stamp;
    assert db == [] ==> leaf[0] == '@';
    assert db != [] ==> leaf[0] == db[0];
    PathJoin(if root == [] then "." else root, leaf)
  }

  /** Where the reflected catalog is cached: `<db>@<server>.pickle` in the cache
      directory, and nowhere when no cache directory is configured. */
  function MetaCachePath(cacheDir: string, db: string, server: string): (r: Option<string>)
    ensures r.None? <==> cacheDir == []
    ensures r.Some? && !IsAbsolute(db) ==>
      var leaf := db + "@" + server + ".pickle";
      |r.value| >= |cacheDir| + |leaf| && r.value[..|cacheDir|] == cacheDir && r.value[|r.value| - |leaf|..] == leaf
  {
    if cacheDir == [] then None
    else
      var leaf := db + "@" + server + ".pickle";
      assert db == [] ==> leaf[0] == '@';
      assert db != [] ==> leaf[0] == db[0];
      Some(PathJoin(cacheDir, leaf))
  }

  /** The data file of a table: `<table>.pickle` in the backup directory. */
  function TableFile(dir: string, table: string): string
  {
    PathJoin(dir, table + ".pickle")
  }

  /** Distinct (relative) table names get distinct data files. */
  lemma TableFileInjective(dir: string, a: string, b: string)
    requires !IsAbsolute(a) && !IsAbsolute(b)
    requires TableFile(dir, a) == TableFile(dir, b)
    ensures a == b
  {
    var a', b' := a + ".pickle", b + ".pickle";
    assert a == [] ==> a'[0] == '.';
    assert a != [] ==> a'[0] == a[0];
    assert b == [] ==> b'[0] == '.';
    assert b != [] ==> b'[0] == b[0];
    var r := TableFile(dir, a);
    var k := |r| - |a'|;
    assert k == |r| - |b'|;
    assert a' == r[k..] == b';
    assert a == a'[..|a|] && b == b'[..|b|];
  }

  // ---------------------------------------------------------------------------
  // Backing up the tables

  /** The select of one table and, when it is accepted, the close of its result. */
  function SelectRun(refuses: Event -> bool, name: string): Run
  {
    var s := SelectAll(name);
    if refuses(Exec(s)) then Run([Exec(s)], Some(Refused(Exec(s)))) else Run([Exec(s), Close(s)], None)
  }

  /** What backing up one table asks of the connection: inside a transaction in the
      package, bare in the script. */
  function TableBackupRun(refuses: Event -> bool, v: Variant, name: string): Run
  {
    if v == Package then Transaction(refuses, SelectRun(refuses, name)) else SelectRun(refuses, name)
  }

  /** The content of a table's data file, for the rows its select returns. */
  function TableData(ser: Serializer, rows: seq<Row>, v: Variant): seq<byte>
  {
    Encode(ser, Chunks(rows, BlockSize(v)))
  }

  /** What backing up the tables in catalog order asks of the connection; the first
      exception ends the backup. */
  function BackupRun(refuses: Event -> bool, v: Variant, tables: seq<Table>): Run
    decreases |tables|
  {
    if tables == [] then Done
    else Then(BackupRun(refuses, v, tables[..|tables| - 1]), TableBackupRun(refuses, v, tables[|tables| - 1].name))
  }

  /** The backup directory after backing up the tables: a data file is written as soon
      as the table's select is accepted. */
  function BackupFiles(refuses: Event -> bool, answer: Stmt -> seq<Row>, ser: Serializer, root: string,
                       v: Variant, tables: seq<Table>, files: map<string, seq<byte>>): map<string, seq<byte>>
    decreases |tables|
  {
    if tables == [] then files
    else
      var prev := BackupFiles(refuses, answer, ser, root, v, tables[..|tables| - 1], files);
      var name := tables[|tables| - 1].name;
      if BackupRun(refuses, v, tables[..|tables| - 1]).Ok() && !refuses(Exec(SelectAll(name))) then
        prev[TableFile(root, name) := TableData(ser, answer(SelectAll(name)), v)]
      else prev
  }

  /** Backing up one more table extends the log by that table's events and writes
      its data file once its select is accepted. */
  lemma BackupStep(refuses: Event -> bool, answer: Stmt -> seq<Row>, ser: Serializer, root: string,
                   v: Variant, tables: seq<Table>, files: map<string, seq<byte>>, i: nat, log0: seq<Event>)
    requires i < |tables|
    requires BackupRun(refuses, v, tables[..i]).Ok()
    ensures var step := TableBackupRun(refuses, v, tables[i].name);
      && log0 + BackupRun(refuses, v, tables[..i]).events + step.events == log0 + BackupRun(refuses, v, tables[..i + 1]).events
      && BackupRun(refuses, v, tables[..i + 1]).failure == step.failure
    ensures var name := tables[i].name;
      BackupFiles(refuses, answer, ser, root, v, tables[..i + 1], files)
        == if refuses(Exec(SelectAll(name))) then BackupFiles(refuses, answer, ser, root, v, tables[..i], files)
           else BackupFiles(refuses, answer, ser, root, v, tables[..i], files)[TableFile(root, name) := TableData(ser, answer(SelectAll(name)), v)]
  {
    assert tables[..i + 1][..i] == tables[..i];
    var prev := BackupRun(refuses, v, tables[..i]).events;
    var step := TableBackupRun(refuses, v, tables[i].name).events;
    assert log0 + prev + step == log0 + (prev + step);
  }

  /** Once a prefix of the tables fails, the tables after it change nothing. */
  lemma {:induction false} BackupFailureSticks(refuses: Event -> bool, answer: Stmt -> seq<Row>, ser: Serializer,
                                               root: string, v: Variant, tables: seq<Table>,
                                               files: map<string, seq<byte>>, k: nat)
    requires k <= |tables|
    requires !BackupRun(refuses, v, tables[..k]).Ok()
    ensures BackupRun(refuses, v, tables) == BackupRun(refuses, v, tables[..k])
    ensures BackupFiles(refuses, answer, ser, root, v, tables, files) == BackupFiles(refuses, answer, ser, root, v, tables[..k], files)
    decreases |tables| - k
  {
    if k < |tables| {
      var n := |tables|;
      assert tables[..n - 1][..k] == tables[..k];
      BackupFailureSticks(refuses, answer, ser, root, v, tables[..n - 1], files, k);
    } else {
      assert tables[..k] == tables;
    }
  }

  /** What one table adds to the log when every action is accepted. */
  function TableEvents(v: Variant, name: string): seq<Event>
  {
    var s := SelectAll(name);
    if v == Package then [Begin, Exec(s), Close(s), Commit] else [Exec(s), Close(s)]
  }

  function AllTableEvents(v: Variant, tables: seq<Table>): seq<Event>
    decreases |tables|
  {
    if tables == [] then [] else AllTableEvents(v, tables[..|tables| - 1]) + TableEvents(v, tables[|tables| - 1].name)
  }

  lemma TableBackupSucceeds(refuses: Event -> bool, v: Variant, name: string)
    ensures var r := TableBackupRun(refuses, v, name);
      && (r.Ok() <==> !refuses(Exec(SelectAll(name))) && (v == Package ==> !refuses(Commit)))
      && (r.Ok() ==> r.events == TableEvents(v, name))
  {
    var s := SelectAll(name);
    assert [Begin] + [Exec(s), Close(s)] + [Commit] == [Begin, Exec(s), Close(s), Commit];
  }

  /** The backup succeeds exactly when every select is accepted (and every commit, in
      the package); it then selects each table once, in order, closing each result
      (and, in the package, wrapping each table in its own transaction). */
  lemma {:induction false} BackupSucceeds(refuses: Event -> bool, v: Variant, tables: seq<Table>)
    ensures var r := BackupRun(refuses, v, tables);
      && (r.Ok() <==>
            (forall i :: 0 <= i < |tables| ==> !refuses(Exec(SelectAll(tables[i].name))))
            && (v == Package && tables != [] ==> !refuses(Commit)))
      && (r.Ok() ==> r.events == AllTableEvents(v, tables))
    decreases |tables|
  {
    if tables != [] {
      var n := |tables|;
      var init := tables[..n - 1];
      BackupSucceeds(refuses, v, init);
      TableBackupSucceeds(refuses, v, tables[n - 1].name);
      assert forall i :: 0 <= i < n - 1 ==> init[i] == tables[i];
    }
  }

  /** The paths of the tables' data files are pairwise distinct. */
  predicate DistinctFiles(root: string, tables: seq<Table>)
  {
    forall i, j :: 0 <= i < j < |tables| ==> TableFile(root, tables[i].name) != TableFile(root, tables[j].name)
  }

  /** The data files of the tables. */
  function DataFiles(root: string, tables: seq<Table>): set<string>
  {
    set i | 0 <= i < |tables| :: TableFile(root, tables[i].name)
  }

  /** The directory `out` holds, for every table, its data file with the content
      `want` gives for its name; every other file of `files` is as it was, and no other
      file appears. */
  predicate Written(out: map<string, seq<byte>>, files: map<string, seq<byte>>, want: string -> seq<byte>,
                    root: string, tables: seq<Table>)
  {
    && (forall i :: 0 <= i < |tables| ==>
          TableFile(root, tables[i].name) in out && out[TableFile(root, tables[i].name)] == want(tables[i].name))
    && out.Keys == files.Keys + DataFiles(root, tables)
    && (forall p :: p in files && p !in DataFiles(root, tables) ==> out[p] == files[p])
  }

  /** After a successful backup every table has its data file, holding its rows framed
      in blocks; every other file of the directory is as it was, and no other file
      appears. */
  lemma {:induction false} BackupWritesEveryTable(refuses: Event -> bool, answer: Stmt -> seq<Row>, ser: Serializer,
                                                  root: string, v: Variant, tables: seq<Table>,
                                                  files: map<string, seq<byte>>)
    requires DistinctFiles(root, tables)
    requires BackupRun(refuses, v, tables).Ok()
    ensures var out := BackupFiles(refuses, answer, ser, root, v, tables, files);
      && (forall i :: 0 <= i < |tables| ==>
            TableFile(root, tables[i].name) in out
            && out[TableFile(root, tables[i].name)] == TableData(ser, answer(SelectAll(tables[i].name)), v))
      && out.Keys == files.Keys + DataFiles(root, tables)
      && (forall p :: p in files && p !in DataFiles(root, tables) ==> out[p] == files[p])
  {
    var want := (name: string) => TableData(ser, answer(SelectAll(name)), v);
    BackupWritten(refuses, answer, ser, root, v, tables, files, want);
    var out := BackupFiles(refuses, answer, ser, root, v, tables, files);
    assert Written(out, files, want, root, tables);
  }

  lemma {:induction false} BackupWritten(refuses: Event -> bool, answer: Stmt -> seq<Row>, ser: Serializer,
                                         root: string, v: Variant, tables: seq<Table>,
                                         files: map<string, seq<byte>>, want: string -> seq<byte>)
    requires DistinctFiles(root, tables)
    requires BackupRun(refuses, v, tables).Ok()
    requires forall name :: want(name) == TableData(ser, answer(SelectAll(name)), v)
    ensures Written(BackupFiles(refuses, answer, ser, root, v, tables, files), files, want, root, tables)
    decreases |tables|
  {
    if tables == [] {
      assert DataFiles(root, tables) == {};
    } else {
      var n := |tables|;
      var init := tables[..n - 1];
      var last := tables[n - 1].name;
      BackupFilesLast(refuses, answer, ser, root, v, tables, files);
      assert DistinctFiles(root, init) by {
        forall i, j | 0 <= i < j < n - 1 ensures TableFile(root, init[i].name) != TableFile(root, init[j].name) {
          assert init[i] == tables[i] && init[j] == tables[j];
        }
      }
      BackupWritten(refuses, answer, ser, root, v, init, files, want);
      var prev := BackupFiles(refuses, answer, ser, root, v, init, files);
      assert BackupFiles(refuses, answer, ser, root, v, tables, files) == prev[TableFile(root, last) := want(last)];
      WrittenStep(prev, files, want, root, tables);
    }
  }

  /** Writing the last table's file onto a directory that holds the others' files. */
  lemma WrittenStep(prev: map<string, seq<byte>>, files: map<string, seq<byte>>, want: string -> seq<byte>,
                    root: string, tables: seq<Table>)
    requires tables != [] && DistinctFiles(root, tables)
    requires Written(prev, files, want, root, tables[..|tables| - 1])
    ensures var last := tables[|tables| - 1].name;
      Written(prev[TableFile(root, last) := want(last)], files, want, root, tables)
  {
    var n := |tables|;
    var init := tables[..n - 1];
    var last := tables[n - 1].name;
    var path := TableFile(root, last);
    var out := prev[path := want(last)];
    DataFilesLast(root, tables);
    forall i | 0 <= i < n
      ensures TableFile(root, tables[i].name) in out && out[TableFile(root, tables[i].name)] == want(tables[i].name)
    {
      if i < n - 1 {
        assert init[i] == tables[i];
        assert TableFile(root, tables[i].name) != path;
      }
    }
    WriteKeepsOthers(files, prev, path, want(last), DataFiles(root, init));
  }

  /** Writing one more file adds its path and leaves every file it does not name. */
  lemma WriteKeepsOthers(files: map<string, seq<byte>>, prev: map<string, seq<byte>>, path: string, data: seq<byte>,
                         written: set<string>)
    requires prev.Keys == files.Keys + written
    requires forall p :: p in files && p !in written ==> prev[p] == files[p]
    ensures prev[path := data].Keys == files.Keys + (written + {path})
    ensures forall p :: p in files && p !in written + {path} ==> prev[path := data][p] == files[p]
  {
  }

  lemma BackupFilesLast(refuses: Event -> bool, answer: Stmt -> seq<Row>, ser: Serializer,
                        root: string, v: Variant, tables: seq<Table>, files: map<string, seq<byte>>)
    requires tables != []
    requires BackupRun(refuses, v, tables).Ok()
    ensures var init := tables[..|tables| - 1]; var last := tables[|tables| - 1].name;
      && BackupRun(refuses, v, init).Ok()
      && BackupFiles(refuses, answer, ser, root, v, tables, files)
         == BackupFiles(refuses, answer, ser, root, v, init, files)[TableFile(root, last) := TableData(ser, answer(SelectAll(last)), v)]
  {
    var last := tables[|tables| - 1].name;
    TableBackupSucceeds(refuses, v, last);
  }

  lemma DataFilesLast(root: string, tables: seq<Table>)
    requires tables != []
    ensures DataFiles(root, tables) == DataFiles(root, tables[..|tables| - 1]) + {TableFile(root, tables[|tables| - 1].name)}
  {
    var n := |tables|;
    var init := tables[..n - 1];
    forall q | q in DataFiles(root, tables) ensures q in DataFiles(root, init) + {TableFile(root, tables[n - 1].name)} {
      var i :| 0 <= i < n && q == TableFile(root, tables[i].name);
      if i < n - 1 {
        assert q == TableFile(root, init[i].name);
      }
    }
    forall q | q in DataFiles(root, init) ensures q in DataFiles(root, tables) {
      var i :| 0 <= i < n - 1 && q == TableFile(root, init[i].name);
      assert q == TableFile(root, tables[i].name);
    }
  }

  /** The fetch-and-write loop of one table: blocks of `n` rows, each written as its
      serialised length, a newline and the serialised bytes, until a fetch comes back
      empty; then the sentinel. */
  method WriteBlocks(res: ResultSet, fh: OutFile, ser: Serializer, n: nat)
    requires n > 0
    modifies res, fh
    ensures fh.content == old(fh.content) + Encode(ser, Chunks(old(res.pending), n))
    ensures res.pending == []
  {
    ghost var start := fh.content;
    ghost var all := res.pending;
    ghost var done: seq<Block> := [];
    FetchSplitsChunks(all, n);
    var rows := res.FetchMany(n);
    while |rows| > 0
      invariant rows == [] ==> res.pending == []
      invariant done + Todo(rows, res.pending, n) == Chunks(all, n)
      invariant fh.content == start + Frames(ser, done)
      decreases |rows| + |res.pending|
    {
      ghost var c := fh.content;
      fh.Write(LengthLine(|ser.dump(rows)|));
      fh.Write(ser.dump(rows));
      WroteFrame(ser, start, done, c, rows);
      AdvanceTodo(all, done, rows, res.pending, n);
      done := done + [rows];
      rows := res.FetchMany(n);
    }
    ghost var c := fh.content;
    fh.Write(EOF_MARK);
    WroteEof(ser, start, done, c, all, n);
  }

  /** The blocks still to be written: the last fetch, then what later fetches return. */
  function Todo(rows: seq<Row>, pending: seq<Row>, n: nat): seq<Block>
    requires n > 0
  {
    if rows == [] then [] else [rows] + Chunks(pending, n)
  }

  /** What one `fetchmany(n)` returns, followed by the blocks of what is left, are the
      blocks of what was pending. */
  lemma FetchSplitsChunks(p: seq<Row>, n: nat)
    requires n > 0
    ensures var k := Min(n, |p|);
      && (p[..k] == [] ==> p[k..] == [])
      && Todo(p[..k], p[k..], n) == Chunks(p, n)
  {
    var k := Min(n, |p|);
    assert p[..k] + p[k..] == p;
  }

  lemma AdvanceTodo(all: seq<Row>, done: seq<Block>, rows: seq<Row>, p: seq<Row>, n: nat)
    requires n > 0 && rows != []
    requires done + Todo(rows, p, n) == Chunks(all, n)
    ensures var k := Min(n, |p|);
      && (p[..k] == [] ==> p[k..] == [])
      && (done + [rows]) + Todo(p[..k], p[k..], n) == Chunks(all, n)
  {
    FetchSplitsChunks(p, n);
    assert (done + [rows]) + Chunks(p, n) == done + ([rows] + Chunks(p, n));
  }

  lemma WroteFrame(ser: Serializer, start: seq<byte>, done: seq<Block>, c: seq<byte>, b: Block)
    requires c == start + Frames(ser, done)
    ensures c + LengthLine(|ser.dump(b)|) + ser.dump(b) == start + Frames(ser, done + [b])
  {
    FramesAppend(ser, done, b);
  }

  lemma WroteEof(ser: Serializer, start: seq<byte>, done: seq<Block>, c: seq<byte>, all: seq<Row>, n: nat)
    requires n > 0
    requires c == start + Frames(ser, done)
    requires done + [] == Chunks(all, n)
    ensures c + EOF_MARK == start + Encode(ser, Chunks(all, n))
  {
    assert done == Chunks(all, n);
  }

  lemma {:induction false} FramesAppend(ser: Serializer, done: seq<Block>, b: Block)
    ensures Frames(ser, done + [b]) == Frames(ser, done) + Frame(ser, b)
  {
    if done == [] {
      assert done + [b] == [b];
      assert [b][1..] == [];
    } else {
      assert (done + [b])[1..] == done[1..] + [b];
      FramesAppend(ser, done[1..], b);
    }
  }

  lemma FramesCons(ser: Serializer, b: Block, rest: seq<Block>)
    ensures Frames(ser, [b] + rest) == Frame(ser, b) + Frames(ser, rest)
  {
    assert ([b] + rest)[1..] == rest;
  }

  /** Backing up one table. */
  method BackupTable(con: Connection, dir: Directory, ser: Serializer, root: string, v: Variant, name: string)
    returns (failure: Option<Failure>)
    modifies con, dir
    ensures con.log == old(con.log) + TableBackupRun(con.refuses, v, name).events
    ensures failure == TableBackupRun(con.refuses, v, name).failure
    ensures dir.files == if con.refuses(Exec(SelectAll(name))) then old(dir.files)
                         else old(dir.files)[TableFile(root, name) := TableData(ser, con.answer(SelectAll(name)), v)]
  {
    var path := TableFile(root, name);
    if v == Package {
      TransactionEnter(con);
    }
    var ok, res := con.Execute(SelectAll(name));
    if !ok {
      failure := Some(Refused(Exec(SelectAll(name))));
      if v == Package {
        failure := TransactionExit(con, failure);
      }
      return;
    }
    var fh := new OutFile();
    WriteBlocks(res, fh, ser, BlockSize(v));
    assert fh.content == TableData(ser, con.answer(SelectAll(name)), v) by {
      assert [] + TableData(ser, con.answer(SelectAll(name)), v) == TableData(ser, con.answer(SelectAll(name)), v);
    }
    dir.files := dir.files[path := fh.content];
    res.Close();
    failure := None;
    if v == Package {
      failure := TransactionExit(con, None);
    }
  }

  /** `backup_tables`: every table of the catalog, in catalog order, stopping at the
      first exception. */
  method BackupTables(con: Connection, dir: Directory, meta: MetaData, ser: Serializer, root: string, v: Variant)
    returns (failure: Option<Failure>)
    modifies con, dir
    ensures con.log == old(con.log) + BackupRun(con.refuses, v, meta.tables).events
    ensures failure == BackupRun(con.refuses, v, meta.tables).failure
    ensures dir.files == BackupFiles(con.refuses, con.answer, ser, root, v, meta.tables, old(dir.files))
  {
    var tables := meta.tables;
    ghost var files0 := dir.files;
    var i := 0;
    while i < |tables|
      invariant i <= |tables|
      invariant BackupRun(con.refuses, v, tables[..i]).Ok()
      invariant con.log == old(con.log) + BackupRun(con.refuses, v, tables[..i]).events
      invariant dir.files == BackupFiles(con.refuses, con.answer, ser, root, v, tables[..i], files0)
    {
      BackupStep(con.refuses, con.answer, ser, root, v, tables, files0, i, old(con.log));
      failure := BackupTable(con, dir, ser, root, v, tables[i].name);
      if failure.Some? {
        BackupFailureSticks(con.refuses, con.answer, ser, root, v, tables, files0, i + 1);
        return;
      }
      i := i + 1;
    }
    assert tables[..i] == tables;
    failure := None;
  }

  // ---------------------------------------------------------------------------
  // Collecting stored definitions: list the names, then for each name join the text
  // fragments `sp_helptext` returns.

  function HelpText(name: string): Stmt
  {
    Sql("exec sp_helptext '" + name + "'")
  }

  datatype Collected = Collected(run: Run, defs: seq<ObjectDef>)

  /** The failure a fetched result raises when its first column is not all text. */
  function RowsFailure(rows: seq<Row>): Option<Failure>
  {
    if FirstColumn(rows).None? then Some(BadValue) else None
  }

  /** One definition, fetched inside `execute_resultset`. */
  function FetchDefinition(refuses: Event -> bool, answer: Stmt -> seq<Row>, name: string): Collected
  {
    var s := HelpText(name);
    var run := ResultScope(refuses, s, Run([], RowsFailure(answer(s))));
    if run.Ok() then Collected(run, [ObjectDef(name, Concat(FirstColumn(answer(s)).value), None)])
    else Collected(run, [])
  }

  function FetchDefinitions(refuses: Event -> bool, answer: Stmt -> seq<Row>, names: seq<string>): Collected
    decreases |names|
  {
    if names == [] then Collected(Done, [])
    else
      var prev := FetchDefinitions(refuses, answer, names[..|names| - 1]);
      if !prev.run.Ok() then prev
      else
        var c := FetchDefinition(refuses, answer, names[|names| - 1]);
        Collected(Then(prev.run, c.run), prev.defs + c.defs)
  }

  /** `_get_object_definitions(sql)`: the listing, then one fetch per listed name; in
      the package all of it inside one transaction. */
  function ObjectDefinitions(refuses: Event -> bool, answer: Stmt -> seq<Row>, v: Variant, sql: string): Collected
  {
    var body := ListedDefinitions(refuses, answer, sql);
    if v == Package then Collected(Transaction(refuses, body.run), body.defs) else body
  }

  /** The listing followed by the fetches, without the package's transaction. */
  function ListedDefinitions(refuses: Event -> bool, answer: Stmt -> seq<Row>, sql: string): Collected
  {
    var s := Sql(sql);
    var listing := ResultScope(refuses, s, Run([], RowsFailure(answer(s))));
    if listing.Ok() then
      var f := FetchDefinitions(refuses, answer, FirstColumn(answer(s)).value);
      Collected(Then(listing, f.run), f.defs)
    else Collected(listing, [])
  }

  lemma {:induction false} FetchFailureSticks(refuses: Event -> bool, answer: Stmt -> seq<Row>, names: seq<string>, k: nat)
    requires k <= |names|
    requires !FetchDefinitions(refuses, answer, names[..k]).run.Ok()
    ensures FetchDefinitions(refuses, answer, names) == FetchDefinitions(refuses, answer, names[..k])
    decreases |names| - k
  {
    if k < |names| {
      var n := |names|;
      assert names[..n - 1][..k] == names[..k];
      FetchFailureSticks(refuses, answer, names[..n - 1], k);
    } else {
      assert names[..k] == names;
    }
  }

  /** A fetch succeeds exactly when every `sp_helptext` call is accepted and returns
      text; each definition is then named after its object, is the concatenation of its
      fragments in order, and has no dependencies. */
  lemma {:induction false} FetchedDefinitions(refuses: Event -> bool, answer: Stmt -> seq<Row>, names: seq<string>)
    ensures var f := FetchDefinitions(refuses, answer, names);
      && (f.run.Ok() <==> forall i :: 0 <= i < |names| ==>
            !refuses(Exec(HelpText(names[i]))) && FirstColumn(answer(HelpText(names[i]))).Some?)
      && (f.run.Ok() ==> |f.defs| == |names| && forall i :: 0 <= i < |names| ==>
            f.defs[i] == ObjectDef(names[i], Concat(FirstColumn(answer(HelpText(names[i]))).value), None))
    decreases |names|
  {
    if names != [] {
      var n := |names|;
      FetchedDefinitions(refuses, answer, names[..n - 1]);
      assert forall i :: 0 <= i < n - 1 ==> names[..n - 1][i] == names[i];
    }
  }

  /** The whole collection succeeds exactly when the listing and every fetch succeed
      (and, in the package, the commit); the definitions then follow the listed names. */
  lemma ObjectDefinitionsContent(refuses: Event -> bool, answer: Stmt -> seq<Row>, v: Variant, sql: string)
    ensures var c := ObjectDefinitions(refuses, answer, v, sql);
      var names := FirstColumn(answer(Sql(sql)));
      && (c.run.Ok() ==>
            && !refuses(Exec(Sql(sql))) && names.Some?
            && (v == Package ==> !refuses(Commit))
            && ObjectNames(c.defs) == names.value
            && forall i :: 0 <= i < |c.defs| ==>
                 FirstColumn(answer(HelpText(names.value[i]))).Some? &&
                 c.defs[i].definition == Concat(FirstColumn(answer(HelpText(names.value[i]))).value)
                 && c.defs[i].dependencies == None)
      && (!refuses(Exec(Sql(sql))) && names.Some? && (v == Package ==> !refuses(Commit))
          && (forall i :: 0 <= i < |names.value| ==>
                !refuses(Exec(HelpText(names.value[i]))) && FirstColumn(answer(HelpText(names.value[i]))).Some?)
          ==> c.run.Ok())
  {
    var s := Sql(sql);
    var names := FirstColumn(answer(s));
    if !refuses(Exec(s)) && names.Some? {
      FetchedDefinitions(refuses, answer, names.value);
    }
  }

  /** Fetching one definition inside `execute_resultset`. */
  method FetchOne(con: Connection, name: string) returns (failure: Option<Failure>, def: seq<ObjectDef>)
    modifies con
    ensures var c := FetchDefinition(con.refuses, con.answer, name);
      con.log == old(con.log) + c.run.events && failure == c.run.failure && def == c.defs
  {
    var s := HelpText(name);
    var ok, res := ResultsetEnter(con, s);
    if !ok {
      return Some(Refused(Exec(s))), [];
    }
    var rows := res.FetchAll();
    var parts := FirstColumn(rows);
    if parts.None? {
      ResultsetExit(res, Some(BadValue));
      return Some(BadValue), [];
    }
    ResultsetExit(res, None);
    failure, def := None, [ObjectDef(name, Concat(parts.value), None)];
  }

  lemma FetchStep(refuses: Event -> bool, answer: Stmt -> seq<Row>, names: seq<string>, i: nat, log0: seq<Event>)
    requires i < |names|
    requires FetchDefinitions(refuses, answer, names[..i]).run.Ok()
    ensures var prev := FetchDefinitions(refuses, answer, names[..i]);
      var c := FetchDefinition(refuses, answer, names[i]);
      var next := FetchDefinitions(refuses, answer, names[..i + 1]);
      && log0 + prev.run.events + c.run.events == log0 + next.run.events
      && next.run.failure == c.run.failure
      && next.defs == prev.defs + c.defs
  {
    assert names[..i + 1][..i] == names[..i];
    var prev := FetchDefinitions(refuses, answer, names[..i]).run.events;
    var c := FetchDefinition(refuses, answer, names[i]).run.events;
    assert log0 + prev + c == log0 + (prev + c);
  }

  /** The definition fetch loop of `_get_object_definitions`, once the names are known. */
  method FetchAllDefinitions(con: Connection, names: seq<string>) returns (failure: Option<Failure>, defs: seq<ObjectDef>)
    modifies con
    ensures var f := FetchDefinitions(con.refuses, con.answer, names);
      con.log == old(con.log) + f.run.events && failure == f.run.failure && (failure.None? ==> defs == f.defs)
  {
    defs := [];
    var i := 0;
    while i < |names|
      invariant i <= |names|
      invariant FetchDefinitions(con.refuses, con.answer, names[..i]).run.Ok()
      invariant con.log == old(con.log) + FetchDefinitions(con.refuses, con.answer, names[..i]).run.events
      invariant defs == FetchDefinitions(con.refuses, con.answer, names[..i]).defs
    {
      FetchStep(con.refuses, con.answer, names, i, old(con.log));
      var def;
      failure, def := FetchOne(con, names[i]);
      if failure.Some? {
        FetchFailureSticks(con.refuses, con.answer, names, i + 1);
        return;
      }
      defs := defs + def;
      i := i + 1;
    }
    assert names[..i] == names;
    failure := None;
  }

  /** The listing inside `execute_resultset`: the names in its first column. */
  method ListNames(con: Connection, sql: string) returns (failure: Option<Failure>, names: seq<string>)
    modifies con
    ensures var s := Sql(sql);
      && con.log == old(con.log) + ResultScope(con.refuses, s, Run([], RowsFailure(con.answer(s)))).events
      && failure == ResultScope(con.refuses, s, Run([], RowsFailure(con.answer(s)))).failure
      && (failure.None? ==> FirstColumn(con.answer(s)) == Some(names))
  {
    names := [];
    var ok, res := ResultsetEnter(con, Sql(sql));
    if !ok {
      return Some(Refused(Exec(Sql(sql)))), [];
    }
    var rows := res.FetchAll();
    var col := FirstColumn(rows);
    if col.None? {
      ResultsetExit(res, Some(BadValue));
      return Some(BadValue), [];
    }
    ResultsetExit(res, None);
    failure, names := None, col.value;
  }

  /** `_get_object_definitions(sql)` in either variant. */
  method GetObjectDefinitions(con: Connection, v: Variant, sql: string) returns (failure: Option<Failure>, defs: seq<ObjectDef>)
    modifies con
    ensures var c := ObjectDefinitions(con.refuses, con.answer, v, sql);
      con.log == old(con.log) + c.run.events && failure == c.run.failure && (failure.None? ==> defs == c.defs)
  {
    if v == Package {
      TransactionEnter(con);
    }
    ghost var log1 := con.log;
    var names;
    failure, names := ListNames(con, sql);
    ghost var listed := failure;
    defs := [];
    ghost var log2 := con.log;
    if failure.None? {
      failure, defs := FetchAllDefinitions(con, names);
    }
    ListedEvents(con.refuses, con.answer, sql, log1, log2, con.log, listed, names, failure, defs);
    ghost var body := ListedDefinitions(con.refuses, con.answer, sql);
    if v == Package {
      failure := TransactionExit(con, failure);
      LogAssoc(old(con.log), [Begin], body.run.events, ExitEvents(con.refuses, body.run.failure));
    }
  }

  /** The listing then, when it succeeded, the fetches make up `ListedDefinitions`. */
  lemma ListedEvents(refuses: Event -> bool, answer: Stmt -> seq<Row>, sql: string,
                     log1: seq<Event>, log2: seq<Event>, log3: seq<Event>,
                     listed: Option<Failure>, names: seq<string>, failure: Option<Failure>, defs: seq<ObjectDef>)
    requires var r := ResultScope(refuses, Sql(sql), Run([], RowsFailure(answer(Sql(sql)))));
      log2 == log1 + r.events && listed == r.failure
    requires listed.None? ==> FirstColumn(answer(Sql(sql))) == Some(names)
    requires listed.Some? ==> log3 == log2 && failure == listed && defs == []
    requires listed.None? ==> var f := FetchDefinitions(refuses, answer, names);
      log3 == log2 + f.run.events && failure == f.run.failure && (failure.None? ==> defs == f.defs)
    ensures var b := ListedDefinitions(refuses, answer, sql);
      log3 == log1 + b.run.events && failure == b.run.failure && (failure.None? ==> defs == b.defs)
  {
    var r := ResultScope(refuses, Sql(sql), Run([], RowsFailure(answer(Sql(sql)))));
    if listed.None? {
      var f := FetchDefinitions(refuses, answer, names);
      LogAssoc(log1, r.events, f.run.events, []);
    }
  }

  lemma LogAssoc(a: seq<Event>, b: seq<Event>, c: seq<Event>, d: seq<Event>)
    ensures a + b + c + d == a + (b + c + d)
    ensures a + b + c == a + (b + c)
  {
  }

  /** The listings of views, procedures, functions and triggers. */
  const VIEWS_QUERY := "select o.name from sysobjects o where type='V';"
  const PROCEDURES_QUERY := "select routine_name from information_schema.routines where routine_schema='dbo' and routine_type='PROCEDURE'"
  const FUNCTIONS_QUERY := "select routine_name from information_schema.routines where routine_schema='dbo' and routine_type='FUNCTION'"
  const TRIGGERS_QUERY := "select o.name from sysobjects o where type='TR';"

  /** A database holding two objects whose `sp_helptext` fragments are `defintion`,
      `for` and `object<k>`. */
  function TwoObjects(s: Stmt): seq<Row>
  {
    if s == Sql("select db objects") then [[("name", TextValue("obj1"))], [("name", TextValue("obj2"))]]
    else if s == HelpText("obj1") then [[("text", TextValue("defintion"))], [("text", TextValue("for"))], [("text", TextValue("object1"))]]
    else if s == HelpText("obj2") then [[("text", TextValue("defintion"))], [("text", TextValue("for"))], [("text", TextValue("object2"))]]
    else []
  }

  lemma FirstColumnOfTexts(rows: seq<Row>, texts: seq<string>)
    requires |rows| == |texts|
    requires forall i :: 0 <= i < |rows| ==> |rows[i]| > 0 && rows[i][0].1 == TextValue(texts[i])
    ensures FirstColumn(rows) == Some(texts)
  {
    assert FirstColumn(rows).Some?;
    assert FirstColumn(rows).value == texts;
  }

  lemma TwoObjectsListing()
    ensures FirstColumn(TwoObjects(Sql("select db objects"))) == Some(["obj1", "obj2"])
    ensures FirstColumn(TwoObjects(HelpText("obj1"))) == Some(["defintion", "for", "object1"])
    ensures FirstColumn(TwoObjects(HelpText("obj2"))) == Some(["defintion", "for", "object2"])
  {
    assert HelpText("obj1").text[21] == '1' && HelpText("obj2").text[21] == '2';
    assert |HelpText("obj1").text| != |"select db objects"|;
    FirstColumnOfTexts(TwoObjects(Sql("select db objects")), ["obj1", "obj2"]);
    FirstColumnOfTexts(TwoObjects(HelpText("obj1")), ["defintion", "for", "object1"]);
    FirstColumnOfTexts(TwoObjects(HelpText("obj2")), ["defintion", "for", "object2"]);
  }

  lemma TwoObjectsDefinitions()
    ensures var c := FetchDefinition(RefusesNothing, TwoObjects, "obj1");
      c.run.Ok() && c.defs == [ObjectDef("obj1", "defintionforobject1", None)]
    ensures var c := FetchDefinition(RefusesNothing, TwoObjects, "obj2");
      c.run.Ok() && c.defs == [ObjectDef("obj2", "defintionforobject2", None)]
  {
    TwoObjectsListing();
    TwoObjectsJoined();
    FetchOfFragments(RefusesNothing, TwoObjects, "obj1", ["defintion", "for", "object1"]);
    FetchOfFragments(RefusesNothing, TwoObjects, "obj2", ["defintion", "for", "object2"]);
  }

  /** The test's fragments join to the two definitions. */
  lemma TwoObjectsJoined()
    ensures Concat(["defintion", "for", "object1"]) == "defintionforobject1"
    ensures Concat(["defintion", "for", "object2"]) == "defintionforobject2"
  {
    ConcatThree("defintion", "for", "object1");
    assert "defintion" + "for" + "object1" == "defintionforobject1";
    ConcatThree("defintion", "for", "object2");
    assert "defintion" + "for" + "object2" == "defintionforobject2";
  }

  /** With every action accepted, an object whose `sp_helptext` rows carry the given
      fragments is fetched as their concatenation. */
  lemma FetchOfFragments(refuses: Event -> bool, answer: Stmt -> seq<Row>, name: string, parts: seq<string>)
    requires !refuses(Exec(HelpText(name)))
    requires FirstColumn(answer(HelpText(name))) == Some(parts)
    ensures var c := FetchDefinition(refuses, answer, name);
      c.run.Ok() && c.defs == [ObjectDef(name, Concat(parts), None)]
  {
  }

  /** A database that accepts every action. */
  predicate RefusesNothing(e: Event) { false }

  lemma ConcatThree(a: string, b: string, c: string)
    ensures Concat([a, b, c]) == a + b + c
  {
    assert [a, b, c][1..] == [b, c] && [b, c][1..] == [c] && [c][1..] == [];
    assert Concat([c]) == c + Concat([]);
    assert Concat([b, c]) == b + c;
    assert Concat([a, b, c]) == a + (b + c);
  }

  lemma TwoObjectsFetched()
    ensures var f := FetchDefinitions(RefusesNothing, TwoObjects, ["obj1", "obj2"]);
      f.run.Ok() && f.defs == [ObjectDef("obj1", "defintionforobject1", None), ObjectDef("obj2", "defintionforobject2", None)]
  {
    TwoObjectsDefinitions();
    assert ["obj1", "obj2"][..1] == ["obj1"] && ["obj1"][..0] == [];
  }

  lemma TwoObjectsCollected()
    ensures var c := ObjectDefinitions(RefusesNothing, TwoObjects, Package, "select db objects");
      c.run.Ok() && c.defs == [ObjectDef("obj1", "defintionforobject1", None), ObjectDef("obj2", "defintionforobject2", None)]
  {
    TwoObjectsListing();
    TwoObjectsFetched();
  }
}
