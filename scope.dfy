/** The database connection as an append-only log of what was asked of it, and the two
    scopes of `albackup/__init__.py`: `transaction` (begin, then commit or roll back and
    re-raise) and `execute_resultset` (execute, then close on normal completion). */
module Scope {
  import opened Common
  import opened Catalog

  /** What is handed to `con.execute`: literal SQL text, or one of the SQLAlchemy
      constructs the code builds (kept opaque, with the data they carry). */
  datatype Stmt =
    | Sql(text: string)
    | SelectAll(table: string)
    | InsertRows(table: string, rows: Block)
    | DropAll(dropped: seq<string>)
    | CreateAll(created: seq<Table>)

  /** One entry of the connection's log. */
  datatype Event = Begin | Commit | Rollback | Exec(stmt: Stmt) | Close(result: Stmt)

  /** Why a unit of work ended abnormally: the database refused an action, or a backup
      file could not be read (no such file, a length line `int()` rejects, a block
      the deserialiser rejects), or a fetched row lacks the text value the code
      reads from its first column. */
  datatype Failure =
    | Refused(event: Event)
    | MissingFile(path: string)
    | BadLength(line: seq<byte>)
    | BadBlock
    | BadValue

  /** The events a unit of work leaves in the log and the failure it raises, if any. */
  datatype Run = Run(events: seq<Event>, failure: Option<Failure>)
  {
    predicate Ok() { failure.None? }
  }

  const Done := Run([], None)

  /** Sequential composition: the second unit runs only if the first did not raise. */
  function Then(a: Run, b: Run): (r: Run)
  {
    if a.Ok() then Run(a.events + b.events, b.failure) else a
  }

  lemma ThenAssoc(a: Run, b: Run, c: Run)
    ensures Then(Then(a, b), c) == Then(a, Then(b, c))
  {
    if a.Ok() && b.Ok() {
      assert (a.events + b.events) + c.events == a.events + (b.events + c.events);
    }
  }

  lemma ThenDone(a: Run)
    ensures Then(a, Done) == a && Then(Done, a) == a
  {
    assert a.events + [] == a.events;
  }

  function Count(e: Event, evs: seq<Event>): nat
  {
    if evs == [] then 0 else (if evs[0] == e then 1 else 0) + Count(e, evs[1..])
  }

  lemma {:induction false} CountAppend(e: Event, a: seq<Event>, b: seq<Event>)
    ensures Count(e, a + b) == Count(e, a) + Count(e, b)
  {
    if a == [] {
      assert a + b == b;
    } else {
      assert (a + b)[1..] == a[1..] + b;
      CountAppend(e, a[1..], b);
    }
  }

  lemma {:induction false} CountAbsent(e: Event, evs: seq<Event>)
    requires e !in evs
    ensures Count(e, evs) == 0
  {
    if evs != [] {
      CountAbsent(e, evs[1..]);
    }
  }

  /** No transaction-control events: what the body of a `transaction` scope emits. */
  predicate NoTxEvents(evs: seq<Event>)
  {
    Begin !in evs && Commit !in evs && Rollback !in evs
  }

  // ---------------------------------------------------------------------------
  // Executing statements one after the other: the first refused statement raises
  // and nothing after it is attempted.

  function Attempt(refuses: Event -> bool, stmts: seq<Stmt>): Run
  {
    if stmts == [] then Done
    else if refuses(Exec(stmts[0])) then Run([Exec(stmts[0])], Some(Refused(Exec(stmts[0]))))
    else Then(Run([Exec(stmts[0])], None), Attempt(refuses, stmts[1..]))
  }

  /** The statements are executed in order up to the first one the database refuses;
      the unit succeeds exactly when none is refused, and otherwise raises that refusal. */
  lemma {:induction false} AttemptStopsAtFirstRefusal(refuses: Event -> bool, stmts: seq<Stmt>)
    ensures var r := Attempt(refuses, stmts);
      && |r.events| <= |stmts|
      && (forall i :: 0 <= i < |r.events| ==> r.events[i] == Exec(stmts[i]))
      && (r.Ok() <==> forall i :: 0 <= i < |stmts| ==> !refuses(Exec(stmts[i])))
      && (r.Ok() ==> |r.events| == |stmts|)
      && (!r.Ok() ==>
            && |r.events| > 0
            && r.failure == Some(Refused(r.events[|r.events| - 1]))
            && refuses(r.events[|r.events| - 1])
            && forall i :: 0 <= i < |r.events| - 1 ==> !refuses(r.events[i]))
  {
    if stmts != [] && !refuses(Exec(stmts[0])) {
      AttemptStopsAtFirstRefusal(refuses, stmts[1..]);
      var rest := Attempt(refuses, stmts[1..]);
      assert forall i :: 1 <= i < |stmts| ==> stmts[i] == stmts[1..][i - 1];
    }
  }

  // ---------------------------------------------------------------------------
  // transaction(con): begin; body; commit -- and on any exception, including one
  // raised by the commit itself, roll back and re-raise it.

  function ExitEvents(refuses: Event -> bool, body: Option<Failure>): seq<Event>
  {
    if body.Some? then [Rollback] else if refuses(Commit) then [Commit, Rollback] else [Commit]
  }

  function ExitFailure(refuses: Event -> bool, body: Option<Failure>): Option<Failure>
  {
    if body.Some? then body else if refuses(Commit) then Some(Refused(Commit)) else None
  }

  function Transaction(refuses: Event -> bool, body: Run): Run
  {
    Run([Begin] + body.events + ExitEvents(refuses, body.failure), ExitFailure(refuses, body.failure))
  }

  /** `begin` is called exactly once, first; `commit` exactly once when the body
      completes and never when it raises. */
  lemma TransactionBeginCommit(refuses: Event -> bool, body: Run)
    requires NoTxEvents(body.events)
    ensures var t := Transaction(refuses, body);
      t.events[0] == Begin && Count(Begin, t.events) == 1 &&
      Count(Commit, t.events) == (if body.Ok() then 1 else 0)
  {
    var t := Transaction(refuses, body);
    CountAppend(Begin, [Begin] + body.events, ExitEvents(refuses, body.failure));
    CountAppend(Begin, [Begin], body.events);
    CountAppend(Commit, [Begin] + body.events, ExitEvents(refuses, body.failure));
    CountAppend(Commit, [Begin], body.events);
    CountAbsent(Begin, body.events);
    CountAbsent(Commit, body.events);
    CountExit(refuses, body.failure);
  }

  lemma CountExit(refuses: Event -> bool, body: Option<Failure>)
    ensures var x := ExitEvents(refuses, body);
      && Count(Begin, x) == 0
      && Count(Commit, x) == (if body.None? then 1 else 0)
      && Count(Rollback, x) == (if ExitFailure(refuses, body).None? then 0 else 1)
      && Count(Begin, [Begin]) == 1 && Count(Commit, [Begin]) == 0 && Count(Rollback, [Begin]) == 0
  {
    var x := ExitEvents(refuses, body);
    assert [Begin][1..] == [];
    assert [Commit][1..] == [] && [Rollback][1..] == [];
    assert [Commit, Rollback][1..] == [Rollback];
  }

  /** If the body raises, the transaction is rolled back once and the same failure is
      re-raised; a refused commit is rolled back and re-raised too; otherwise
      nothing is rolled back. */
  lemma TransactionRollback(refuses: Event -> bool, body: Run)
    requires NoTxEvents(body.events)
    ensures var t := Transaction(refuses, body);
      && (!body.Ok() ==> t.failure == body.failure)
      && (body.Ok() && refuses(Commit) ==> t.failure == Some(Refused(Commit)))
      && (t.Ok() <==> body.Ok() && !refuses(Commit))
      && Count(Rollback, t.events) == (if t.Ok() then 0 else 1)
      && (!t.Ok() ==> t.events[|t.events| - 1] == Rollback)
  {
    var t := Transaction(refuses, body);
    CountAppend(Rollback, [Begin] + body.events, ExitEvents(refuses, body.failure));
    CountAppend(Rollback, [Begin], body.events);
    CountAbsent(Rollback, body.events);
    CountExit(refuses, body.failure);
  }

  // ---------------------------------------------------------------------------
  // execute_resultset(con, sql): execute once; after the body completes normally,
  // close the result; there is no `finally`, so a raising body leaves it open.

  function ResultScope(refuses: Event -> bool, s: Stmt, body: Run): Run
  {
    if refuses(Exec(s)) then Run([Exec(s)], Some(Refused(Exec(s))))
    else if body.Ok() then Run([Exec(s)] + body.events + [Close(s)], None)
    else Run([Exec(s)] + body.events, body.failure)
  }

  /** The statement is executed first and unchanged; its result is closed exactly once
      if the body completes and never if the body raises, whose failure is passed on. */
  lemma ResultScopeCloses(refuses: Event -> bool, s: Stmt, body: Run)
    requires Close(s) !in body.events
    ensures var r := ResultScope(refuses, s, body);
      && r.events[0] == Exec(s)
      && Count(Close(s), r.events) == (if r.Ok() then 1 else 0)
      && (!refuses(Exec(s)) ==> r.failure == body.failure)
  {
    var r := ResultScope(refuses, s, body);
    CountAbsent(Close(s), body.events);
    CountAppend(Close(s), [Exec(s)], body.events);
    CountAppend(Close(s), [Exec(s)] + body.events, [Close(s)]);
  }

  // ---------------------------------------------------------------------------
  // The connection and its result sets.

  class Connection {
    /** Everything asked of the database so far, in order. */
    var log: seq<Event>
    /** The database's verdict: which actions raise. */
    const refuses: Event -> bool
    /** The rows a statement returns. */
    const answer: Stmt -> seq<Row>

    constructor (refuses: Event -> bool, answer: Stmt -> seq<Row>)
      ensures log == [] && this.refuses == refuses && this.answer == answer
    {
      log := [];
      this.refuses := refuses;
      this.answer := answer;
    }

    method Begin()
      modifies this
      ensures log == old(log) + [Event.Begin]
    {
      log := log + [Event.Begin];
    }

    method Commit() returns (ok: bool)
      modifies this
      ensures log == old(log) + [Event.Commit]
      ensures ok == !refuses(Event.Commit)
    {
      log := log + [Event.Commit];
      ok := !refuses(Event.Commit);
    }

    method Rollback()
      modifies this
      ensures log == old(log) + [Event.Rollback]
    {
      log := log + [Event.Rollback];
    }

    /** `con.execute(s)`: the result holds the statement's rows; it is only looked at
        when the statement was accepted. */
    method Execute(s: Stmt) returns (ok: bool, res: ResultSet)
      modifies this
      ensures log == old(log) + [Exec(s)]
      ensures ok == !refuses(Exec(s))
      ensures fresh(res) && res.con == this && res.stmt == s && res.pending == answer(s)
    {
      log := log + [Exec(s)];
      ok := !refuses(Exec(s));
      res := new ResultSet(this, s, answer(s));
    }
  }

  class ResultSet {
    const con: Connection
    const stmt: Stmt
    /** The rows not fetched yet. */
    var pending: seq<Row>

    constructor (con: Connection, stmt: Stmt, rows: seq<Row>)
      ensures this.con == con && this.stmt == stmt && pending == rows
    {
      this.con := con;
      this.stmt := stmt;
      pending := rows;
    }

    /** `fetchmany(n)`: the next `n` rows, or all that are left if fewer. */
    method FetchMany(n: nat) returns (rows: seq<Row>)
      modifies this
      ensures rows == old(pending)[..Min(n, |old(pending)|)]
      ensures pending == old(pending)[Min(n, |old(pending)|)..]
    {
      var k := Min(n, |pending|);
      rows := pending[..k];
      pending := pending[k..];
    }

    method FetchAll() returns (rows: seq<Row>)
      modifies this
      ensures rows == old(pending) && pending == []
    {
      rows := pending;
      pending := [];
    }

    method Close()
      modifies con
      ensures con.log == old(con.log) + [Event.Close(stmt)]
    {
      con.log := con.log + [Event.Close(stmt)];
    }
  }

  /** Entering `transaction(con)`. */
  method TransactionEnter(con: Connection)
    modifies con
    ensures con.log == old(con.log) + [Begin]
  {
    con.Begin();
  }

  /** Leaving `transaction(con)`, normally (`body == None`) or by an exception. */
  method TransactionExit(con: Connection, body: Option<Failure>) returns (failure: Option<Failure>)
    modifies con
    ensures con.log == old(con.log) + ExitEvents(con.refuses, body)
    ensures failure == ExitFailure(con.refuses, body)
  {
    if body.None? {
      var ok := con.Commit();
      if ok {
        failure := None;
        return;
      }
      failure := Some(Refused(Commit));
    } else {
      failure := body;
    }
    con.Rollback();
  }

  /** Entering `execute_resultset(con, s)`. */
  method ResultsetEnter(con: Connection, s: Stmt) returns (ok: bool, res: ResultSet)
    modifies con
    ensures con.log == old(con.log) + [Exec(s)]
    ensures ok == !con.refuses(Exec(s))
    ensures fresh(res) && res.con == con && res.stmt == s && res.pending == con.answer(s)
  {
    ok, res := con.Execute(s);
  }

  /** Leaving `execute_resultset(con, s)`: the result is closed only after a normal exit. */
  method ResultsetExit(res: ResultSet, body: Option<Failure>)
    modifies res.con
    ensures res.con.log == old(res.con.log) + (if body.None? then [Close(res.stmt)] else [])
  {
    if body.None? {
      res.Close();
    }
  }
}
