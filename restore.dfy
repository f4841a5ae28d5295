/** The restore side: the text-column fix-up of the catalog, the statements that drop
    and recreate the schema, the referential-integrity toggle, the reading loop that
    inserts each table's blocks, and the drop-then-create re-import of views,
    procedures, functions and triggers.  The script variant (`restore.py`) shares the
    reading loop and the text fix; it wraps a whole table, and each object, in a
    transaction it begins and commits by hand, never rolling back. */
module Restore {
  import opened Common
  import opened Catalog
  import opened Scope
  import opened Codec
  import Dump

  // ---------------------------------------------------------------------------
  // A sequence of units of work, each run only if all before it completed.

  function Each(runs: seq<Run>): Run
  {
    if runs == [] then Done else Then(runs[0], Each(runs[1..]))
  }

  function AllEvents(runs: seq<Run>): seq<Event>
  {
    if runs == [] then [] else runs[0].events + AllEvents(runs[1..])
  }

  /** The units run in order; the sequence completes exactly when every unit does,
      and otherwise ends with the first unit that raises, whose failure it passes on,
      no unit after it being attempted. */
  lemma {:induction false} EachStopsAtFirstFailure(runs: seq<Run>)
    ensures Each(runs).Ok() <==> forall i :: 0 <= i < |runs| ==> runs[i].Ok()
    ensures Each(runs).Ok() ==> Each(runs).events == AllEvents(runs)
    ensures !Each(runs).Ok() ==>
      exists k :: 0 <= k < |runs| && !runs[k].Ok() && (forall i :: 0 <= i < k ==> runs[i].Ok())
        && Each(runs) == Run(AllEvents(runs[..k]) + runs[k].events, runs[k].failure)
  {
    if runs != [] {
      var tail := runs[1..];
      EachStopsAtFirstFailure(tail);
      assert forall i :: 1 <= i < |runs| ==> runs[i] == tail[i - 1];
      if !runs[0].Ok() {
        assert runs[..0] == [];
        assert Each(runs) == Run(AllEvents(runs[..0]) + runs[0].events, runs[0].failure);
      } else if !Each(tail).Ok() {
        var k :| 0 <= k < |tail| && !tail[k].Ok() && (forall i :: 0 <= i < k ==> tail[i].Ok())
          && Each(tail) == Run(AllEvents(tail[..k]) + tail[k].events, tail[k].failure);
        assert runs[..k + 1][1..] == tail[..k];
        assert AllEvents(runs[..k + 1]) == runs[0].events + AllEvents(tail[..k]);
        Assoc(runs[0].events, AllEvents(tail[..k]), tail[k].events);
      }
    }
  }

  /** One step of a loop that runs the units one by one. */
  lemma EachStep(runs: seq<Run>, i: nat, acc: seq<Event>)
    requires i < |runs|
    requires Each(runs) == Then(Run(acc, None), Each(runs[i..]))
    ensures runs[i].Ok() ==> Each(runs) == Then(Run(acc + runs[i].events, None), Each(runs[i + 1..]))
    ensures !runs[i].Ok() ==> Each(runs) == Run(acc + runs[i].events, runs[i].failure)
  {
    assert runs[i..][0] == runs[i];
    assert runs[i..][1..] == runs[i + 1..];
    if runs[i].Ok() {
      var e := Each(runs[i + 1..]);
      assert acc + (runs[i].events + e.events) == acc + runs[i].events + e.events;
    }
  }

  lemma EachStart(runs: seq<Run>)
    ensures Each(runs) == Then(Run([], None), Each(runs[0..]))
  {
    assert runs[0..] == runs;
    assert [] + Each(runs).events == Each(runs).events;
  }

  lemma EachEnd(runs: seq<Run>, acc: seq<Event>)
    requires Each(runs) == Then(Run(acc, None), Each(runs[|runs|..]))
    ensures Each(runs) == Run(acc, None)
  {
    assert runs[|runs|..] == [];
    assert acc + [] == acc;
  }

  /** Appending to the log in two steps. */
  lemma Assoc(a: seq<Event>, b: seq<Event>, c: seq<Event>)
    ensures (a + b) + c == a + (b + c)
  {
  }

  /** Four units that all complete, one after the other. */
  lemma ThenFour(a: Run, b: Run, c: Run, d: Run)
    requires a.Ok() && b.Ok() && c.Ok() && d.Ok()
    ensures Then(a, Then(b, Then(c, d))) == Run(a.events + b.events + c.events + d.events, None)
  {
    Assoc(a.events, b.events, c.events + d.events);
    Assoc(a.events + b.events, c.events, d.events);
  }

  /** Five units that all complete, one after the other. */
  lemma ThenFive(a: Run, b: Run, c: Run, d: Run, e: Run)
    requires a.Ok() && b.Ok() && c.Ok() && d.Ok() && e.Ok()
    ensures Then(a, Then(b, Then(c, Then(d, e)))) == Run(a.events + b.events + c.events + d.events + e.events, None)
  {
    ThenFour(b, c, d, e);
    Assoc(a.events, b.events + c.events + d.events, e.events);
    Assoc(a.events, b.events + c.events, d.events);
    Assoc(a.events, b.events, c.events);
  }

  /** Running the rest of a sequence of units after the log so far. */
  lemma Accumulate(acc: seq<Event>, a: Run, rest: Run)
    ensures a.Ok() ==> Then(Run(acc, None), Then(a, rest)) == Then(Run(acc + a.events, None), rest)
    ensures !a.Ok() ==> Then(Run(acc, None), Then(a, rest)) == Run(acc + a.events, a.failure)
  {
    assert acc + (a.events + rest.events) == acc + a.events + rest.events;
  }

  lemma AttemptOne(refuses: Event -> bool, s: Stmt)
    ensures Attempt(refuses, [s])
      == Run([Exec(s)], if refuses(Exec(s)) then Some(Refused(Exec(s))) else None)
  {
    assert [s][1..] == [];
  }

  lemma AttemptTwo(refuses: Event -> bool, s: Stmt, t: Stmt)
    ensures Attempt(refuses, [s, t])
      == if refuses(Exec(s)) then Run([Exec(s)], Some(Refused(Exec(s))))
         else Run([Exec(s), Exec(t)], if refuses(Exec(t)) then Some(Refused(Exec(t))) else None)
  {
    assert [s, t][1..] == [t];
    AttemptOne(refuses, t);
  }

  // ---------------------------------------------------------------------------
  // `trans = con.begin() ... trans.commit()` without a `try`: the script variant's
  // transactions.  An exception in the body leaves the transaction open, and a
  // refused commit is raised as it is; nothing is ever rolled back.

  function ManualTransaction(refuses: Event -> bool, body: Run): Run
  {
    if !body.Ok() then Run([Begin] + body.events, body.failure)
    else Run([Begin] + body.events + [Commit], if refuses(Commit) then Some(Refused(Commit)) else None)
  }

  /** `begin` exactly once and first; `commit` exactly once when the body completes;
      never a rollback; the body's failure, or a refused commit, is raised. */
  lemma ManualTransactionNeverRollsBack(refuses: Event -> bool, body: Run)
    requires NoTxEvents(body.events)
    ensures var t := ManualTransaction(refuses, body);
      && t.events[0] == Begin
      && Count(Begin, t.events) == 1
      && Count(Commit, t.events) == (if body.Ok() then 1 else 0)
      && Count(Rollback, t.events) == 0
      && (!body.Ok() ==> t.failure == body.failure)
      && (t.Ok() <==> body.Ok() && !refuses(Commit))
  {
    var t := ManualTransaction(refuses, body);
    CountAppend(Begin, [Begin], body.events);
    CountAppend(Commit, [Begin], body.events);
    CountAppend(Rollback, [Begin], body.events);
    CountAbsent(Begin, body.events);
    CountAbsent(Commit, body.events);
    CountAbsent(Rollback, body.events);
    CountExit(refuses, None);
    if body.Ok() {
      CountAppend(Begin, [Begin] + body.events, [Commit]);
      CountAppend(Commit, [Begin] + body.events, [Commit]);
      CountAppend(Rollback, [Begin] + body.events, [Commit]);
    }
  }

  /** The transaction around one object, or around the RI toggle: the `transaction`
      scope in the package, a hand-made one in the script. */
  function Scoped(refuses: Event -> bool, v: Variant, body: Run): Run
  {
    if v == Package then Transaction(refuses, body) else ManualTransaction(refuses, body)
  }

  /** What leaving the scope adds to the log, after a body that raised `body` (or not). */
  function ScopeExitEvents(refuses: Event -> bool, v: Variant, body: Option<Failure>): seq<Event>
  {
    if v == Package then ExitEvents(refuses, body) else if body.None? then [Commit] else []
  }

  function ScopeExitFailure(refuses: Event -> bool, v: Variant, body: Option<Failure>): Option<Failure>
  {
    if v == Package then ExitFailure(refuses, body)
    else if body.None? && refuses(Commit) then Some(Refused(Commit)) else body
  }

  /** A scope is its `begin`, its body, and what leaving it adds. */
  lemma ScopedSplit(refuses: Event -> bool, v: Variant, body: Run)
    ensures Scoped(refuses, v, body)
      == Run([Begin] + body.events + ScopeExitEvents(refuses, v, body.failure), ScopeExitFailure(refuses, v, body.failure))
  {
    if v == Script && !body.Ok() {
      assert [Begin] + body.events + [] == [Begin] + body.events;
    }
  }

  method ScopeEnter(con: Connection)
    modifies con
    ensures con.log == old(con.log) + [Begin]
  {
    con.Begin();
  }

  method ScopeExit(con: Connection, v: Variant, body: Option<Failure>) returns (failure: Option<Failure>)
    modifies con
    ensures con.log == old(con.log) + ScopeExitEvents(con.refuses, v, body)
    ensures failure == ScopeExitFailure(con.refuses, v, body)
  {
    if v == Package {
      failure := TransactionExit(con, body);
    } else if body.Some? {
      failure := body;
      assert con.log + [] == con.log;
    } else {
      var ok := con.Commit();
      failure := if ok then None else Some(Refused(Commit));
    }
  }

  // ---------------------------------------------------------------------------
  // fixTextColumns: every TEXT column gets the Latin-1 collation, every NTEXT
  // column becomes a plain NTEXT, and the columns touched are remembered as
  // `"<table>.<column>"` in `suspect_columns`.

  const LATIN1_COLLATION: string := "SQL_Latin1_General_CP1_CI_AS"

  predicate Suspect(c: Column)
  {
    c.ctype.TextType? || c.ctype.NTextType?
  }

  function FixColumn(c: Column): (r: Column)
    ensures r.name == c.name && r.nullable == c.nullable
    ensures Suspect(r) == Suspect(c)
  {
    match c.ctype
    case TextType(_, _) => c.(ctype := TextType(Some(LATIN1_COLLATION), None))
    case NTextType(_) => c.(ctype := NTextType(None))
    case OtherType(_) => c
  }

  function FixTextTable(t: Table): Table
  {
    t.(columns := seq(|t.columns|, j requires 0 <= j < |t.columns| => FixColumn(t.columns[j])))
  }

  function FixTextTables(ts: seq<Table>): seq<Table>
  {
    seq(|ts|, i requires 0 <= i < |ts| => FixTextTable(ts[i]))
  }

  /** After the fix, a table keeps its name, indexes, key and column names; every
      TEXT column carries the Latin-1 collation and no length, every NTEXT column has
      no length, every other column is as it was; and a second fix changes nothing. */
  lemma FixTextSpec(ts: seq<Table>)
    ensures var r := FixTextTables(ts);
      && |r| == |ts|
      && (forall i :: 0 <= i < |ts| ==>
            && r[i].name == ts[i].name && r[i].indexes == ts[i].indexes && r[i].primaryKey == ts[i].primaryKey
            && |r[i].columns| == |ts[i].columns|
            && forall j :: 0 <= j < |ts[i].columns| ==>
                 var (a, b) := (ts[i].columns[j], r[i].columns[j]);
                 && b.name == a.name && b.nullable == a.nullable
                 && (a.ctype.TextType? ==> b.ctype == TextType(Some(LATIN1_COLLATION), None))
                 && (a.ctype.NTextType? ==> b.ctype == NTextType(None))
                 && (!Suspect(a) ==> b == a))
      && FixTextTables(r) == r
  {
    var r := FixTextTables(ts);
    forall i | 0 <= i < |ts| ensures FixTextTable(r[i]) == r[i] {
      var cs := r[i].columns;
      assert forall j :: 0 <= j < |cs| ==> FixColumn(cs[j]) == cs[j];
    }
  }

  function Key(table: string, column: string): string
  {
    table + "." + column
  }

  /** The keys recorded for the listed columns of one table. */
  function ColumnKeys(table: string, cs: seq<Column>): set<string>
  {
    if cs == [] then {}
    else ColumnKeys(table, cs[..|cs| - 1]) + (if Suspect(cs[|cs| - 1]) then {Key(table, cs[|cs| - 1].name)} else {})
  }

  /** The keys of `suspect_columns` after the fix of these tables. */
  function SuspectKeys(ts: seq<Table>): set<string>
  {
    if ts == [] then {}
    else SuspectKeys(ts[..|ts| - 1]) + ColumnKeys(ts[|ts| - 1].name, ts[|ts| - 1].columns)
  }

  lemma {:induction false} ColumnKeysSpec(table: string, cs: seq<Column>, k: string)
    ensures k in ColumnKeys(table, cs) <==> exists j :: 0 <= j < |cs| && Suspect(cs[j]) && k == Key(table, cs[j].name)
  {
    if cs != [] {
      var n := |cs|;
      var init := cs[..n - 1];
      ColumnKeysSpec(table, init, k);
      assert forall j :: 0 <= j < n - 1 ==> init[j] == cs[j];
      if exists j :: 0 <= j < |cs| && Suspect(cs[j]) && k == Key(table, cs[j].name) {
        var j :| 0 <= j < |cs| && Suspect(cs[j]) && k == Key(table, cs[j].name);
        if j < n - 1 {
          assert Suspect(init[j]) && k == Key(table, init[j].name);
        }
      }
    }
  }

  /** `suspect_columns` holds exactly `"<table>.<column>"` of the TEXT and NTEXT columns. */
  lemma {:induction false} SuspectKeysSpec(ts: seq<Table>, k: string)
    ensures k in SuspectKeys(ts) <==>
      exists i, j :: 0 <= i < |ts| && 0 <= j < |ts[i].columns| && Suspect(ts[i].columns[j])
        && k == Key(ts[i].name, ts[i].columns[j].name)
  {
    if ts != [] {
      var n := |ts|;
      var init := ts[..n - 1];
      SuspectKeysSpec(init, k);
      ColumnKeysSpec(ts[n - 1].name, ts[n - 1].columns, k);
      assert forall i :: 0 <= i < n - 1 ==> init[i] == ts[i];
      if exists i, j :: 0 <= i < |ts| && 0 <= j < |ts[i].columns| && Suspect(ts[i].columns[j])
          && k == Key(ts[i].name, ts[i].columns[j].name) {
        var i, j :| 0 <= i < |ts| && 0 <= j < |ts[i].columns| && Suspect(ts[i].columns[j])
          && k == Key(ts[i].name, ts[i].columns[j].name);
        if i < n - 1 {
          assert Suspect(init[i].columns[j]) && k == Key(init[i].name, init[i].columns[j].name);
        }
      }
    }
  }

  /** `fixTextColumns` (and the same surgery in the script): the catalog's tables are
      replaced by their fixed versions and `suspect_columns` maps each touched
      column's key to `True`. */
  method FixTextColumns(meta: MetaData) returns (suspect: map<string, bool>)
    modifies meta
    ensures meta.tables == FixTextTables(old(meta.tables))
    ensures suspect.Keys == SuspectKeys(old(meta.tables))
    ensures forall k :: k in suspect ==> suspect[k]
  {
    ghost var t0 := meta.tables;
    suspect := map[];
    var i := 0;
    while i < |meta.tables|
      invariant i <= |meta.tables| == |t0|
      invariant forall k :: 0 <= k < i ==> meta.tables[k] == FixTextTable(t0[k])
      invariant forall k :: i <= k < |t0| ==> meta.tables[k] == t0[k]
      invariant suspect.Keys == SuspectKeys(t0[..i])
      invariant forall k :: k in suspect ==> suspect[k]
    {
      var table := meta.tables[i];
      var cols := table.columns;
      var j := 0;
      while j < |cols|
        invariant j <= |cols| == |table.columns|
        invariant forall k :: 0 <= k < j ==> cols[k] == FixColumn(table.columns[k])
        invariant forall k :: j <= k < |cols| ==> cols[k] == table.columns[k]
        invariant suspect.Keys == SuspectKeys(t0[..i]) + ColumnKeys(table.name, table.columns[..j])
        invariant forall k :: k in suspect ==> suspect[k]
      {
        var col := cols[j];
        assert table.columns[..j + 1][..j] == table.columns[..j];
        if col.ctype.TextType? {
          cols := cols[j := col.(ctype := TextType(Some(LATIN1_COLLATION), None))];
          suspect := suspect[Key(table.name, col.name) := true];
        } else if col.ctype.NTextType? {
          cols := cols[j := col.(ctype := NTextType(None))];
          suspect := suspect[Key(table.name, col.name) := true];
        }
        j := j + 1;
      }
      assert table.columns[..j] == table.columns;
      assert cols == FixTextTable(table).columns;
      SuspectKeysStep(t0, i);
      meta.tables := meta.tables[i := table.(columns := cols)];
      i := i + 1;
    }
    assert t0[..i] == t0;
  }

  lemma SuspectKeysStep(ts: seq<Table>, i: nat)
    requires i < |ts|
    ensures SuspectKeys(ts[..i + 1]) == SuspectKeys(ts[..i]) + ColumnKeys(ts[i].name, ts[i].columns)
  {
    assert ts[..i + 1][..i] == ts[..i];
  }

  /** The two tables of the fix-up test: an integer and a TEXT column, and an NTEXT
      column; both large-text columns are recorded. */
  lemma FixtureTextColumns()
    ensures var ts := [
        Table("t1", [Column("c1", OtherType("INTEGER"), true), Column("c2", TextType(None, Some(2147483647)), true)], [], PrimaryKey(None, [])),
        Table("t2", [Column("c3", NTextType(Some(1073741823)), true)], [], PrimaryKey(None, []))];
      SuspectKeys(ts) == {"t1.c2", "t2.c3"}
  {
    var c1 := Column("c1", OtherType("INTEGER"), true);
    var c2 := Column("c2", TextType(None, Some(2147483647)), true);
    var c3 := Column("c3", NTextType(Some(1073741823)), true);
    var t1 := Table("t1", [c1, c2], [], PrimaryKey(None, []));
    var t2 := Table("t2", [c3], [], PrimaryKey(None, []));
    assert [c1, c2][..1] == [c1] && [c1][..0] == [];
    assert ColumnKeys("t1", [c1]) == {};
    assert Key("t1", "c2") == "t1.c2";
    assert ColumnKeys("t1", [c1, c2]) == {"t1.c2"};
    assert [c3][..0] == [];
    assert Key("t2", "c3") == "t2.c3";
    assert ColumnKeys("t2", [c3]) == {"t2.c3"};
    assert [t1, t2][..1] == [t1] && [t1][..0] == [];
    assert SuspectKeys([t1]) == {"t1.c2"};
  }

  // ---------------------------------------------------------------------------
  // Python's `%` on a template with `%s` conversions, and the drop templates.

  /** `template % tuple(args)` for templates holding only `%s` and `%%`; `None` is the
      `TypeError` or `ValueError` Python raises for a wrong number of arguments or
      another conversion. */
  function Format(t: string, args: seq<string>): Option<string>
    decreases |t|
  {
    if t == [] then (if args == [] then Some([]) else None)
    else if t[0] != '%' then
      match Format(t[1..], args)
      case None => None
      case Some(s) => Some([t[0]] + s)
    else if |t| >= 2 && t[1] == '%' then
      match Format(t[2..], args)
      case None => None
      case Some(s) => Some("%" + s)
    else if |t| >= 2 && t[1] == 's' && args != [] then
      match Format(t[2..], args[1..])
      case None => None
      case Some(s) => Some(args[0] + s)
    else None
  }

  lemma {:induction false} FormatLiteral(p: string, rest: string, args: seq<string>)
    requires '%' !in p
    ensures Format(p + rest, args) == match Format(rest, args) case None => None case Some(s) => Some(p + s)
  {
    if p == [] {
      assert p + rest == rest;
      match Format(rest, args)
      case None =>
      case Some(s) =>
        assert p + s == s;
    } else {
      var t := p + rest;
      assert t[0] == p[0] && p[0] in p;
      assert t[1..] == p[1..] + rest;
      assert '%' !in p[1..] by {
        forall j | 0 <= j < |p[1..]| ensures p[1..][j] != '%' {
          assert p[1..][j] == p[j + 1];
        }
      }
      FormatLiteral(p[1..], rest, args);
      assert Format(t, args) == match Format(t[1..], args) case None => None case Some(s) => Some([t[0]] + s);
      match Format(rest, args)
      case None =>
      case Some(s) =>
        assert [p[0]] + (p[1..] + s) == p + s;
    }
  }

  /** A drop template: `head + "%s" + mid + "%s"`, the object's name going in twice. */
  datatype Template = Template(head: string, mid: string)
  {
    /** The template as the source writes it. */
    function Text(): string { head + "%s" + mid + "%s" }
  }

  /** The statement the template yields for one object. */
  function Fill(t: Template, name: string): string
  {
    t.head + name + t.mid + name
  }

  /** Filling in the name is what `%` does with the name given twice, whenever the
      template's literal parts hold no `%`. */
  lemma FillFormats(t: Template, name: string)
    requires '%' !in t.head && '%' !in t.mid
    ensures Format(t.Text(), [name, name]) == Some(Fill(t, name))
  {
    var s2 := "%s";
    assert Format(s2, [name]) == Some(name + []) by {
      assert s2[2..] == [] && [name][1..] == [];
    }
    var t1 := t.mid + s2;
    FormatLiteral(t.mid, s2, [name]);
    assert Format(s2 + t1, [name, name]) == Some(name + (t.mid + (name + []))) by {
      assert (s2 + t1)[0] == '%' && (s2 + t1)[1] == 's';
      assert (s2 + t1)[2..] == t1;
      assert [name, name][1..] == [name];
    }
    FormatLiteral(t.head, s2 + t1, [name, name]);
    assert t.Text() == t.head + (s2 + t1);
    assert t.head + (name + (t.mid + (name + []))) == Fill(t, name);
  }

  /** `_drop_views`' statement (also the script's view template). */
  const VIEW_DROP := Template("IF EXISTS (SELECT * FROM INFORMATION_SCHEMA.VIEWS WHERE table_name= '", "') DROP VIEW ")

  const PROCEDURE_DROP := Template(
    "if exists (select * from information_schema.routines where routine_schema='dbo' and routine_type='PROCEDURE' and routine_name='",
    "') drop procedure ")

  const FUNCTION_DROP := Template(
    "if exists (select * from information_schema.routines where routine_schema='dbo' and routine_type='FUNCTION' and routine_name='",
    "') drop function ")

  /** The trigger template of both variants: it tests `type` twice and never the name. */
  const TRIGGER_DROP := Template("if exists (select * from sysobjects o where type='TR' and type='", "')drop trigger ")

  /** The script's routine templates lack the blank before `drop`. */
  const SCRIPT_PROCEDURE_DROP := Template(
    "if exists (select * from information_schema.routines where routine_schema='dbo' and routine_type='PROCEDURE' and routine_name='",
    "')drop procedure ")

  const SCRIPT_FUNCTION_DROP := Template(
    "if exists (select * from information_schema.routines where routine_schema='dbo' and routine_type='FUNCTION' and routine_name='",
    "')drop function ")

  // ---------------------------------------------------------------------------
  // _drop_views and createSchema

  function DropViewSql(name: string): string
  {
    Fill(VIEW_DROP, name)
  }

  /** One conditional drop per stored view, the last stored view first. */
  function DropViewStmts(views: seq<ObjectDef>): (r: seq<Stmt>)
    ensures |r| == |views|
    ensures forall i :: 0 <= i < |views| ==> r[i] == Sql(DropViewSql(views[|views| - 1 - i].name))
  {
    seq(|views|, i requires 0 <= i < |views| => Sql(DropViewSql(views[|views| - 1 - i].name)))
  }

  /** One step of a loop that executes the statements one by one. */
  lemma AttemptStep(refuses: Event -> bool, stmts: seq<Stmt>, k: nat, acc: seq<Event>)
    requires k < |stmts|
    requires Attempt(refuses, stmts) == Then(Run(acc, None), Attempt(refuses, stmts[k..]))
    ensures !refuses(Exec(stmts[k])) ==>
      Attempt(refuses, stmts) == Then(Run(acc + [Exec(stmts[k])], None), Attempt(refuses, stmts[k + 1..]))
    ensures refuses(Exec(stmts[k])) ==>
      Attempt(refuses, stmts) == Run(acc + [Exec(stmts[k])], Some(Refused(Exec(stmts[k]))))
  {
    assert stmts[k..][0] == stmts[k] && stmts[k..][1..] == stmts[k + 1..];
    if !refuses(Exec(stmts[k])) {
      Accumulate(acc, Run([Exec(stmts[k])], None), Attempt(refuses, stmts[k + 1..]));
    }
  }

  /** `_drop_views`: it opens no transaction of its own. */
  method DropViews(con: Connection, views: seq<ObjectDef>) returns (failure: Option<Failure>)
    modifies con
    ensures con.log == old(con.log) + Attempt(con.refuses, DropViewStmts(views)).events
    ensures failure == Attempt(con.refuses, DropViewStmts(views)).failure
  {
    ghost var stmts := DropViewStmts(views);
    ghost var acc: seq<Event> := [];
    assert stmts[0..] == stmts;
    ThenDone(Attempt(con.refuses, stmts));
    var i := |views|;
    while i > 0
      invariant 0 <= i <= |views|
      invariant con.log == old(con.log) + acc
      invariant Attempt(con.refuses, stmts) == Then(Run(acc, None), Attempt(con.refuses, stmts[|views| - i..]))
    {
      var s := Sql(DropViewSql(views[i - 1].name));
      assert stmts[|views| - i] == s;
      AttemptStep(con.refuses, stmts, |views| - i, acc);
      Assoc(old(con.log), acc, [Exec(s)]);
      var ok, res := con.Execute(s);
      if !ok {
        failure := Some(Refused(Exec(s)));
        return;
      }
      acc := acc + [Exec(s)];
      i := i - 1;
    }
    assert stmts[|views|..] == [];
    assert acc + [] == acc;
    failure := None;
  }

  /** Each stored view is dropped once, in reverse stored order, up to the first
      refused drop; when none is refused, all of them are. */
  lemma DropViewsReverse(refuses: Event -> bool, views: seq<ObjectDef>)
    ensures var r := Attempt(refuses, DropViewStmts(views));
      && |r.events| <= |views|
      && (forall i :: 0 <= i < |r.events| ==> r.events[i] == Exec(Sql(DropViewSql(views[|views| - 1 - i].name))))
      && (r.Ok() <==> forall i :: 0 <= i < |views| ==> !refuses(Exec(Sql(DropViewSql(views[i].name)))))
      && (r.Ok() ==> |r.events| == |views|)
  {
    var stmts := DropViewStmts(views);
    AttemptStopsAtFirstRefusal(refuses, stmts);
    var r := Attempt(refuses, stmts);
    if !r.Ok() {
      var k := |r.events| - 1;
      assert refuses(Exec(Sql(DropViewSql(views[|views| - 1 - k].name))));
    } else {
      forall i | 0 <= i < |views| ensures !refuses(Exec(Sql(DropViewSql(views[i].name)))) {
        assert stmts[|views| - 1 - i] == Sql(DropViewSql(views[i].name));
      }
    }
  }

  /** The drop test: views v1 then v2 are dropped as v2, then v1. */
  lemma FixtureDropViews(refuses: Event -> bool)
    requires forall e :: !refuses(e)
    ensures Attempt(refuses, DropViewStmts([ObjectDef("v1", "view 1", None), ObjectDef("v2", "view 2", None)])).events
      == [Exec(Sql(DropViewSql("v2"))), Exec(Sql(DropViewSql("v1")))]
  {
    var views := [ObjectDef("v1", "view 1", None), ObjectDef("v2", "view 2", None)];
    var stmts := DropViewStmts(views);
    assert stmts[1..][1..] == [];
    assert stmts == [Sql(DropViewSql("v2")), Sql(DropViewSql("v1"))];
  }

  /** What `createSchema` asks of the connection: one transaction holding the view
      drops, then `drop_all`, then `create_all` of the (fixed) tables. */
  function SchemaRun(refuses: Event -> bool, views: seq<ObjectDef>, tables: seq<Table>): Run
  {
    Transaction(refuses, Then(Attempt(refuses, DropViewStmts(views)),
                              Attempt(refuses, [DropAll(TableNames(tables)), CreateAll(tables)])))
  }

  method CreateSchema(con: Connection, meta: MetaData, views: seq<ObjectDef>) returns (failure: Option<Failure>)
    modifies con
    ensures con.log == old(con.log) + SchemaRun(con.refuses, views, meta.tables).events
    ensures failure == SchemaRun(con.refuses, views, meta.tables).failure
  {
    ghost var drops := Attempt(con.refuses, DropViewStmts(views));
    ghost var creates := Attempt(con.refuses, [DropAll(TableNames(meta.tables)), CreateAll(meta.tables)]);
    ghost var body := Then(drops, creates);
    TransactionEnter(con);
    Assoc(old(con.log), [Begin], drops.events);
    failure := DropViews(con, views);
    if failure.None? {
      Assoc(old(con.log), [Begin] + drops.events, creates.events);
      Assoc([Begin], drops.events, creates.events);
      failure := DropAndCreate(con, meta.tables);
    }
    assert con.log == old(con.log) + ([Begin] + body.events) && failure == body.failure;
    Assoc(old(con.log), [Begin] + body.events, ExitEvents(con.refuses, body.failure));
    failure := TransactionExit(con, failure);
  }

  /** When nothing is refused, `createSchema` begins once, drops the views in reverse
      order, drops and recreates the tables, and commits once. */
  lemma SchemaOrder(refuses: Event -> bool, views: seq<ObjectDef>, tables: seq<Table>)
    requires forall e :: !refuses(e)
    ensures var r := SchemaRun(refuses, views, tables);
      && r.Ok()
      && r.events == [Begin] + Attempt(refuses, DropViewStmts(views)).events
                     + [Exec(DropAll(TableNames(tables))), Exec(CreateAll(tables)), Commit]
      && |Attempt(refuses, DropViewStmts(views)).events| == |views|
  {
    DropViewsReverse(refuses, views);
    var (s, t) := (DropAll(TableNames(tables)), CreateAll(tables));
    AttemptTwo(refuses, s, t);
    var drops := Attempt(refuses, DropViewStmts(views));
    assert drops.Ok() by {
      forall i | 0 <= i < |views| ensures !refuses(Exec(Sql(DropViewSql(views[i].name)))) {
      }
    }
    var body := Then(drops, Attempt(refuses, [s, t]));
    assert body == Run(drops.events + [Exec(s), Exec(t)], None);
    var d := drops.events;
    assert [Begin] + (d + [Exec(s), Exec(t)]) + [Commit] == [Begin] + d + [Exec(s), Exec(t), Commit];
  }

  // ---------------------------------------------------------------------------
  // changeRIChecks

  const RI_HEAD: string := "EXEC sp_msforeachtable \"ALTER TABLE ? "
  const RI_TAIL: string := " CONSTRAINT all\""

  function RiSql(off: bool): string
  {
    RI_HEAD + (if off then "NOCHECK" else "WITH CHECK CHECK") + RI_TAIL
  }

  function RiRun(refuses: Event -> bool, v: Variant, off: bool): Run
  {
    Scoped(refuses, v, Attempt(refuses, [Sql(RiSql(off))]))
  }

  /** `changeRIChecks(off)` in the package; the script's two RI blocks are the same
      with a hand-made transaction. */
  method ChangeRIChecks(con: Connection, v: Variant, off: bool) returns (failure: Option<Failure>)
    modifies con
    ensures con.log == old(con.log) + RiRun(con.refuses, v, off).events
    ensures failure == RiRun(con.refuses, v, off).failure
  {
    var s := Sql(if off then RiSql(true) else RiSql(false));
    ScopeEnter(con);
    var ok, res := con.Execute(s);
    var body: Option<Failure> := if ok then None else Some(Refused(Exec(s)));
    failure := ScopeExit(con, v, body);
    AttemptOne(con.refuses, s);
    ScopedSplit(con.refuses, v, Attempt(con.refuses, [s]));
  }

  /** The toggle runs exactly one statement, the NOCHECK one when turning checks off
      and the WITH CHECK one when turning them on, inside one transaction; the two
      statements differ. */
  lemma RiChecksStatement(refuses: Event -> bool, v: Variant, off: bool)
    ensures RiSql(true) != RiSql(false)
    ensures var r := RiRun(refuses, v, off);
      !refuses(Exec(Sql(RiSql(off)))) && !refuses(Commit) ==>
        r.Ok() && r.events == [Begin, Exec(Sql(RiSql(off))), Commit]
    ensures var r := RiRun(refuses, v, off);
      refuses(Exec(Sql(RiSql(off)))) ==> r.failure == Some(Refused(Exec(Sql(RiSql(off)))))
  {
    assert RiSql(true)[|RI_HEAD|] == 'N';
    assert RiSql(false)[|RI_HEAD|] == 'W';
    assert [Sql(RiSql(off))][1..] == [];
  }

  // ---------------------------------------------------------------------------
  // import_tables: the reading loop over a table's data file.

  /** One decoded block: inserted inside its own transaction in the package, bare
      inside the table's transaction in the script. */
  function BlockRun(refuses: Event -> bool, v: Variant, name: string, b: Block): Run
  {
    var insert := Attempt(refuses, [InsertRows(name, b)]);
    if v == Package then Transaction(refuses, insert) else insert
  }

  /** A block the database accepts: one insert, inside `begin`/`commit` in the package. */
  lemma BlockRunAccepted(refuses: Event -> bool, v: Variant, name: string, b: Block)
    requires forall e :: !refuses(e)
    ensures BlockRun(refuses, v, name, b).Ok()
    ensures BlockRun(refuses, v, name, b).events
      == if v == Package then [Begin, Exec(InsertRows(name, b)), Commit] else [Exec(InsertRows(name, b))]
  {
    AttemptOne(refuses, InsertRows(name, b));
    assert [Begin] + [Exec(InsertRows(name, b))] + [Commit] == [Begin, Exec(InsertRows(name, b)), Commit];
  }

  /** What the reading loop asks of the connection for the file content `s`: it stops
      at an `EOF` line or end of file, raises on a length line `int()` rejects or a
      block the deserialiser rejects, and stops at the first failing insert. */
  function InsertLoop(refuses: Event -> bool, ser: Serializer, v: Variant, name: string, s: seq<byte>): Run
    decreases |s|, 1
  {
    var r := NextLine(s);
    if r.0 == [] || r.0 == EOF_MARK then Done
    else InsertFrame(refuses, ser, v, name, r.0, r.1)
  }

  /** After a length line: the block it announces, then the rest of the file. */
  function InsertFrame(refuses: Event -> bool, ser: Serializer, v: Variant, name: string,
                       line: seq<byte>, after: seq<byte>): Run
    decreases |after|, 2
  {
    match ParseInt(line)
    case None => Run([], Some(BadLength(line)))
    case Some(n) =>
      var (buf, next) := NextBytes(after, n);
      match ser.load(buf)
      case None => Run([], Some(BadBlock))
      case Some(b) => Then(BlockRun(refuses, v, name, b), InsertLoop(refuses, ser, v, name, next))
  }

  /** The loop's test on the line just read. */
  lemma LoopLine(refuses: Event -> bool, ser: Serializer, v: Variant, name: string, cur: seq<byte>,
                 line: seq<byte>, after: seq<byte>)
    requires (line, after) == NextLine(cur)
    ensures line == [] || line == EOF_MARK ==> InsertLoop(refuses, ser, v, name, cur) == Done
    ensures line != [] && line != EOF_MARK ==>
      InsertLoop(refuses, ser, v, name, cur) == InsertFrame(refuses, ser, v, name, line, after) && |after| < |cur|
  {
    NextLineShorter(cur);
  }

  lemma NextLineShorter(cur: seq<byte>)
    ensures cur != [] ==> |NextLine(cur).1| < |cur|
  {
    var r := NextLine(cur);
    assert |r.0| + |r.1| == |cur|;
  }

  /** The body of the loop: `int()`, `read`, `loads` and the insert. */
  lemma LoopFrame(refuses: Event -> bool, ser: Serializer, v: Variant, name: string,
                  line: seq<byte>, after: seq<byte>, buf: seq<byte>, next: seq<byte>)
    ensures ParseInt(line).None? ==> InsertFrame(refuses, ser, v, name, line, after) == Run([], Some(BadLength(line)))
    ensures ParseInt(line).Some? && (buf, next) == NextBytes(after, ParseInt(line).value) ==>
      && |next| <= |after|
      && (ser.load(buf).None? ==> InsertFrame(refuses, ser, v, name, line, after) == Run([], Some(BadBlock)))
      && (ser.load(buf).Some? ==>
            InsertFrame(refuses, ser, v, name, line, after)
            == Then(BlockRun(refuses, v, name, ser.load(buf).value), InsertLoop(refuses, ser, v, name, next)))
  {
  }

  function BlockRuns(refuses: Event -> bool, v: Variant, name: string, blocks: seq<Block>): (r: seq<Run>)
    ensures |r| == |blocks| && forall i :: 0 <= i < |blocks| ==> r[i] == BlockRun(refuses, v, name, blocks[i])
  {
    seq(|blocks|, i requires 0 <= i < |blocks| => BlockRun(refuses, v, name, blocks[i]))
  }

  /** Inserting the given blocks one after the other. */
  function InsertBlocks(refuses: Event -> bool, v: Variant, name: string, blocks: seq<Block>): Run
  {
    Each(BlockRuns(refuses, v, name, blocks))
  }

  /** The loop inserts exactly the blocks the decoder yields, in file order, and then
      raises the decoder's failure, if any; an insert that fails ends it. */
  lemma {:induction false} InsertLoopDecodes(refuses: Event -> bool, ser: Serializer, v: Variant, name: string, s: seq<byte>)
    ensures InsertLoop(refuses, ser, v, name, s)
      == Then(InsertBlocks(refuses, v, name, Decode(ser, s).blocks), Run([], Decode(ser, s).failure))
    decreases |s|
  {
    var (line, after) := NextLine(s);
    LoopLine(refuses, ser, v, name, s, line, after);
    if line == [] || line == EOF_MARK {
    } else if ParseInt(line).None? {
      LoopFrame(refuses, ser, v, name, line, after, [], []);
    } else {
      var n := ParseInt(line).value;
      var (buf, next) := NextBytes(after, n);
      LoopFrame(refuses, ser, v, name, line, after, buf, next);
      if ser.load(buf).Some? {
        var b := ser.load(buf).value;
        InsertLoopDecodes(refuses, ser, v, name, next);
        var d := Decode(ser, next);
        DecodeFrame(ser, s, line, after, n, buf, next, b);
        InsertBlocksCons(refuses, v, name, b, d.blocks);
        ThenAssoc(BlockRun(refuses, v, name, b), InsertBlocks(refuses, v, name, d.blocks), Run([], d.failure));
      }
    }
  }

  /** A frame whose block the deserialiser accepts is followed by the blocks decoded after it. */
  lemma DecodeFrame(ser: Serializer, s: seq<byte>, line: seq<byte>, after: seq<byte>, n: int,
                    buf: seq<byte>, next: seq<byte>, b: Block)
    requires (line, after) == NextLine(s) && line != [] && line != EOF_MARK
    requires ParseInt(line) == Some(n) && (buf, next) == NextBytes(after, n) && ser.load(buf) == Some(b)
    ensures Decode(ser, s) == Decoded([b] + Decode(ser, next).blocks, Decode(ser, next).failure)
  {
  }

  /** Inserting a first block, then the others. */
  lemma InsertBlocksCons(refuses: Event -> bool, v: Variant, name: string, b: Block, blocks: seq<Block>)
    ensures InsertBlocks(refuses, v, name, [b] + blocks)
      == Then(BlockRun(refuses, v, name, b), InsertBlocks(refuses, v, name, blocks))
  {
    assert BlockRuns(refuses, v, name, [b] + blocks)[1..] == BlockRuns(refuses, v, name, blocks);
  }

  /** Reading back what the writer wrote inserts exactly the written blocks. */
  lemma ReadsWhatWasWritten(refuses: Event -> bool, ser: Serializer, v: Variant, name: string, blocks: seq<Block>)
    requires LoadsBack(ser, blocks)
    ensures InsertLoop(refuses, ser, v, name, Encode(ser, blocks)) == InsertBlocks(refuses, v, name, blocks)
  {
    DecodeEncode(ser, blocks);
    InsertLoopDecodes(refuses, ser, v, name, Encode(ser, blocks));
    var r := InsertBlocks(refuses, v, name, blocks);
    assert r.events + [] == r.events;
  }

  /** The insert events of a table when nothing is refused: a transaction per block in
      the package, bare inserts in the script. */
  function BlockEvents(v: Variant, name: string, blocks: seq<Block>): seq<Event>
  {
    if blocks == [] then []
    else (if v == Package then [Begin, Exec(InsertRows(name, blocks[0])), Commit] else [Exec(InsertRows(name, blocks[0]))])
         + BlockEvents(v, name, blocks[1..])
  }

  lemma {:induction false} BlockEventsAccepted(refuses: Event -> bool, v: Variant, name: string, blocks: seq<Block>)
    requires forall e :: !refuses(e)
    ensures AllEvents(BlockRuns(refuses, v, name, blocks)) == BlockEvents(v, name, blocks)
  {
    if blocks != [] {
      var runs := BlockRuns(refuses, v, name, blocks);
      assert runs[1..] == BlockRuns(refuses, v, name, blocks[1..]);
      BlockEventsAccepted(refuses, v, name, blocks[1..]);
      BlockRunAccepted(refuses, v, name, blocks[0]);
    }
  }

  /** Blocks are inserted in order, each in its own transaction in the package; an
      insert that fails is rolled back (package) and re-raised, and no later block is
      attempted; when nothing is refused every block is inserted once. */
  lemma InsertBlocksSpec(refuses: Event -> bool, v: Variant, name: string, blocks: seq<Block>)
    ensures var r := InsertBlocks(refuses, v, name, blocks);
      && (r.Ok() <==> forall i :: 0 <= i < |blocks| ==> BlockRun(refuses, v, name, blocks[i]).Ok())
      && (!r.Ok() ==> exists k :: (0 <= k < |blocks| && !BlockRun(refuses, v, name, blocks[k]).Ok()
                                   && r == Run(AllEvents(BlockRuns(refuses, v, name, blocks[..k]))
                                               + BlockRun(refuses, v, name, blocks[k]).events,
                                               BlockRun(refuses, v, name, blocks[k]).failure)))
      && ((forall e :: !refuses(e)) ==> r.Ok() && r.events == BlockEvents(v, name, blocks))
  {
    var runs := BlockRuns(refuses, v, name, blocks);
    EachStopsAtFirstFailure(runs);
    if !InsertBlocks(refuses, v, name, blocks).Ok() {
      var k :| 0 <= k < |runs| && !runs[k].Ok() && (forall i :: 0 <= i < k ==> runs[i].Ok())
        && Each(runs) == Run(AllEvents(runs[..k]) + runs[k].events, runs[k].failure);
      assert runs[..k] == BlockRuns(refuses, v, name, blocks[..k]);
    }
    if forall e :: !refuses(e) {
      forall i | 0 <= i < |blocks| ensures runs[i].Ok() {
        BlockRunAccepted(refuses, v, name, blocks[i]);
      }
      BlockEventsAccepted(refuses, v, name, blocks);
    }
  }

  /** One block: `with transaction(con): con.execute(table.insert(), rows)` in the
      package, the bare execute in the script. */
  method InsertBlock(con: Connection, v: Variant, name: string, b: Block) returns (failure: Option<Failure>)
    modifies con
    ensures con.log == old(con.log) + BlockRun(con.refuses, v, name, b).events
    ensures failure == BlockRun(con.refuses, v, name, b).failure
  {
    var s := InsertRows(name, b);
    AttemptOne(con.refuses, s);
    if v == Package {
      TransactionEnter(con);
    }
    var ok, res := con.Execute(s);
    failure := if ok then None else Some(Refused(Exec(s)));
    if v == Package {
      failure := TransactionExit(con, failure);
    }
  }

  /** The `readline`/`read` loop of one table's data file. */
  method ImportBlocks(con: Connection, fh: InFile, ser: Serializer, v: Variant, name: string) returns (failure: Option<Failure>)
    requires fh.Valid()
    modifies con, fh
    ensures con.log == old(con.log) + InsertLoop(con.refuses, ser, v, name, old(fh.Rest())).events
    ensures failure == InsertLoop(con.refuses, ser, v, name, old(fh.Rest())).failure
  {
    ghost var all := InsertLoop(con.refuses, ser, v, name, fh.Rest());
    ghost var cur := fh.Rest();
    ghost var acc: seq<Event> := [];
    assert [] + all.events == all.events;
    var line := fh.ReadLine();
    while line != [] && line != EOF_MARK
      invariant fh.Valid()
      invariant (line, fh.Rest()) == NextLine(cur)
      invariant con.log == old(con.log) + acc
      invariant all == Then(Run(acc, None), InsertLoop(con.refuses, ser, v, name, cur))
      decreases |cur|
    {
      ghost var after := fh.Rest();
      LoopLine(con.refuses, ser, v, name, cur, line, after);
      var n := ParseInt(line);
      if n.None? {
        LoopFrame(con.refuses, ser, v, name, line, after, [], []);
        assert acc + [] == acc;
        failure := Some(BadLength(line));
        return;
      }
      var buf := fh.Read(n.value);
      var b := ser.load(buf);
      LoopFrame(con.refuses, ser, v, name, line, after, buf, fh.Rest());
      if b.None? {
        assert acc + [] == acc;
        failure := Some(BadBlock);
        return;
      }
      ghost var step := BlockRun(con.refuses, v, name, b.value);
      Accumulate(acc, step, InsertLoop(con.refuses, ser, v, name, fh.Rest()));
      Assoc(old(con.log), acc, step.events);
      failure := InsertBlock(con, v, name, b.value);
      if failure.Some? {
        return;
      }
      acc := acc + step.events;
      cur := fh.Rest();
      line := fh.ReadLine();
    }
    LoopLine(con.refuses, ser, v, name, cur, line, fh.Rest());
    assert acc + [] == acc;
    failure := None;
  }

  /** What restoring one table asks of the connection, given the files of the backup
      directory: a missing data file raises before anything is read; the script
      begins the table's transaction before opening the file. */
  function TableImportRun(refuses: Event -> bool, files: map<string, seq<byte>>, ser: Serializer,
                          root: string, v: Variant, name: string): Run
  {
    var path := Dump.TableFile(root, name);
    var body := if path !in files then Run([], Some(MissingFile(path))) else InsertLoop(refuses, ser, v, name, files[path]);
    if v == Package then body else ManualTransaction(refuses, body)
  }

  method ImportTable(con: Connection, dir: Directory, ser: Serializer, root: string, v: Variant, name: string)
    returns (failure: Option<Failure>)
    modifies con
    ensures con.log == old(con.log) + TableImportRun(con.refuses, dir.files, ser, root, v, name).events
    ensures failure == TableImportRun(con.refuses, dir.files, ser, root, v, name).failure
  {
    var path := Dump.TableFile(root, name);
    if v == Script {
      con.Begin();
    }
    ghost var log1 := con.log;
    if path !in dir.files {
      failure := Some(MissingFile(path));
      assert con.log + [] == con.log;
      return;
    }
    var fh := new InFile(dir.files[path]);
    assert fh.Rest() == dir.files[path];
    ghost var body := InsertLoop(con.refuses, ser, v, name, dir.files[path]);
    failure := ImportBlocks(con, fh, ser, v, name);
    if v == Script {
      Assoc(old(con.log), [Begin], body.events);
      if failure.None? {
        var ok := con.Commit();
        failure := if ok then None else Some(Refused(Commit));
        Assoc(old(con.log), [Begin] + body.events, [Commit]);
      }
    }
  }

  function TableRuns(refuses: Event -> bool, files: map<string, seq<byte>>, ser: Serializer,
                     root: string, v: Variant, tables: seq<Table>): (r: seq<Run>)
    ensures |r| == |tables|
    ensures forall i :: 0 <= i < |tables| ==> r[i] == TableImportRun(refuses, files, ser, root, v, tables[i].name)
  {
    seq(|tables|, i requires 0 <= i < |tables| => TableImportRun(refuses, files, ser, root, v, tables[i].name))
  }

  /** `import_tables`: every table of the catalog in catalog order, stopping at the first
      exception. */
  function ImportTablesRun(refuses: Event -> bool, files: map<string, seq<byte>>, ser: Serializer,
                           root: string, v: Variant, tables: seq<Table>): Run
  {
    Each(TableRuns(refuses, files, ser, root, v, tables))
  }

  method ImportTables(con: Connection, dir: Directory, meta: MetaData, ser: Serializer, root: string, v: Variant)
    returns (failure: Option<Failure>)
    modifies con
    ensures con.log == old(con.log) + ImportTablesRun(con.refuses, dir.files, ser, root, v, meta.tables).events
    ensures failure == ImportTablesRun(con.refuses, dir.files, ser, root, v, meta.tables).failure
  {
    var tables := meta.tables;
    ghost var runs := TableRuns(con.refuses, dir.files, ser, root, v, tables);
    ghost var acc: seq<Event> := [];
    EachStart(runs);
    var i := 0;
    while i < |tables|
      invariant i <= |tables|
      invariant con.log == old(con.log) + acc
      invariant Each(runs) == Then(Run(acc, None), Each(runs[i..]))
    {
      EachStep(runs, i, acc);
      Assoc(old(con.log), acc, runs[i].events);
      failure := ImportTable(con, dir, ser, root, v, tables[i].name);
      if failure.Some? {
        return;
      }
      acc := acc + runs[i].events;
      i := i + 1;
    }
    EachEnd(runs, acc);
    failure := None;
  }

  /** What restoring a table inserts when its data file is the one its backup wrote:
      exactly the blocks the backup fetched, which together are the table's rows in
      order. */
  function RestoredTable(refuses: Event -> bool, v: Variant, name: string, blocks: seq<Block>): Run
  {
    var body := InsertBlocks(refuses, v, name, blocks);
    if v == Package then body else ManualTransaction(refuses, body)
  }

  /** Backup then restore: after a successful backup of the tables, restoring any of
      them from the backup directory inserts exactly the blocks its select returned,
      in order; their rows are the table's rows. */
  lemma BackupThenRestore(refuses: Event -> bool, answer: Stmt -> seq<Row>, ser: Serializer, root: string,
                          v: Variant, tables: seq<Table>, files: map<string, seq<byte>>,
                          refuses2: Event -> bool, i: nat)
    requires Dump.DistinctFiles(root, tables)
    requires Dump.BackupRun(refuses, v, tables).Ok()
    requires i < |tables|
    requires LoadsBack(ser, Chunks(answer(SelectAll(tables[i].name)), Dump.BlockSize(v)))
    ensures var name := tables[i].name;
      var blocks := Chunks(answer(SelectAll(name)), Dump.BlockSize(v));
      && TableImportRun(refuses2, Dump.BackupFiles(refuses, answer, ser, root, v, tables, files), ser, root, v, name)
         == RestoredTable(refuses2, v, name, blocks)
      && Flatten(blocks) == answer(SelectAll(name))
  {
    var name := tables[i].name;
    var blocks := Chunks(answer(SelectAll(name)), Dump.BlockSize(v));
    Dump.BackupWritesEveryTable(refuses, answer, ser, root, v, tables, files);
    ReadsWhatWasWritten(refuses2, ser, v, name, blocks);
    ChunksPartition(answer(SelectAll(name)), Dump.BlockSize(v));
  }

  /** The script inserts all blocks of a table inside a single transaction, begun
      before the file is opened and committed after the last block. */
  lemma ScriptTableTransaction(refuses: Event -> bool, name: string, blocks: seq<Block>)
    requires forall e :: !refuses(e)
    ensures var r := RestoredTable(refuses, Script, name, blocks);
      r.Ok() && r.events == [Begin] + BlockEvents(Script, name, blocks) + [Commit]
  {
    InsertBlocksSpec(refuses, Script, name, blocks);
  }

  // ---------------------------------------------------------------------------
  // _import_object and import_objects

  function DropStmts(drop: Option<Template>, name: string): seq<Stmt>
  {
    if drop.Some? then [Sql(Fill(drop.value, name))] else []
  }

  /** One object: inside its own transaction, the drop (when a template is given) and
      then the stored definition, verbatim. */
  function ObjectRun(refuses: Event -> bool, v: Variant, drop: Option<Template>, o: ObjectDef): Run
  {
    Scoped(refuses, v, Attempt(refuses, DropStmts(drop, o.name) + [Sql(o.definition)]))
  }

  function ObjectRuns(refuses: Event -> bool, v: Variant, drop: Option<Template>, objs: seq<ObjectDef>): (r: seq<Run>)
    ensures |r| == |objs| && forall i :: 0 <= i < |objs| ==> r[i] == ObjectRun(refuses, v, drop, objs[i])
  {
    seq(|objs|, i requires 0 <= i < |objs| => ObjectRun(refuses, v, drop, objs[i]))
  }

  function ImportObjectRun(refuses: Event -> bool, v: Variant, drop: Option<Template>, objs: seq<ObjectDef>): Run
  {
    Each(ObjectRuns(refuses, v, drop, objs))
  }

  lemma ObjectBody(refuses: Event -> bool, drop: Option<Template>, o: ObjectDef)
    ensures var r := Attempt(refuses, DropStmts(drop, o.name) + [Sql(o.definition)]);
      drop.Some? ==> r == Attempt(refuses, [Sql(Fill(drop.value, o.name)), Sql(o.definition)])
    ensures drop.None? ==> DropStmts(drop, o.name) + [Sql(o.definition)] == [Sql(o.definition)]
  {
  }

  /** One object, inside its transaction. */
  method ImportOne(con: Connection, v: Variant, drop: Option<Template>, o: ObjectDef) returns (failure: Option<Failure>)
    modifies con
    ensures con.log == old(con.log) + ObjectRun(con.refuses, v, drop, o).events
    ensures failure == ObjectRun(con.refuses, v, drop, o).failure
  {
    ghost var body := Attempt(con.refuses, DropStmts(drop, o.name) + [Sql(o.definition)]);
    ObjectBody(con.refuses, drop, o);
    ScopedSplit(con.refuses, v, body);
    ScopeEnter(con);
    var f: Option<Failure> := None;
    var d := Sql(o.definition);
    if drop.Some? {
      var s := Sql(Fill(drop.value, o.name));
      AttemptTwo(con.refuses, s, d);
      var ok, res := con.Execute(s);
      if !ok {
        f := Some(Refused(Exec(s)));
      }
    } else {
      AttemptOne(con.refuses, d);
    }
    if f.None? {
      var ok, res := con.Execute(d);
      if !ok {
        f := Some(Refused(Exec(d)));
      }
    }
    assert con.log == old(con.log) + [Begin] + body.events && f == body.failure;
    failure := ScopeExit(con, v, f);
  }

  /** `_import_object`: the objects in stored order, stopping at the first exception. */
  method ImportObject(con: Connection, v: Variant, drop: Option<Template>, objs: seq<ObjectDef>) returns (failure: Option<Failure>)
    modifies con
    ensures con.log == old(con.log) + ImportObjectRun(con.refuses, v, drop, objs).events
    ensures failure == ImportObjectRun(con.refuses, v, drop, objs).failure
  {
    ghost var runs := ObjectRuns(con.refuses, v, drop, objs);
    ghost var acc: seq<Event> := [];
    EachStart(runs);
    var i := 0;
    while i < |objs|
      invariant i <= |objs|
      invariant con.log == old(con.log) + acc
      invariant Each(runs) == Then(Run(acc, None), Each(runs[i..]))
    {
      EachStep(runs, i, acc);
      Assoc(old(con.log), acc, runs[i].events);
      failure := ImportOne(con, v, drop, objs[i]);
      if failure.Some? {
        return;
      }
      acc := acc + runs[i].events;
      i := i + 1;
    }
    EachEnd(runs, acc);
    failure := None;
  }

  function ObjectEvents(drop: Option<Template>, objs: seq<ObjectDef>): seq<Event>
  {
    if objs == [] then []
    else [Begin] + (if drop.Some? then [Exec(Sql(Fill(drop.value, objs[0].name)))] else [])
         + [Exec(Sql(objs[0].definition)), Commit] + ObjectEvents(drop, objs[1..])
  }

  lemma {:induction false} ObjectEventsAccepted(refuses: Event -> bool, v: Variant, drop: Option<Template>, objs: seq<ObjectDef>)
    requires forall e :: !refuses(e)
    ensures forall i :: 0 <= i < |objs| ==> ObjectRun(refuses, v, drop, objs[i]).Ok()
    ensures AllEvents(ObjectRuns(refuses, v, drop, objs)) == ObjectEvents(drop, objs)
  {
    forall i | 0 <= i < |objs| ensures ObjectRun(refuses, v, drop, objs[i]).Ok() {
      ObjectRunAccepted(refuses, v, drop, objs[i]);
    }
    if objs != [] {
      var runs := ObjectRuns(refuses, v, drop, objs);
      assert runs[1..] == ObjectRuns(refuses, v, drop, objs[1..]);
      ObjectEventsAccepted(refuses, v, drop, objs[1..]);
      ObjectRunAccepted(refuses, v, drop, objs[0]);
    }
  }

  lemma ObjectRunAccepted(refuses: Event -> bool, v: Variant, drop: Option<Template>, o: ObjectDef)
    requires forall e :: !refuses(e)
    ensures ObjectRun(refuses, v, drop, o).Ok()
    ensures ObjectRun(refuses, v, drop, o).events
      == [Begin] + (if drop.Some? then [Exec(Sql(Fill(drop.value, o.name)))] else []) + [Exec(Sql(o.definition)), Commit]
  {
    var d := Sql(o.definition);
    var body := Attempt(refuses, DropStmts(drop, o.name) + [d]);
    ObjectBody(refuses, drop, o);
    var pre := if drop.Some? then [Exec(Sql(Fill(drop.value, o.name)))] else [];
    if drop.Some? {
      AttemptTwo(refuses, Sql(Fill(drop.value, o.name)), d);
    } else {
      AttemptOne(refuses, d);
    }
    assert body == Run(pre + [Exec(d)], None);
    ScopedSplit(refuses, v, body);
    assert [Begin] + (pre + [Exec(d)]) + [Commit] == [Begin] + pre + [Exec(d), Commit];
  }

  /** Objects are re-created one by one, each in its own transaction: the drop built
      from the template (when there is one) and then the definition; when nothing is
      refused every object is re-created, in stored order; otherwise the first
      refused statement ends the import. */
  lemma ImportObjectSpec(refuses: Event -> bool, v: Variant, drop: Option<Template>, objs: seq<ObjectDef>)
    ensures var r := ImportObjectRun(refuses, v, drop, objs);
      && (r.Ok() <==> forall i :: 0 <= i < |objs| ==> ObjectRun(refuses, v, drop, objs[i]).Ok())
      && ((forall e :: !refuses(e)) ==> r.Ok() && r.events == ObjectEvents(drop, objs))
      && (!r.Ok() ==> exists k :: (0 <= k < |objs| && !ObjectRun(refuses, v, drop, objs[k]).Ok()
                                   && r.failure == ObjectRun(refuses, v, drop, objs[k]).failure))
  {
    var runs := ObjectRuns(refuses, v, drop, objs);
    EachStopsAtFirstFailure(runs);
    if forall e :: !refuses(e) {
      ObjectEventsAccepted(refuses, v, drop, objs);
    }
  }

  /** The accepted case of `ImportObjectSpec` on its own. */
  lemma ImportObjectAccepted(refuses: Event -> bool, v: Variant, drop: Option<Template>, objs: seq<ObjectDef>)
    requires forall e :: !refuses(e)
    ensures ImportObjectRun(refuses, v, drop, objs).Ok()
    ensures ImportObjectRun(refuses, v, drop, objs).events == ObjectEvents(drop, objs)
  {
    ImportObjectSpec(refuses, v, drop, objs);
  }

  /** The template the import test hands to `_import_object`. */
  const TEST_DROP := Template("if exists(", ") drop ")

  /** The import test: two objects, each dropped with the name put in twice and then
      re-created from its definition. */
  lemma FixtureImportObject(refuses: Event -> bool)
    requires forall e :: !refuses(e)
    ensures Format(TEST_DROP.Text(), ["o1", "o1"]) == Some("if exists(o1) drop o1")
    ensures ImportObjectRun(refuses, Package, Some(TEST_DROP),
                            [ObjectDef("o1", "create object 1", None), ObjectDef("o2", "create object 2", None)]).events
      == [Begin, Exec(Sql("if exists(o1) drop o1")), Exec(Sql("create object 1")), Commit,
          Begin, Exec(Sql("if exists(o2) drop o2")), Exec(Sql("create object 2")), Commit]
  {
    TestDropFills();
    var o1 := ObjectDef("o1", "create object 1", None);
    var o2 := ObjectDef("o2", "create object 2", None);
    ImportObjectAccepted(refuses, Package, Some(TEST_DROP), [o1, o2]);
    TwoObjectEvents(TEST_DROP, o1, o2);
  }

  lemma TestDropFills()
    ensures Format(TEST_DROP.Text(), ["o1", "o1"]) == Some("if exists(o1) drop o1")
    ensures Fill(TEST_DROP, "o1") == "if exists(o1) drop o1"
    ensures Fill(TEST_DROP, "o2") == "if exists(o2) drop o2"
  {
    assert '%' !in TEST_DROP.head && '%' !in TEST_DROP.mid;
    FillFormats(TEST_DROP, "o1");
    assert Fill(TEST_DROP, "o1") == "if exists(o1) drop o1";
    assert Fill(TEST_DROP, "o2") == "if exists(o2) drop o2";
  }

  lemma TwoObjectEvents(drop: Template, o1: ObjectDef, o2: ObjectDef)
    ensures ObjectEvents(Some(drop), [o1, o2])
      == [Begin, Exec(Sql(Fill(drop, o1.name))), Exec(Sql(o1.definition)), Commit,
          Begin, Exec(Sql(Fill(drop, o2.name))), Exec(Sql(o2.definition)), Commit]
  {
    var d := Some(drop);
    assert [o1, o2][1..] == [o2] && [o2][1..] == [];
    assert ObjectEvents(d, [o2])
      == [Begin, Exec(Sql(Fill(drop, o2.name))), Exec(Sql(o2.definition)), Commit];
    assert ObjectEvents(d, [o1, o2])
      == [Begin, Exec(Sql(Fill(drop, o1.name))), Exec(Sql(o1.definition)), Commit] + ObjectEvents(d, [o2]);
  }

  /** `import_objects`: views (no drop: `createSchema` dropped them), then procedures,
      functions and triggers, each with its drop template. */
  function ObjectsRun(refuses: Event -> bool, views: seq<ObjectDef>, procedures: seq<ObjectDef>,
                      functions: seq<ObjectDef>, triggers: seq<ObjectDef>): Run
  {
    Then(ImportObjectRun(refuses, Package, None, views),
    Then(ImportObjectRun(refuses, Package, Some(PROCEDURE_DROP), procedures),
    Then(ImportObjectRun(refuses, Package, Some(FUNCTION_DROP), functions),
         ImportObjectRun(refuses, Package, Some(TRIGGER_DROP), triggers))))
  }

  method ImportObjects(con: Connection, views: seq<ObjectDef>, procedures: seq<ObjectDef>,
                       functions: seq<ObjectDef>, triggers: seq<ObjectDef>) returns (failure: Option<Failure>)
    modifies con
    ensures con.log == old(con.log) + ObjectsRun(con.refuses, views, procedures, functions, triggers).events
    ensures failure == ObjectsRun(con.refuses, views, procedures, functions, triggers).failure
  {
    ghost var r1 := ImportObjectRun(con.refuses, Package, None, views);
    ghost var r2 := ImportObjectRun(con.refuses, Package, Some(PROCEDURE_DROP), procedures);
    ghost var r3 := ImportObjectRun(con.refuses, Package, Some(FUNCTION_DROP), functions);
    ghost var r4 := ImportObjectRun(con.refuses, Package, Some(TRIGGER_DROP), triggers);
    failure := ImportObject(con, Package, None, views);
    if failure.Some? { return; }
    ghost var acc := r1.events;
    Accumulate(acc, r2, Then(r3, r4));
    Assoc(old(con.log), acc, r2.events);
    failure := ImportObject(con, Package, Some(PROCEDURE_DROP), procedures);
    if failure.Some? { return; }
    acc := acc + r2.events;
    Accumulate(acc, r3, r4);
    Assoc(old(con.log), acc, r3.events);
    failure := ImportObject(con, Package, Some(FUNCTION_DROP), functions);
    if failure.Some? { return; }
    acc := acc + r3.events;
    Assoc(old(con.log), acc, r4.events);
    failure := ImportObject(con, Package, Some(TRIGGER_DROP), triggers);
  }

  /** When nothing is refused, the views are re-created first, without a drop, then
      the procedures, functions and triggers, each dropped before it is re-created. */
  lemma ObjectsOrder(refuses: Event -> bool, views: seq<ObjectDef>, procedures: seq<ObjectDef>,
                     functions: seq<ObjectDef>, triggers: seq<ObjectDef>)
    requires forall e :: !refuses(e)
    ensures var r := ObjectsRun(refuses, views, procedures, functions, triggers);
      r.Ok() && r.events == ObjectEvents(None, views) + ObjectEvents(Some(PROCEDURE_DROP), procedures)
                            + ObjectEvents(Some(FUNCTION_DROP), functions) + ObjectEvents(Some(TRIGGER_DROP), triggers)
  {
    ImportObjectAccepted(refuses, Package, None, views);
    ImportObjectAccepted(refuses, Package, Some(PROCEDURE_DROP), procedures);
    ImportObjectAccepted(refuses, Package, Some(FUNCTION_DROP), functions);
    ImportObjectAccepted(refuses, Package, Some(TRIGGER_DROP), triggers);
    ThenFour(ImportObjectRun(refuses, Package, None, views),
             ImportObjectRun(refuses, Package, Some(PROCEDURE_DROP), procedures),
             ImportObjectRun(refuses, Package, Some(FUNCTION_DROP), functions),
             ImportObjectRun(refuses, Package, Some(TRIGGER_DROP), triggers));
  }

  // ---------------------------------------------------------------------------
  // The script's restore: its phases in order.

  /** The script's first phases, on the fixed tables: `drop_all` and `create_all`
      outside any transaction, RI checks off, then the tables' data. */
  function ScriptDataRun(refuses: Event -> bool, files: map<string, seq<byte>>, ser: Serializer, root: string,
                         fixed: seq<Table>): Run
  {
    Then(Attempt(refuses, [DropAll(TableNames(fixed)), CreateAll(fixed)]),
    Then(RiRun(refuses, Script, true),
         ImportTablesRun(refuses, files, ser, root, Script, fixed)))
  }

  /** The script's last phases: views, procedures, functions and triggers, each with
      its drop template, then RI checks on. */
  function ScriptObjectsRun(refuses: Event -> bool, views: seq<ObjectDef>, procedures: seq<ObjectDef>,
                            functions: seq<ObjectDef>, triggers: seq<ObjectDef>): Run
  {
    Then(ImportObjectRun(refuses, Script, Some(VIEW_DROP), views),
    Then(ImportObjectRun(refuses, Script, Some(SCRIPT_PROCEDURE_DROP), procedures),
    Then(ImportObjectRun(refuses, Script, Some(SCRIPT_FUNCTION_DROP), functions),
    Then(ImportObjectRun(refuses, Script, Some(TRIGGER_DROP), triggers),
         RiRun(refuses, Script, false)))))
  }

  /** The script from the reflected catalog on: the text fix, then its phases. */
  function ScriptRestoreRun(refuses: Event -> bool, files: map<string, seq<byte>>, ser: Serializer, root: string,
                            tables: seq<Table>, views: seq<ObjectDef>, procedures: seq<ObjectDef>,
                            functions: seq<ObjectDef>, triggers: seq<ObjectDef>): Run
  {
    Then(ScriptDataRun(refuses, files, ser, root, FixTextTables(tables)),
         ScriptObjectsRun(refuses, views, procedures, functions, triggers))
  }

  /** The script's restore; it returns `suspect_columns` and the failure that ends it. */
  method ScriptRestore(con: Connection, dir: Directory, meta: MetaData, ser: Serializer, root: string,
                       views: seq<ObjectDef>, procedures: seq<ObjectDef>,
                       functions: seq<ObjectDef>, triggers: seq<ObjectDef>)
    returns (failure: Option<Failure>, suspect: map<string, bool>)
    modifies con, meta
    ensures con.log == old(con.log) + ScriptRestoreRun(con.refuses, dir.files, ser, root, old(meta.tables),
                                                       views, procedures, functions, triggers).events
    ensures failure == ScriptRestoreRun(con.refuses, dir.files, ser, root, old(meta.tables),
                                        views, procedures, functions, triggers).failure
    ensures meta.tables == FixTextTables(old(meta.tables))
    ensures suspect.Keys == SuspectKeys(old(meta.tables))
  {
    suspect := FixTextColumns(meta);
    ghost var r1 := ScriptDataRun(con.refuses, dir.files, ser, root, meta.tables);
    ghost var r2 := ScriptObjectsRun(con.refuses, views, procedures, functions, triggers);
    failure := ScriptData(con, dir, meta, ser, root);
    if failure.Some? {
      return;
    }
    Assoc(old(con.log), r1.events, r2.events);
    failure := ScriptObjects(con, views, procedures, functions, triggers);
  }

  method ScriptData(con: Connection, dir: Directory, meta: MetaData, ser: Serializer, root: string)
    returns (failure: Option<Failure>)
    modifies con
    ensures con.log == old(con.log) + ScriptDataRun(con.refuses, dir.files, ser, root, meta.tables).events
    ensures failure == ScriptDataRun(con.refuses, dir.files, ser, root, meta.tables).failure
  {
    var fixed := meta.tables;
    ghost var r1 := Attempt(con.refuses, [DropAll(TableNames(fixed)), CreateAll(fixed)]);
    ghost var r2 := RiRun(con.refuses, Script, true);
    ghost var r3 := ImportTablesRun(con.refuses, dir.files, ser, root, Script, fixed);
    failure := DropAndCreate(con, fixed);
    if failure.Some? { return; }
    ghost var acc := r1.events;
    Accumulate(acc, r2, r3);
    Assoc(old(con.log), acc, r2.events);
    failure := ChangeRIChecks(con, Script, true);
    if failure.Some? { return; }
    acc := acc + r2.events;
    Assoc(old(con.log), acc, r3.events);
    failure := ImportTables(con, dir, meta, ser, root, Script);
  }

  method ScriptObjects(con: Connection, views: seq<ObjectDef>, procedures: seq<ObjectDef>,
                       functions: seq<ObjectDef>, triggers: seq<ObjectDef>) returns (failure: Option<Failure>)
    modifies con
    ensures con.log == old(con.log) + ScriptObjectsRun(con.refuses, views, procedures, functions, triggers).events
    ensures failure == ScriptObjectsRun(con.refuses, views, procedures, functions, triggers).failure
  {
    ghost var r1 := ImportObjectRun(con.refuses, Script, Some(VIEW_DROP), views);
    ghost var r2 := ImportObjectRun(con.refuses, Script, Some(SCRIPT_PROCEDURE_DROP), procedures);
    ghost var r3 := ImportObjectRun(con.refuses, Script, Some(SCRIPT_FUNCTION_DROP), functions);
    ghost var r4 := ImportObjectRun(con.refuses, Script, Some(TRIGGER_DROP), triggers);
    ghost var r5 := RiRun(con.refuses, Script, false);
    failure := ImportObject(con, Script, Some(VIEW_DROP), views);
    if failure.Some? { return; }
    ghost var acc := r1.events;
    Accumulate(acc, r2, Then(r3, Then(r4, r5)));
    Assoc(old(con.log), acc, r2.events);
    failure := ImportObject(con, Script, Some(SCRIPT_PROCEDURE_DROP), procedures);
    if failure.Some? { return; }
    acc := acc + r2.events;
    Accumulate(acc, r3, Then(r4, r5));
    Assoc(old(con.log), acc, r3.events);
    failure := ImportObject(con, Script, Some(SCRIPT_FUNCTION_DROP), functions);
    if failure.Some? { return; }
    acc := acc + r3.events;
    Accumulate(acc, r4, r5);
    Assoc(old(con.log), acc, r4.events);
    failure := ImportObject(con, Script, Some(TRIGGER_DROP), triggers);
    if failure.Some? { return; }
    acc := acc + r4.events;
    Assoc(old(con.log), acc, r5.events);
    failure := ChangeRIChecks(con, Script, false);
  }

  /** `meta.drop_all(con)` then `meta.create_all(con)`, bare. */
  method DropAndCreate(con: Connection, tables: seq<Table>) returns (failure: Option<Failure>)
    modifies con
    ensures con.log == old(con.log) + Attempt(con.refuses, [DropAll(TableNames(tables)), CreateAll(tables)]).events
    ensures failure == Attempt(con.refuses, [DropAll(TableNames(tables)), CreateAll(tables)]).failure
  {
    var (s, t) := (DropAll(TableNames(tables)), CreateAll(tables));
    AttemptTwo(con.refuses, s, t);
    var ok, res := con.Execute(s);
    if !ok {
      return Some(Refused(Exec(s)));
    }
    ok, res := con.Execute(t);
    failure := if ok then None else Some(Refused(Exec(t)));
  }

  /** When nothing is refused and the data import succeeds, the script's first phases
      run `drop_all` and `create_all` bare, then RI checks off in their own
      transaction, then the tables' data. */
  lemma ScriptDataOrder(refuses: Event -> bool, files: map<string, seq<byte>>, ser: Serializer, root: string,
                        fixed: seq<Table>)
    requires forall e :: !refuses(e)
    ensures var r := ScriptDataRun(refuses, files, ser, root, fixed);
      var middle := ImportTablesRun(refuses, files, ser, root, Script, fixed);
      middle.Ok() ==>
        && r.Ok()
        && r.events
           == [Exec(DropAll(TableNames(fixed))), Exec(CreateAll(fixed)), Begin, Exec(Sql(RiSql(true))), Commit]
              + middle.events
  {
    var middle := ImportTablesRun(refuses, files, ser, root, Script, fixed);
    if middle.Ok() {
      var (s, t) := (DropAll(TableNames(fixed)), CreateAll(fixed));
      AttemptTwo(refuses, s, t);
      RiChecksStatement(refuses, Script, true);
      var x := [Exec(s), Exec(t)];
      var y := [Begin, Exec(Sql(RiSql(true))), Commit];
      assert x + (y + middle.events) == [Exec(s), Exec(t), Begin, Exec(Sql(RiSql(true))), Commit] + middle.events;
    }
  }

  /** When nothing is refused, the script's last phases run every view, procedure,
      function and trigger in that order with its drop template, then RI checks on. */
  lemma ScriptObjectsOrder(refuses: Event -> bool, views: seq<ObjectDef>, procedures: seq<ObjectDef>,
                           functions: seq<ObjectDef>, triggers: seq<ObjectDef>)
    requires forall e :: !refuses(e)
    ensures var r := ScriptObjectsRun(refuses, views, procedures, functions, triggers);
      && r.Ok()
      && r.events
         == ObjectEvents(Some(VIEW_DROP), views) + ObjectEvents(Some(SCRIPT_PROCEDURE_DROP), procedures)
            + ObjectEvents(Some(SCRIPT_FUNCTION_DROP), functions) + ObjectEvents(Some(TRIGGER_DROP), triggers)
            + [Begin, Exec(Sql(RiSql(false))), Commit]
  {
    RiChecksStatement(refuses, Script, false);
    ImportObjectAccepted(refuses, Script, Some(VIEW_DROP), views);
    ImportObjectAccepted(refuses, Script, Some(SCRIPT_PROCEDURE_DROP), procedures);
    ImportObjectAccepted(refuses, Script, Some(SCRIPT_FUNCTION_DROP), functions);
    ImportObjectAccepted(refuses, Script, Some(TRIGGER_DROP), triggers);
    ThenFive(ImportObjectRun(refuses, Script, Some(VIEW_DROP), views),
             ImportObjectRun(refuses, Script, Some(SCRIPT_PROCEDURE_DROP), procedures),
             ImportObjectRun(refuses, Script, Some(SCRIPT_FUNCTION_DROP), functions),
             ImportObjectRun(refuses, Script, Some(TRIGGER_DROP), triggers),
             RiRun(refuses, Script, false));
  }

  /** When nothing is refused and the data import succeeds, the whole script restore
      succeeds with its phases in order, on the fixed tables. */
  lemma ScriptPhaseOrder(refuses: Event -> bool, files: map<string, seq<byte>>, ser: Serializer, root: string,
                         tables: seq<Table>, views: seq<ObjectDef>, procedures: seq<ObjectDef>,
                         functions: seq<ObjectDef>, triggers: seq<ObjectDef>)
    requires forall e :: !refuses(e)
    ensures var fixed := FixTextTables(tables);
      var r := ScriptRestoreRun(refuses, files, ser, root, tables, views, procedures, functions, triggers);
      ImportTablesRun(refuses, files, ser, root, Script, fixed).Ok() ==>
        && r.Ok()
        && r.events == ScriptDataRun(refuses, files, ser, root, fixed).events
                       + ScriptObjectsRun(refuses, views, procedures, functions, triggers).events
  {
    ScriptDataOrder(refuses, files, ser, root, FixTextTables(tables));
    ScriptObjectsOrder(refuses, views, procedures, functions, triggers);
  }
}
