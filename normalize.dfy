/** The two catalog normalisers the dump applies before pickling the reflected schema:
    rebuilding indexes that are clustered or have included columns, and putting the
    columns of every primary key into key-ordinal order. */
module Normalize {
  import opened Common
  import opened Catalog

  // ---------------------------------------------------------------------------
  // fix_indexes_with_included_columns

  /** The row `sys.indexes` returns for an index: `type_desc`, `is_unique`,
      `is_primary_key`, `is_unique_constraint`. */
  datatype IndexInfo = IndexInfo(typeDesc: string, isUnique: bool, isPrimaryKey: bool, isUniqueConstraint: bool)

  predicate Clustered(info: IndexInfo) { info.typeDesc == "CLUSTERED" }

  /** `unique=True` is passed for a unique index that is neither a primary key nor a
      unique constraint. */
  predicate UniqueFlag(info: IndexInfo) { info.isUnique && !(info.isPrimaryKey || info.isUniqueConstraint) }

  /** The index is redefined when it is clustered or has included columns; the unique
      flag alone does not require it. */
  predicate RebuildRequired(info: IndexInfo, included: seq<string>) { Clustered(info) || |included| > 0 }

  /** The key columns of the rebuilt index: its columns without the included ones, in
      their original order. */
  function KeyColumns(columns: seq<string>, included: seq<string>): seq<string>
  {
    if columns == [] then []
    else (if columns[0] in included then [] else [columns[0]]) + KeyColumns(columns[1..], included)
  }

  /** Exactly the columns that are not included remain, and nothing is dropped when
      nothing is included; `KeyColumnsAppend` gives their order. */
  lemma {:induction false} KeyColumnsExclude(columns: seq<string>, included: seq<string>)
    ensures forall c :: c in KeyColumns(columns, included) <==> c in columns && c !in included
    ensures |KeyColumns(columns, included)| <= |columns|
    ensures included == [] ==> KeyColumns(columns, included) == columns
  {
    if columns != [] {
      KeyColumnsExclude(columns[1..], included);
      assert columns == [columns[0]] + columns[1..];
    }
  }

  /** Filtering distributes over concatenation: the kept columns of a split column list
      are the kept columns of its first part followed by those of the second, so the
      filter keeps the columns' order and multiplicity. */
  lemma {:induction false} KeyColumnsAppend(a: seq<string>, b: seq<string>, included: seq<string>)
    ensures KeyColumns(a + b, included) == KeyColumns(a, included) + KeyColumns(b, included)
  {
    if a == [] {
      assert a + b == b;
    } else {
      assert (a + b)[0] == a[0] && (a + b)[1..] == a[1..] + b;
      KeyColumnsAppend(a[1..], b, included);
    }
  }

  /** The filter on one column keeps it exactly when it is not included. */
  lemma KeyColumnsOne(c: string, included: seq<string>)
    ensures KeyColumns([c], included) == (if c in included then [] else [c])
  {
    assert [c][1..] == [];
  }

  /** The index that ends up in the table's index set in place of `ix`. */
  function FixedIndex(ix: Index, info: IndexInfo, included: seq<string>): (r: Index)
  {
    if RebuildRequired(info, included) then
      Index(ix.name, if |included| > 0 then KeyColumns(ix.columns, included) else ix.columns,
            UniqueFlag(info), Clustered(info), included)
    else ix
  }

  /** The per-index decision: an index that needs no rebuild is kept as it is; a rebuilt
      one keeps its name, is clustered and unique exactly as the catalog row says,
      includes the included columns in query order and lists the others as key
      columns. */
  lemma FixedIndexDecision(ix: Index, info: IndexInfo, included: seq<string>)
    ensures var r := FixedIndex(ix, info, included);
      && r.name == ix.name
      && (!RebuildRequired(info, included) ==> r == ix)
      && (RebuildRequired(info, included) ==>
            && r.unique == (info.isUnique && !info.isPrimaryKey && !info.isUniqueConstraint)
            && r.clustered == (info.typeDesc == "CLUSTERED")
            && r.included == included
            && r.columns == KeyColumns(ix.columns, included)
            && forall c :: c in r.columns <==> c in ix.columns && c !in included)
  {
    KeyColumnsExclude(ix.columns, included);
  }

  /** A unique index that is neither clustered nor has included columns is left alone. */
  lemma UniqueAloneKeeps(ix: Index, info: IndexInfo)
    requires info.typeDesc != "CLUSTERED"
    ensures FixedIndex(ix, info, []) == ix
  {
  }

  /** What the catalog says about the indexes of a table, by table and index name. */
  type InfoOf = (string, string) -> IndexInfo
  type IncludedOf = (string, string) -> seq<string>

  function FixedIndexes(table: string, ixs: seq<Index>, info: InfoOf, included: IncludedOf): seq<Index>
  {
    seq(|ixs|, k requires 0 <= k < |ixs| => FixedIndex(ixs[k], info(table, ixs[k].name), included(table, ixs[k].name)))
  }

  /** The catalog after the pass: a table with indexes has each of them decided on,
      at its own position; a table without indexes is skipped. */
  function FixAllIndexes(tables: seq<Table>, info: InfoOf, included: IncludedOf): seq<Table>
  {
    seq(|tables|, k requires 0 <= k < |tables| =>
      if |tables[k].indexes| > 0 then tables[k].(indexes := FixedIndexes(tables[k].name, tables[k].indexes, info, included))
      else tables[k])
  }

  /** The pass touches nothing but indexes, keeps the number of indexes of every table,
      and replaces exactly the indexes that need it. */
  lemma FixAllIndexesChanges(tables: seq<Table>, info: InfoOf, included: IncludedOf, k: nat, j: nat)
    requires k < |tables| && j < |tables[k].indexes|
    ensures var r := FixAllIndexes(tables, info, included);
      var ix := tables[k].indexes[j];
      && |r| == |tables|
      && r[k].name == tables[k].name && r[k].columns == tables[k].columns && r[k].primaryKey == tables[k].primaryKey
      && |r[k].indexes| == |tables[k].indexes|
      && r[k].indexes[j].name == ix.name
      && (!RebuildRequired(info(tables[k].name, ix.name), included(tables[k].name, ix.name)) ==> r[k].indexes[j] == ix)
  {
    var ix := tables[k].indexes[j];
    FixedIndexDecision(ix, info(tables[k].name, ix.name), included(tables[k].name, ix.name));
  }

  /** `fix_indexes_with_included_columns`: every table with indexes is visited; the
      decision is taken for each index of a snapshot of its index set, and a rebuilt
      index replaces the original. */
  method FixIndexesWithIncludedColumns(meta: MetaData, info: InfoOf, included: IncludedOf)
    modifies meta
    ensures meta.tables == FixAllIndexes(old(meta.tables), info, included)
  {
    var i := 0;
    while i < |meta.tables|
      invariant 0 <= i <= |meta.tables| == |old(meta.tables)|
      invariant forall k :: 0 <= k < i ==> meta.tables[k] == FixAllIndexes(old(meta.tables), info, included)[k]
      invariant forall k :: i <= k < |meta.tables| ==> meta.tables[k] == old(meta.tables)[k]
    {
      var table := meta.tables[i];
      if |table.indexes| > 0 {
        var snapshot := table.indexes;
        var ixs := table.indexes;
        for j := 0 to |snapshot|
          invariant |ixs| == |snapshot|
          invariant forall k :: 0 <= k < j ==>
            ixs[k] == FixedIndex(snapshot[k], info(table.name, snapshot[k].name), included(table.name, snapshot[k].name))
          invariant forall k :: j <= k < |snapshot| ==> ixs[k] == snapshot[k]
        {
          var ix := snapshot[j];
          var typeDef := info(table.name, ix.name);
          var inc := included(table.name, ix.name);
          var required, columns, unique, clustered, mssqlInclude := false, ix.columns, false, false, [];
          if typeDef.typeDesc == "CLUSTERED" {
            clustered, required := true, true;
          }
          if typeDef.isUnique && !(typeDef.isPrimaryKey || typeDef.isUniqueConstraint) {
            unique := true;
          }
          if |inc| > 0 {
            mssqlInclude, columns, required := inc, KeyColumns(ix.columns, inc), true;
          }
          if required {
            ixs := ixs[j := Index(ix.name, columns, unique, clustered, mssqlInclude)];
          }
        }
        assert ixs == FixedIndexes(table.name, snapshot, info, included);
        meta.tables := meta.tables[i := table.(indexes := ixs)];
      }
      i := i + 1;
    }
  }

  /** The unit tests' index ix1 over c1, c2, c3: kept when neither clustered nor with
      included columns; rebuilt clustered over all three columns; rebuilt unique over
      c1, c3 with c2 included. */
  lemma FixtureIndexes()
    ensures FixedIndex(Index("ix1", ["c1", "c2", "c3"], false, false, []), IndexInfo("??", false, false, false), [])
      == Index("ix1", ["c1", "c2", "c3"], false, false, [])
    ensures FixedIndex(Index("ix1", ["c1", "c2", "c3"], false, false, []), IndexInfo("CLUSTERED", false, false, false), [])
      == Index("ix1", ["c1", "c2", "c3"], false, true, [])
    ensures FixedIndex(Index("ix1", ["c1", "c2", "c3"], false, false, []), IndexInfo("??", true, false, false), ["c2"])
      == Index("ix1", ["c1", "c3"], true, false, ["c2"])
  {
    assert "??" != "CLUSTERED";
    IncludedColumnFilterFinding();
  }

  // The key-column filter as the source writes it.  `included_columns` holds the fetched
  // rows, not the names taken from them, so the membership test compares a column
  // name with one-column rows.

  /** The rows `fetchall()` returns for the included-columns query. */
  function IncludedRows(names: seq<string>): seq<Row>
  {
    seq(|names|, k requires 0 <= k < |names| => [("name", TextValue(names[k]))])
  }

  /** Python's `==` between a `str` and a fetched row: objects of different types are
      never equal. */
  predicate NameEqualsRow(name: string, row: Row) { false }

  function KeyColumnsAsWritten(columns: seq<string>, rows: seq<Row>): seq<string>
  {
    if columns == [] then []
    else
      var matches := exists k :: 0 <= k < |rows| && NameEqualsRow(columns[0], rows[k]);
      (if matches then [] else [columns[0]]) + KeyColumnsAsWritten(columns[1..], rows)
  }

  /** As written, the filter keeps every column, the included ones among them. */
  lemma {:induction false} KeyColumnsAsWrittenKeepsAll(columns: seq<string>, rows: seq<Row>)
    ensures KeyColumnsAsWritten(columns, rows) == columns
  {
    if columns != [] {
      KeyColumnsAsWrittenKeepsAll(columns[1..], rows);
      assert [columns[0]] + columns[1..] == columns;
    }
  }

  /** The index of the unit test: columns c1, c2, c3 with c2 included.  As written the
      key list stays c1, c2, c3; the intended key list is c1, c3. */
  lemma IncludedColumnFilterFinding()
    ensures KeyColumnsAsWritten(["c1", "c2", "c3"], IncludedRows(["c2"])) == ["c1", "c2", "c3"]
    ensures KeyColumns(["c1", "c2", "c3"], ["c2"]) == ["c1", "c3"]
  {
    KeyColumnsAsWrittenKeepsAll(["c1", "c2", "c3"], IncludedRows(["c2"]));
    var cs := ["c1", "c2", "c3"];
    assert cs[1..] == ["c2", "c3"] && cs[1..][1..] == ["c3"] && cs[1..][1..][1..] == [];
    assert "c1" != "c2" && "c3" != "c2";
  }

  // ---------------------------------------------------------------------------
  // fix_primary_key_order

  /** A row of `sp_pkeys`, reduced to what is read from it: `COLUMN_NAME` (field 3) and
      `KEY_SEQ` (field 4). */
  datatype PkRow = PkRow(column: string, keySeq: int)

  /** `list.sort(key=lambda x: x[4])`, a stable sort: a row goes before the first row
      of the sorted rest whose key is not smaller. */
  function Insert(r: PkRow, s: seq<PkRow>): (t: seq<PkRow>)
    ensures |t| == |s| + 1
  {
    if s == [] || r.keySeq <= s[0].keySeq then [r] + s else [s[0]] + Insert(r, s[1..])
  }

  function SortByKeySeq(rows: seq<PkRow>): (t: seq<PkRow>)
    ensures |t| == |rows|
  {
    if rows == [] then [] else Insert(rows[0], SortByKeySeq(rows[1..]))
  }

  predicate SortedByKeySeq(s: seq<PkRow>)
  {
    forall i, j :: 0 <= i < j < |s| ==> s[i].keySeq <= s[j].keySeq
  }

  /** The rows with key `k`, in order. */
  function WithKey(s: seq<PkRow>, k: int): seq<PkRow>
  {
    if s == [] then [] else (if s[0].keySeq == k then [s[0]] else []) + WithKey(s[1..], k)
  }

  /** Inserting a row adds it to the rows of its own key, in front of them. */
  lemma {:induction false} WithKeyInsert(r: PkRow, t: seq<PkRow>, k: int)
    ensures WithKey(Insert(r, t), k) == (if r.keySeq == k then [r] else []) + WithKey(t, k)
  {
    if t == [] || r.keySeq <= t[0].keySeq {
      WithKeyCons(r, t, k);
    } else {
      var x := t[0];
      var u := Insert(r, t[1..]);
      var a := WithKey(t[1..], k);
      var hx: seq<PkRow> := if x.keySeq == k then [x] else [];
      var hr: seq<PkRow> := if r.keySeq == k then [r] else [];
      assert Insert(r, t) == [x] + u;
      WithKeyCons(x, u, k);
      WithKeyInsert(r, t[1..], k);
      assert t == [x] + t[1..];
      WithKeyCons(x, t[1..], k);
      // `x` sorts before `r`, so at most one of them has key `k`.
      if r.keySeq == k {
        assert hx == [];
      } else {
        assert hr == [];
      }
    }
  }

  lemma WithKeyCons(x: PkRow, u: seq<PkRow>, k: int)
    ensures WithKey([x] + u, k) == (if x.keySeq == k then [x] else []) + WithKey(u, k)
  {
    assert ([x] + u)[1..] == u;
  }

  lemma {:induction false} InsertSorted(r: PkRow, s: seq<PkRow>)
    requires SortedByKeySeq(s)
    ensures SortedByKeySeq(Insert(r, s))
    ensures multiset(Insert(r, s)) == multiset(s) + multiset{r}
  {
    InsertPermutes(r, s);
    InsertOrders(r, s);
  }

  /** Inserting adds exactly the inserted row. */
  lemma {:induction false} InsertPermutes(r: PkRow, s: seq<PkRow>)
    ensures multiset(Insert(r, s)) == multiset(s) + multiset{r}
  {
    if s != [] && r.keySeq > s[0].keySeq {
      InsertPermutes(r, s[1..]);
      assert s == [s[0]] + s[1..];
    }
  }

  /** Every key of the result is at least a bound that the row and all keys of `s` respect. */
  lemma {:induction false} InsertAtLeast(r: PkRow, s: seq<PkRow>, m: int)
    requires m <= r.keySeq && forall i :: 0 <= i < |s| ==> m <= s[i].keySeq
    ensures forall i :: 0 <= i < |Insert(r, s)| ==> m <= Insert(r, s)[i].keySeq
  {
    if s != [] && r.keySeq > s[0].keySeq {
      InsertAtLeast(r, s[1..], m);
    }
  }

  lemma SortedCons(x: PkRow, t: seq<PkRow>)
    requires SortedByKeySeq(t) && forall i :: 0 <= i < |t| ==> x.keySeq <= t[i].keySeq
    ensures SortedByKeySeq([x] + t)
  {
  }

  /** Inserting into sorted rows keeps them sorted. */
  lemma {:induction false} InsertOrders(r: PkRow, s: seq<PkRow>)
    requires SortedByKeySeq(s)
    ensures SortedByKeySeq(Insert(r, s))
  {
    if s == [] || r.keySeq <= s[0].keySeq {
      SortedCons(r, s);
    } else {
      InsertOrders(r, s[1..]);
      InsertAtLeast(r, s[1..], s[0].keySeq);
      SortedCons(s[0], Insert(r, s[1..]));
    }
  }

  /** The sorted rows are ordered by key ordinal and are the fetched rows. */
  lemma {:induction false} SortSortsAndPermutes(rows: seq<PkRow>)
    ensures SortedByKeySeq(SortByKeySeq(rows))
    ensures multiset(SortByKeySeq(rows)) == multiset(rows)
  {
    if rows != [] {
      var t := SortByKeySeq(rows[1..]);
      SortSortsAndPermutes(rows[1..]);
      assert SortByKeySeq(rows) == Insert(rows[0], t);
      InsertOrders(rows[0], t);
      InsertPermutes(rows[0], t);
      assert rows == [rows[0]] + rows[1..];
      assert multiset(rows) == multiset(rows[1..]) + multiset{rows[0]};
    }
  }

  /** The sort is stable: rows with the same key keep their relative order. */
  lemma {:induction false} SortStable(rows: seq<PkRow>, k: int)
    ensures WithKey(SortByKeySeq(rows), k) == WithKey(rows, k)
  {
    if rows != [] {
      SortStable(rows[1..], k);
      WithKeyInsert(rows[0], SortByKeySeq(rows[1..]), k);
    }
  }

  function KeyNames(s: seq<PkRow>): (names: seq<string>)
    ensures |names| == |s| && forall i :: 0 <= i < |s| ==> names[i] == s[i].column
  {
    seq(|s|, i requires 0 <= i < |s| => s[i].column)
  }

  predicate HasColumn(t: Table, name: string)
  {
    exists i :: 0 <= i < |t.columns| && t.columns[i].name == name
  }

  /** `table.columns[name]` for each name in turn: the first name that is not a column
      raises `KeyError`. */
  function FirstMissing(t: Table, names: seq<string>): (r: Option<string>)
    ensures r.None? <==> forall i :: 0 <= i < |names| ==> HasColumn(t, names[i])
    ensures r.Some? ==> r.value in names && !HasColumn(t, r.value)
  {
    if names == [] then None
    else if !HasColumn(t, names[0]) then Some(names[0])
    else FirstMissing(t, names[1..])
  }

  datatype KeysFixed = KeysFixed(tables: seq<Table>, failure: Option<string>)

  function Prepend(done: seq<Table>, r: KeysFixed): KeysFixed
  {
    KeysFixed(done + r.tables, r.failure)
  }

  /** The catalog after `fix_primary_key_order`: every table with a primary key gets a
      constraint of the same name over the `sp_pkeys` columns in key order; the first
      unknown column name raises and leaves that table and the ones after it as they were. */
  function FixKeys(tables: seq<Table>, pkeys: string -> seq<PkRow>): KeysFixed
  {
    if tables == [] then KeysFixed([], None)
    else
      var t := tables[0];
      if |t.primaryKey.columns| == 0 then Prepend([t], FixKeys(tables[1..], pkeys))
      else
        var names := KeyNames(SortByKeySeq(pkeys(t.name)));
        match FirstMissing(t, names)
        case Some(c) => KeysFixed(tables, Some(c))
        case None => Prepend([t.(primaryKey := PrimaryKey(t.primaryKey.name, names))], FixKeys(tables[1..], pkeys))
  }

  /** When no column is unknown: tables without a primary key are unchanged, and every
      other table keeps everything but its primary key, whose name is kept and whose
      columns are the fetched ones, sorted stably by key ordinal. */
  lemma {:induction false} FixKeysSucceeds(tables: seq<Table>, pkeys: string -> seq<PkRow>, k: nat)
    requires FixKeys(tables, pkeys).failure.None? && k < |tables|
    ensures var r := FixKeys(tables, pkeys).tables;
      && |r| == |tables|
      && (|tables[k].primaryKey.columns| == 0 ==> r[k] == tables[k])
      && (|tables[k].primaryKey.columns| > 0 ==>
            && r[k] == tables[k].(primaryKey := r[k].primaryKey)
            && r[k].primaryKey.name == tables[k].primaryKey.name
            && r[k].primaryKey.columns == KeyNames(SortByKeySeq(pkeys(tables[k].name))))
    decreases k
  {
    FixKeysLength(tables[1..], pkeys);
    if k > 0 {
      FixKeysSucceeds(tables[1..], pkeys, k - 1);
    }
  }

  lemma {:induction false} FixKeysLength(tables: seq<Table>, pkeys: string -> seq<PkRow>)
    ensures FixKeys(tables, pkeys).failure.None? ==> |FixKeys(tables, pkeys).tables| == |tables|
  {
    if tables != [] {
      FixKeysLength(tables[1..], pkeys);
    }
  }

  /** A failure names a column some table's `sp_pkeys` rows mention but the table lacks. */
  lemma {:induction false} FixKeysFails(tables: seq<Table>, pkeys: string -> seq<PkRow>)
    requires FixKeys(tables, pkeys).failure.Some?
    ensures exists k :: (0 <= k < |tables| && |tables[k].primaryKey.columns| > 0 &&
      FixKeys(tables, pkeys).failure.value in KeyNames(pkeys(tables[k].name)) &&
      !HasColumn(tables[k], FixKeys(tables, pkeys).failure.value))
  {
    var t := tables[0];
    var c := FixKeys(tables, pkeys).failure.value;
    if |t.primaryKey.columns| > 0 && FirstMissing(t, KeyNames(SortByKeySeq(pkeys(t.name)))).Some? {
      var rows := pkeys(t.name);
      SortSortsAndPermutes(rows);
      var i :| 0 <= i < |rows| && SortByKeySeq(rows)[i].column == c;
      assert SortByKeySeq(rows)[i] in multiset(rows);
      var j :| 0 <= j < |rows| && rows[j] == SortByKeySeq(rows)[i];
      assert KeyNames(rows)[j] == c;
      assert tables[0] == t;
    } else {
      FixKeysFails(tables[1..], pkeys);
      var k :| 0 <= k < |tables[1..]| && |tables[1..][k].primaryKey.columns| > 0 &&
        c in KeyNames(pkeys(tables[1..][k].name)) && !HasColumn(tables[1..][k], c);
      assert tables[k + 1] == tables[1..][k];
    }
  }

  /** One step of the pass, seen from table `i` on. */
  lemma FixKeysAt(tables: seq<Table>, pkeys: string -> seq<PkRow>, i: nat)
    requires i < |tables|
    ensures var t := tables[i];
      var names := KeyNames(SortByKeySeq(pkeys(t.name)));
      FixKeys(tables[i..], pkeys) ==
        if |t.primaryKey.columns| == 0 then Prepend([t], FixKeys(tables[i + 1..], pkeys))
        else if FirstMissing(t, names).Some? then KeysFixed(tables[i..], FirstMissing(t, names))
        else Prepend([t.(primaryKey := PrimaryKey(t.primaryKey.name, names))], FixKeys(tables[i + 1..], pkeys))
  {
    assert tables[i..][0] == tables[i] && tables[i..][1..] == tables[i + 1..];
  }

  lemma PrependAssoc(a: seq<Table>, b: seq<Table>, r: KeysFixed)
    ensures Prepend(a, Prepend(b, r)) == Prepend(a + b, r)
  {
    assert a + (b + r.tables) == (a + b) + r.tables;
  }

  /** The new constraint of a table that has one: same name, the sorted columns. */
  function SortedKey(t: Table, names: seq<string>): Table
  {
    t.(primaryKey := PrimaryKey(t.primaryKey.name, names))
  }

  /** How the loop of `FixPrimaryKeyOrder` advances its description of the outcome: a
      table without a primary key is passed over, */
  lemma KeysStepSkip(t0: seq<Table>, pkeys: string -> seq<PkRow>, done: seq<Table>, i: nat)
    requires i < |t0| && FixKeys(t0, pkeys) == Prepend(done, FixKeys(t0[i..], pkeys))
    requires |t0[i].primaryKey.columns| == 0
    ensures FixKeys(t0, pkeys) == Prepend(done + [t0[i]], FixKeys(t0[i + 1..], pkeys))
    ensures done + t0[i..] == (done + [t0[i]]) + t0[i + 1..]
  {
    FixKeysAt(t0, pkeys, i);
    PrependAssoc(done, [t0[i]], FixKeys(t0[i + 1..], pkeys));
    assert t0[i..] == [t0[i]] + t0[i + 1..];
    Regroup(done, t0[i], t0[i + 1..]);
  }

  /** an unknown key column ends the pass, */
  lemma KeysStepFail(t0: seq<Table>, pkeys: string -> seq<PkRow>, done: seq<Table>, i: nat, names: seq<string>)
    requires i < |t0| && FixKeys(t0, pkeys) == Prepend(done, FixKeys(t0[i..], pkeys))
    requires |t0[i].primaryKey.columns| > 0 && names == KeyNames(SortByKeySeq(pkeys(t0[i].name)))
    requires FirstMissing(t0[i], names).Some?
    ensures FixKeys(t0, pkeys) == KeysFixed(done + t0[i..], FirstMissing(t0[i], names))
  {
    FixKeysAt(t0, pkeys, i);
  }

  /** and otherwise the table's key is replaced. */
  lemma KeysStepFix(t0: seq<Table>, pkeys: string -> seq<PkRow>, done: seq<Table>, i: nat, names: seq<string>)
    requires i < |t0| && FixKeys(t0, pkeys) == Prepend(done, FixKeys(t0[i..], pkeys))
    requires |t0[i].primaryKey.columns| > 0 && names == KeyNames(SortByKeySeq(pkeys(t0[i].name)))
    requires FirstMissing(t0[i], names).None?
    ensures FixKeys(t0, pkeys) == Prepend(done + [SortedKey(t0[i], names)], FixKeys(t0[i + 1..], pkeys))
    ensures (done + t0[i..])[|done| := SortedKey(t0[i], names)] == (done + [SortedKey(t0[i], names)]) + t0[i + 1..]
  {
    FixKeysAt(t0, pkeys, i);
    PrependAssoc(done, [SortedKey(t0[i], names)], FixKeys(t0[i + 1..], pkeys));
    assert t0[i..] == [t0[i]] + t0[i + 1..];
    SpliceUpdate(done, t0[i], SortedKey(t0[i], names), t0[i + 1..]);
  }

  lemma Regroup(done: seq<Table>, x: Table, rest: seq<Table>)
    ensures done + ([x] + rest) == (done + [x]) + rest
  {
  }

  lemma SpliceUpdate(done: seq<Table>, x: Table, y: Table, rest: seq<Table>)
    ensures (done + ([x] + rest))[|done| := y] == (done + [y]) + rest
  {
  }

  /** `fix_primary_key_order`: for each table with a primary key the `sp_pkeys` rows are
      sorted by key ordinal and the constraint is replaced by one over those columns
      with the old name; the `KeyError` of an unknown column is returned as its name. */
  method FixPrimaryKeyOrder(meta: MetaData, pkeys: string -> seq<PkRow>) returns (failure: Option<string>)
    modifies meta
    ensures FixKeys(old(meta.tables), pkeys) == KeysFixed(meta.tables, failure)
  {
    var tables := meta.tables;
    ghost var t0 := tables;
    ghost var done: seq<Table> := [];
    var i := 0;
    while i < |tables|
      invariant 0 <= i <= |tables| == |t0| && |done| == i
      invariant tables == done + t0[i..]
      invariant FixKeys(t0, pkeys) == Prepend(done, FixKeys(t0[i..], pkeys))
    {
      var table := tables[i];
      assert table == t0[i];
      if |table.primaryKey.columns| > 0 {
        var rows := SortByKeySeq(pkeys(table.name));
        var names := KeyNames(rows);
        var missing := FirstMissing(table, names);
        if missing.Some? {
          KeysStepFail(t0, pkeys, done, i, names);
          meta.tables := tables;
          return missing;
        }
        KeysStepFix(t0, pkeys, done, i, names);
        var fixed := table.(primaryKey := PrimaryKey(table.primaryKey.name, names));
        assert fixed == SortedKey(table, names);
        tables := tables[i := fixed];
        done := done + [fixed];
      } else {
        KeysStepSkip(t0, pkeys, done, i);
        done := done + [table];
      }
      i := i + 1;
    }
    assert tables == done + [];
    meta.tables := tables;
    failure := None;
  }

  /** The unit test's table: columns c1, c2, c3 and `sp_pkeys` ordinals 3, 1, 2 for
      c3, c1, c2 give a constraint `my_pk` over c1, c2, c3. */
  lemma FixtureSortedKey()
    ensures KeyNames(SortByKeySeq([PkRow("c3", 3), PkRow("c1", 1), PkRow("c2", 2)])) == ["c1", "c2", "c3"]
  {
    var rows := [PkRow("c3", 3), PkRow("c1", 1), PkRow("c2", 2)];
    assert rows[1..] == [PkRow("c1", 1), PkRow("c2", 2)] && rows[1..][1..] == [PkRow("c2", 2)];
    assert SortByKeySeq([PkRow("c2", 2)]) == [PkRow("c2", 2)];
    assert SortByKeySeq(rows[1..]) == [PkRow("c1", 1), PkRow("c2", 2)];
    assert Insert(PkRow("c3", 3), [PkRow("c2", 2)]) == [PkRow("c2", 2), PkRow("c3", 3)];
  }
}
