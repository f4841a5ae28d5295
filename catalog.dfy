/** The catalog as reflection hands it over: row values, columns, indexes, primary keys,
    tables, and the stored definitions of views, procedures, functions and triggers. */
module Catalog {
  import opened Common

  /** A column value as the driver returns it. */
  datatype Value = IntValue(i: int) | TextValue(s: string) | BinaryValue(b: seq<byte>) | NullValue

  /** A fetched row: column name to value, in column order. */
  type Row = seq<(string, Value)>

  /** The unit the backup file frames: one `fetchmany` result. */
  type Block = seq<Row>

  /** Column types the restore cares about; every other type is carried by name. */
  datatype ColType =
    | TextType(collation: Option<string>, length: Option<nat>)
    | NTextType(length: Option<nat>)
    | OtherType(typeName: string)

  datatype Column = Column(name: string, ctype: ColType, nullable: bool)

  /** An index definition: name, key columns (by name), uniqueness, and the two
      SQL Server options `mssql_clustered` and `mssql_include`. */
  datatype Index = Index(name: string, columns: seq<string>, unique: bool, clustered: bool, included: seq<string>)

  /** A primary-key constraint; a constraint without columns is how the catalog says
      that the table has no primary key (it is then falsy). */
  datatype PrimaryKey = PrimaryKey(name: Option<string>, columns: seq<string>)

  datatype Table = Table(name: string, columns: seq<Column>, indexes: seq<Index>, primaryKey: PrimaryKey)

  /** A stored object (view, procedure, function or trigger): its name, the text that
      creates it, and the names it references (absent for everything but views). */
  datatype ObjectDef = ObjectDef(name: string, definition: string, dependencies: Option<seq<string>>)

  /** `[r[0] for r in rows]`, taken as a list of texts. `None` stands for the exception
      Python raises on a row without columns, and also for a first column that is not
      text, which the listing and `sp_helptext` queries never return. */
  function FirstColumn(rows: seq<Row>): (r: Option<seq<string>>)
    ensures r.Some? <==> forall i :: 0 <= i < |rows| ==> |rows[i]| > 0 && rows[i][0].1.TextValue?
    ensures r.Some? ==> |r.value| == |rows| && forall i :: 0 <= i < |rows| ==> r.value[i] == rows[i][0].1.s
  {
    if rows == [] then Some([])
    else if |rows[0]| == 0 || !rows[0][0].1.TextValue? then None
    else match FirstColumn(rows[1..])
      case None => None
      case Some(rest) => Some([rows[0][0].1.s] + rest)
  }

  function TableNames(tables: seq<Table>): seq<string>
  {
    seq(|tables|, i requires 0 <= i < |tables| => tables[i].name)
  }

  function ObjectNames(objs: seq<ObjectDef>): seq<string>
  {
    seq(|objs|, i requires 0 <= i < |objs| => objs[i].name)
  }

  /** The reflected catalog (`sqlalchemy.MetaData`).  Its tables are changed in place
      by the normalisers of the dump and the text-column fix of the restore; the
      sequence stands for the iteration order of the catalog's table dictionary. */
  class MetaData {
    var tables: seq<Table>

    constructor (tables: seq<Table>)
      ensures this.tables == tables
    {
      this.tables := tables;
    }
  }
}
