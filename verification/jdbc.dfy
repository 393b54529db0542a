/** An abstract SQL backend as the database manager sees it through JDBC:
    tables with their column types, the index names metadata reports, and
    their rows; statements either change that state or fail with an
    `SQLException` (error code and message). Which statements a server
    refuses, which metadata lookups fail and whether a connection can be
    opened are part of the backend's state, so every failure path of the
    manager can be reached. */
module Jdbc {
  import S = JavaStrings

  /** `SQLException`: vendor error code and (possibly null) message. */
  datatype SqlError = SqlError(code: int, message: S.Option<string>)

  /** A value bound to a statement parameter. */
  datatype SqlValue = SqlText(text: string) | SqlLong(n: int) | SqlNull

  /** One punishment row; `None` is SQL NULL. Both punishment tables share
      this shape. */
  datatype Record = Record(
    name: S.Option<string>,
    uuid: S.Option<string>,
    reason: S.Option<string>,
    operator: S.Option<string>,
    punishmentType: S.Option<string>,
    start: S.Option<int>,
    end: S.Option<int>,
    calculation: S.Option<string>,
    server: S.Option<string>)

  /** Column name to reported TYPE_NAME (which may be null), the
      INDEX_NAME of each index-metadata row (null for the primary key),
      and the rows. */
  datatype Table = Table(columns: map<string, S.Option<string>>, indexNames: seq<S.Option<string>>, rows: seq<Record>)

  /** The statements the manager issues. `CreateTable` and `SelectAll` are
      the stored queries for creating and reading the punishment tables. */
  datatype Stmt =
    | CreateTable(table: string)
    | SelectAll(table: string)
    | ModifyToBigint(table: string, column: string)
    | AddServerColumn(table: string)
    | CreateIndex(name: string, table: string, columns: seq<string>)
    | Insert(table: string, record: Record)
    | ShutdownDb
    | OtherStmt(text: string)

  datatype Executed = Executed(stmt: Stmt, params: map<nat, SqlValue>)

  datatype Connectivity = Reachable | Unreachable(error: SqlError) | NotValid

  datatype Db = Db(
    schema: string,                            // the database the tables live in
    catalog: S.Option<string>,                 // what Connection.getCatalog returns
    tables: map<string, Table>,
    newTableColumns: map<string, S.Option<string>>,  // columns CREATE TABLE gives a new table
    metadataFaults: map<string, SqlError>,     // metadata lookups failing, by table-name argument
    rejected: map<Stmt, SqlError>,             // statements the server refuses
    connectivity: Connectivity,
    running: bool,
    log: seq<Executed>)                        // statements that succeeded, in order

  datatype Result<T> = Ok(value: T) | Err(error: SqlError)

  const Punishments: string := "Punishments"
  const PunishmentHistory: string := "PunishmentHistory"
  const ServerColumn: string := "server"
  const BigintType: string := "BIGINT"
  const ServerColumnType: string := "VARCHAR"

  const DuplicateKeyCode: int := 1061
  const DuplicateColumnCode: int := 1060
  const NoTableCode: int := 1146
  const UnknownColumnCode: int := 1054
  const KeyColumnMissingCode: int := 1072
  const BlobKeyCode: int := 1170

  function NoTableError(table: string): (e: SqlError)
    ensures e.message.Some? && S.Contains(e.message.value, "doesn't exist")
  {
    var m := "Table '" + table + "' doesn't exist";
    S.ContainsSuffix("Table '" + table + "' ", "doesn't exist");
    assert m == "Table '" + table + "' " + "doesn't exist";
    SqlError(NoTableCode, S.Some(m))
  }

  function DuplicateKeyError(name: string): SqlError {
    SqlError(DuplicateKeyCode, S.Some("Duplicate key name '" + name + "'"))
  }

  function BlobKeyError(column: string): SqlError {
    SqlError(BlobKeyCode, S.Some("BLOB/TEXT column '" + column + "' used in key specification without a key length"))
  }

  /** A type MySQL cannot index without a key length (what `LONG` turns into). */
  predicate IsTextType(typeName: string) {
    S.EqualsIgnoreCase(typeName, "MEDIUMTEXT") || S.EqualsIgnoreCase(typeName, "LONGTEXT") ||
    S.EqualsIgnoreCase(typeName, "TEXT")
  }

  predicate HasIndexNamed(names: seq<S.Option<string>>, name: string) {
    exists i :: 0 <= i < |names| && names[i].Some? && S.EqualsIgnoreCase(names[i].value, name)
  }

  /** `DataSource.getConnection` on this backend. */
  function Connect(db: Db): (r: S.Option<SqlError>)
    ensures r.None? <==> db.connectivity.Reachable? && db.running
  {
    if !db.running then S.Some(SqlError(0, S.Some("Database is shut down")))
    else match db.connectivity
      case Reachable => S.None
      case Unreachable(e) => S.Some(e)
      case NotValid => S.Some(SqlError(0, S.Some("Connection is not valid")))
  }

  /** The first of `cols` whose type is a text type. */
  function FirstTextColumn(cols: seq<string>, columns: map<string, S.Option<string>>): (r: S.Option<string>)
    ensures r.Some? ==> r.value in cols && r.value in columns && columns[r.value].Some? && IsTextType(columns[r.value].value)
    ensures r.None? ==> forall c :: c in cols && c in columns && columns[c].Some? ==> !IsTextType(columns[c].value)
  {
    if cols == [] then S.None
    else if cols[0] in columns && columns[cols[0]].Some? && IsTextType(columns[cols[0]].value) then S.Some(cols[0])
    else FirstTextColumn(cols[1..], columns)
  }

  /** The columns the migration's INSERT names, in order. */
  const InsertColumns: seq<string> :=
    ["name", "uuid", "reason", "operator", "punishmentType", "start", "end", "calculation", ServerColumn]

  /** `table` exists and has every column the INSERT names. */
  predicate AcceptsInsert(tables: map<string, Table>, table: string) {
    table in tables && forall c :: c in InsertColumns ==> c in tables[table].columns
  }

  /** The state change a statement makes when the server accepts it. */
  function Apply(db: Db, stmt: Stmt): (r: Result<map<string, Table>>)
    ensures r.Ok? ==> r.value.Keys >= db.tables.Keys
    ensures r.Ok? && !stmt.CreateTable? ==> r.value.Keys == db.tables.Keys
    ensures stmt.Insert? ==> (r.Ok? <==> AcceptsInsert(db.tables, stmt.table))
    ensures r.Ok? && (stmt.SelectAll? || stmt.ShutdownDb? || stmt.OtherStmt?) ==> r.value == db.tables
  {
    match stmt
    case CreateTable(t) =>
      if t in db.tables then Ok(db.tables) else Ok(db.tables[t := Table(db.newTableColumns, [], [])])
    case SelectAll(t) =>
      if t in db.tables then Ok(db.tables) else Err(NoTableError(t))
    case ModifyToBigint(t, c) =>
      if t !in db.tables then Err(NoTableError(t))
      else if c !in db.tables[t].columns then Err(SqlError(UnknownColumnCode, S.Some("Unknown column '" + c + "'")))
      else Ok(db.tables[t := db.tables[t].(columns := db.tables[t].columns[c := S.Some(BigintType)])])
    case AddServerColumn(t) =>
      if t !in db.tables then Err(NoTableError(t))
      else if ServerColumn in db.tables[t].columns then
        Err(SqlError(DuplicateColumnCode, S.Some("Duplicate column name 'server'")))
      else Ok(db.tables[t := db.tables[t].(columns := db.tables[t].columns[ServerColumn := S.Some(ServerColumnType)])])
    case CreateIndex(n, t, cols) => ApplyCreateIndex(db, n, t, cols)
    case Insert(t, rec) =>
      if t !in db.tables then Err(NoTableError(t))
      else if exists c :: c in InsertColumns && c !in db.tables[t].columns then
        Err(SqlError(UnknownColumnCode, S.Some("Unknown column in 'field list'")))
      else Ok(db.tables[t := db.tables[t].(rows := db.tables[t].rows + [rec])])
    case ShutdownDb => Ok(db.tables)
    case OtherStmt(_) => Ok(db.tables)
  }

  /** CREATE INDEX: the table must exist, the name be new (ignoring case),
      every column exist and none be of a text type. */
  function ApplyCreateIndex(db: Db, n: string, t: string, cols: seq<string>): (r: Result<map<string, Table>>)
    ensures r.Ok? ==> t in db.tables && !HasIndexNamed(db.tables[t].indexNames, n) &&
                      r.value == db.tables[t := db.tables[t].(indexNames := db.tables[t].indexNames + [S.Some(n)])]
  {
    if t !in db.tables then Err(NoTableError(t))
    else if HasIndexNamed(db.tables[t].indexNames, n) then Err(DuplicateKeyError(n))
    else if exists c :: c in cols && c !in db.tables[t].columns then
      Err(SqlError(KeyColumnMissingCode, S.Some("Key column doesn't exist in table")))
    else if FirstTextColumn(cols, db.tables[t].columns).Some? then
      Err(BlobKeyError(FirstTextColumn(cols, db.tables[t].columns).value))
    else Ok(db.tables[t := db.tables[t].(indexNames := db.tables[t].indexNames + [S.Some(n)])])
  }

  /** `Statement.execute` of `stmt` with `params` bound: the refused
      statement's error, the server's own error, or the new state with the
      statement logged. */
  function Execute(db: Db, stmt: Stmt, params: map<nat, SqlValue>): (r: Result<Db>)
    ensures r.Ok? ==> r.value.log == db.log + [Executed(stmt, params)]
    ensures r.Ok? ==> r.value.metadataFaults == db.metadataFaults && r.value.rejected == db.rejected &&
                      r.value.connectivity == db.connectivity && r.value.catalog == db.catalog &&
                      r.value.schema == db.schema && r.value.newTableColumns == db.newTableColumns
    ensures r.Ok? ==> r.value.tables.Keys >= db.tables.Keys
    ensures stmt in db.rejected ==> r == Err(db.rejected[stmt])
  {
    if stmt in db.rejected then Err(db.rejected[stmt])
    else match Apply(db, stmt)
      case Err(e) => Err(e)
      case Ok(tables) =>
        Ok(db.(tables := tables, log := db.log + [Executed(stmt, params)],
               running := if stmt == ShutdownDb then false else db.running))
  }

  /** `Statement.executeQuery`: only a select yields rows. */
  function Query(db: Db, stmt: Stmt): (r: Result<seq<Record>>)
    ensures r.Ok? ==> stmt.SelectAll? && stmt.table in db.tables && r.value == db.tables[stmt.table].rows
  {
    if stmt in db.rejected then Err(db.rejected[stmt])
    else match stmt
      case SelectAll(t) => if t in db.tables then Ok(db.tables[t].rows) else Err(NoTableError(t))
      case _ => Err(SqlError(0, S.Some("Statement.executeQuery() cannot issue statements that do not produce result sets.")))
  }

  /** `DatabaseMetaData.getColumns(null, null, table, column)`: no row, or
      the one row whose TYPE_NAME is the column's type. */
  function ColumnInfo(db: Db, table: string, column: string): (r: Result<S.Option<S.Option<string>>>)
    ensures r.Err? <==> table in db.metadataFaults
    ensures r.Ok? ==> (r.value.Some? <==> table in db.tables && column in db.tables[table].columns)
  {
    if table in db.metadataFaults then Err(db.metadataFaults[table])
    else if table in db.tables && column in db.tables[table].columns then Ok(S.Some(db.tables[table].columns[column]))
    else Ok(S.None)
  }

  /** `DatabaseMetaData.getIndexInfo(catalog, null, table, false, false)`:
      the INDEX_NAME column of the result, or the error for a table that
      is not in the catalog searched (null searches the current one). */
  function IndexInfo(db: Db, catalog: S.Option<string>, table: string): (r: Result<seq<S.Option<string>>>)
    ensures table in db.metadataFaults ==> r == Err(db.metadataFaults[table])
    ensures r.Ok? ==> table in db.tables && r.value == db.tables[table].indexNames
  {
    if table in db.metadataFaults then Err(db.metadataFaults[table])
    else if (catalog.None? || catalog == S.Some(db.schema)) && table in db.tables then Ok(db.tables[table].indexNames)
    else Err(NoTableError(table))
  }
}
