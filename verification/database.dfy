/** Persistence setup and schema evolution (`DatabaseManager`), stated over
    the abstract backends of module Jdbc. The pure functions here say what
    each step of `setup` does to a backend; the class at the end performs
    the steps on its fields and is proved against them. */
module DatabaseSchema {
  import S = JavaStrings
  import opened Jdbc

  /** The `.storage` marker file in the data folder. */
  datatype Marker = Absent | Unreadable | Present(content: string)

  /** The text `setup` writes into the marker. */
  function MarkerText(useMySQL: bool): string {
    if useMySQL then "mysql" else "hsqldb"
  }

  /** Whether the marker says the previous run used MySQL: it must exist, be
      readable, and hold "mysql" in any letter case once trimmed. */
  function PreviouslyMySql(marker: Marker): (r: bool)
    ensures !marker.Present? ==> !r
    ensures r ==> |S.Trim(marker.content)| == 5
    ensures r ==> S.Lower(S.Trim(marker.content)) == "mysql"
  {
    marker.Present? && S.EqualsIgnoreCase(S.Trim(marker.content), "mysql")
  }

  /** Reading back the marker `setup` wrote gives the backend it used. */
  lemma MarkerRoundTrip(useMySQL: bool)
    ensures PreviouslyMySql(Present(MarkerText(useMySQL))) == useMySQL
  {
    var text := MarkerText(useMySQL);
    assert S.TrimStart(text) == text;
    assert S.TrimEnd(text) == text;
    if !useMySQL {
      assert |S.Lower(text)| != |S.Lower("mysql")|;
    } else {
      assert S.Lower(text) == S.Lower("mysql");
    }
  }

  /** Surrounding blanks (anything `trim` removes: spaces, tabs, line
      breaks, other control characters) and letter case do not matter. */
  lemma MarkerToleratesPadding(pre: string, content: string, post: string)
    requires S.AllBlank(pre) && S.AllBlank(post)
    requires S.EqualsIgnoreCase(content, "mysql")
    ensures PreviouslyMySql(Present(pre + content + post))
  {
    assert |content| == |S.Lower("mysql")| == 5;
    forall k | 0 <= k < 5
      ensures content[k] > ' '
    {
      assert S.LowerChar(content[k]) == S.Lower("mysql")[k];
    }
    S.TrimPadded(pre, content, post);
  }

  /** The reported type of a column, `None` when table or column is missing. */
  function TypeOf(db: Db, table: string, column: string): S.Option<S.Option<string>> {
    if table in db.tables && column in db.tables[table].columns then S.Some(db.tables[table].columns[column]) else S.None
  }

  /** The rows of a table, empty when it is missing. */
  function RowsOf(db: Db, table: string): seq<Record> {
    if table in db.tables then db.tables[table].rows else []
  }

  function IndexesOf(db: Db, table: string): seq<S.Option<string>> {
    if table in db.tables then db.tables[table].indexNames else []
  }

  function ColumnsOf(db: Db, table: string): map<string, S.Option<string>> {
    if table in db.tables then db.tables[table].columns else map[]
  }

  /** An insert is accepted exactly when its table exists with every
      column the INSERT names and the server does not refuse it; it appends
      its record to that table and nothing else. */
  lemma InsertStep(db: Db, table: string, rec: Record)
    ensures var r := Execute(db, Insert(table, rec), map[]);
            (r.Ok? <==> AcceptsInsert(db.tables, table) && Insert(table, rec) !in db.rejected) &&
            (r.Ok? ==> r.value.tables.Keys == db.tables.Keys &&
                       RowsOf(r.value, table) == RowsOf(db, table) + [rec] &&
                       forall t :: (t != table ==> RowsOf(r.value, t) == RowsOf(db, t)) &&
                                   ColumnsOf(r.value, t) == ColumnsOf(db, t) && IndexesOf(r.value, t) == IndexesOf(db, t))
  {
  }

  /** An accepted CREATE INDEX only appends an index name to its table. */
  lemma CreateIndexStep(db: Db, name: string, table: string, columns: seq<string>, t: string)
    requires Execute(db, CreateIndex(name, table, columns), map[]).Ok?
    ensures var d := Execute(db, CreateIndex(name, table, columns), map[]).value;
            d.tables.Keys == db.tables.Keys && RowsOf(d, t) == RowsOf(db, t) && ColumnsOf(d, t) == ColumnsOf(db, t) &&
            S.StartsWith(IndexesOf(d, t), IndexesOf(db, t))
  {
  }

  // ---------------------------------------------------------------------
  // Column type repair

  /** The column exists and reports a type that cannot be indexed. */
  predicate NeedsRepair(db: Db, table: string, column: string) {
    var reported := TypeOf(db, table, column);
    reported.Some? && reported.value.Some? && IsTextType(reported.value.value)
  }

  /** `fixColumnTypeIfNeeded`: a metadata failure propagates; a text-typed
      column is altered to BIGINT, and a refused ALTER leaves it as it is. */
  function FixColumnTypeIfNeeded(db: Db, table: string, column: string): (r: Result<Db>)
    ensures r.Err? <==> table in db.metadataFaults
    ensures r.Ok? && !NeedsRepair(db, table, column) ==> r.value == db
    ensures r.Ok? && NeedsRepair(db, table, column) && ModifyToBigint(table, column) in db.rejected ==> r.value == db
    ensures r.Ok? && NeedsRepair(db, table, column) && ModifyToBigint(table, column) !in db.rejected ==>
              r.value.tables == db.tables[table := db.tables[table].(columns := db.tables[table].columns[column := S.Some(BigintType)])] &&
              r.value.log == db.log + [Executed(ModifyToBigint(table, column), map[])]
    ensures r.Ok? && NeedsRepair(db, table, column) && ModifyToBigint(table, column) !in db.rejected ==>
              TypeOf(r.value, table, column) == S.Some(S.Some(BigintType))
    ensures r.Ok? ==> SameSetup(db, r.value) && r.value.tables.Keys == db.tables.Keys
    ensures r.Ok? ==> forall t :: RowsOf(r.value, t) == RowsOf(db, t) && IndexesOf(r.value, t) == IndexesOf(db, t)
    ensures r.Ok? ==> forall t, c :: t != table || c != column ==> TypeOf(r.value, t, c) == TypeOf(db, t, c)
  {
    match ColumnInfo(db, table, column)
    case Err(e) => Err(e)
    case Ok(info) =>
      if info.Some? && info.value.Some? && IsTextType(info.value.value) then
        match Execute(db, ModifyToBigint(table, column), map[])
        case Ok(altered) => Ok(altered)
        case Err(_) => Ok(db)
      else Ok(db)
  }

  /** Everything but tables, rows and the statement log is the same. */
  predicate SameSetup(a: Db, b: Db) {
    a.metadataFaults == b.metadataFaults && a.rejected == b.rejected && a.connectivity == b.connectivity &&
    a.catalog == b.catalog && a.schema == b.schema && a.newTableColumns == b.newTableColumns && a.running == b.running
  }

  /** `fixLongColumnsToBigInt`: start and end of both tables, in that order;
      a failed connection or metadata lookup ends the pass. */
  function FixLongColumnsToBigInt(db: Db): (r: Db)
    ensures SameSetup(db, r) && r.tables.Keys == db.tables.Keys
  {
    if Connect(db).Some? then db
    else
      match FixColumnTypeIfNeeded(db, Punishments, "start")
      case Err(_) => db
      case Ok(d1) =>
        match FixColumnTypeIfNeeded(d1, Punishments, "end")
        case Err(_) => d1
        case Ok(d2) =>
          match FixColumnTypeIfNeeded(d2, PunishmentHistory, "start")
          case Err(_) => d2
          case Ok(d3) =>
            match FixColumnTypeIfNeeded(d3, PunishmentHistory, "end")
            case Err(_) => d3
            case Ok(d4) => d4
  }

  predicate IsRepairTarget(table: string, column: string) {
    (table == Punishments || table == PunishmentHistory) && (column == "start" || column == "end")
  }

  /** The pass changes no column other than the four targets, no table's
      rows or indexes, and no table set. */
  lemma FixTouchesOnlyTargets(db: Db, table: string, column: string)
    ensures var after := FixLongColumnsToBigInt(db);
            RowsOf(after, table) == RowsOf(db, table) && IndexesOf(after, table) == IndexesOf(db, table) &&
            after.tables.Keys == db.tables.Keys &&
            (!IsRepairTarget(table, column) ==> TypeOf(after, table, column) == TypeOf(db, table, column))
  {
  }

  predicate FixPassUnobstructed(db: Db) {
    Connect(db).None? && Punishments !in db.metadataFaults && PunishmentHistory !in db.metadataFaults &&
    ModifyToBigint(Punishments, "start") !in db.rejected && ModifyToBigint(Punishments, "end") !in db.rejected &&
    ModifyToBigint(PunishmentHistory, "start") !in db.rejected && ModifyToBigint(PunishmentHistory, "end") !in db.rejected
  }

  /** Without faults, no target needs repair after the pass. */
  lemma FixPassRepairsAll(db: Db)
    requires FixPassUnobstructed(db)
    ensures forall t, c :: IsRepairTarget(t, c) ==> !NeedsRepair(FixLongColumnsToBigInt(db), t, c)
  {
    assert !IsTextType(BigintType) by {
      assert S.Lower(BigintType) != S.Lower("MEDIUMTEXT") by { assert |BigintType| != 10; }
      assert S.Lower(BigintType) != S.Lower("LONGTEXT") by { assert |BigintType| != 8; }
      assert S.Lower(BigintType)[0] != S.Lower("TEXT")[0];
    }
  }

  /** A pass over columns that need no repair issues no statement at all,
      so running the pass a second time changes nothing. */
  lemma FixPassIdempotent(db: Db)
    requires FixPassUnobstructed(db)
    ensures FixLongColumnsToBigInt(FixLongColumnsToBigInt(db)) == FixLongColumnsToBigInt(db)
  {
    FixPassRepairsAll(db);
    FixPassNoOp(FixLongColumnsToBigInt(db));
  }

  /** When no target needs repair the pass changes nothing. */
  lemma FixPassNoOp(db: Db)
    requires Connect(db).None? && Punishments !in db.metadataFaults && PunishmentHistory !in db.metadataFaults
    requires forall t, c :: IsRepairTarget(t, c) ==> !NeedsRepair(db, t, c)
    ensures FixLongColumnsToBigInt(db) == db
  {
    assert IsRepairTarget(Punishments, "start") && IsRepairTarget(Punishments, "end") &&
           IsRepairTarget(PunishmentHistory, "start") && IsRepairTarget(PunishmentHistory, "end");
  }

  /** A refused ALTER is swallowed: the remaining columns are still repaired. */
  lemma FixFailureContinues(db: Db)
    requires Connect(db).None? && Punishments !in db.metadataFaults && PunishmentHistory !in db.metadataFaults
    requires forall t, c :: IsRepairTarget(t, c) ==> NeedsRepair(db, t, c)
    requires ModifyToBigint(Punishments, "start") in db.rejected
    requires forall t, c :: IsRepairTarget(t, c) && (t, c) != (Punishments, "start") ==> ModifyToBigint(t, c) !in db.rejected
    ensures var after := FixLongColumnsToBigInt(db);
            NeedsRepair(after, Punishments, "start") &&
            TypeOf(after, Punishments, "end") == S.Some(S.Some(BigintType)) &&
            TypeOf(after, PunishmentHistory, "start") == S.Some(S.Some(BigintType)) &&
            TypeOf(after, PunishmentHistory, "end") == S.Some(S.Some(BigintType))
  {
    var d1 := FixColumnTypeIfNeeded(db, Punishments, "start").value;
    assert d1 == db;
    assert IsRepairTarget(Punishments, "start") && IsRepairTarget(Punishments, "end") &&
           IsRepairTarget(PunishmentHistory, "start") &&
           IsRepairTarget(PunishmentHistory, "end");
    var r2 := FixColumnTypeIfNeeded(d1, Punishments, "end");
    assert r2.Ok?;
    var d2 := r2.value;
    assert TypeOf(d2, PunishmentHistory, "start") == TypeOf(db, PunishmentHistory, "start");
    var r3 := FixColumnTypeIfNeeded(d2, PunishmentHistory, "start");
    assert r3.Ok?;
    var d3 := r3.value;
    assert TypeOf(d3, PunishmentHistory, "end") == TypeOf(db, PunishmentHistory, "end");
    var r4 := FixColumnTypeIfNeeded(d3, PunishmentHistory, "end");
    assert r4.Ok?;
    var d4 := r4.value;
    assert FixLongColumnsToBigInt(db) == d4;
    assert TypeOf(d4, Punishments, "start") == TypeOf(db, Punishments, "start");
    assert TypeOf(d4, Punishments, "end") == TypeOf(d2, Punishments, "end");
    assert TypeOf(d4, PunishmentHistory, "start") == TypeOf(d3, PunishmentHistory, "start");
  }

  /** A metadata failure on the first table ends the pass before the
      second table is looked at. */
  lemma FixMetadataFailureAborts(db: Db)
    requires Connect(db).None? && Punishments in db.metadataFaults
    ensures FixLongColumnsToBigInt(db) == db
  {
  }

  // ---------------------------------------------------------------------
  // Server column

  function ServerStep(db: Db, table: string): (r: Result<Db>)
    ensures r.Err? <==> table in db.metadataFaults ||
                        (ColumnInfo(db, table, ServerColumn) == Ok(S.None) && Execute(db, AddServerColumn(table), map[]).Err?)
    ensures r.Ok? && table in db.tables && ServerColumn in db.tables[table].columns ==> r.value == db
    ensures r.Ok? ==> table in r.value.tables ==> ServerColumn in r.value.tables[table].columns
    ensures r.Ok? ==> SameSetup(db, r.value) && r.value.tables.Keys == db.tables.Keys
    ensures r.Ok? ==> forall t :: RowsOf(r.value, t) == RowsOf(db, t) && IndexesOf(r.value, t) == IndexesOf(db, t)
    ensures r.Ok? ==> forall t, c :: t != table || c != ServerColumn ==> TypeOf(r.value, t, c) == TypeOf(db, t, c)
  {
    match ColumnInfo(db, table, ServerColumn)
    case Err(e) => Err(e)
    case Ok(info) =>
      if info.Some? then Ok(db)
      else match Execute(db, AddServerColumn(table), map[])
        case Err(e) => Err(e)
        case Ok(d) => Ok(d)
  }

  /** `addServerColumnIfMissing`: each table gains `server` if it lacks it;
      any failure, the ALTER's included, ends the pass. */
  function AddServerColumnIfMissing(db: Db): (r: Db)
    ensures SameSetup(db, r) && r.tables.Keys == db.tables.Keys
    ensures Connect(db).Some? ==> r == db
    ensures forall t :: RowsOf(r, t) == RowsOf(db, t) && IndexesOf(r, t) == IndexesOf(db, t)
    ensures forall t, c :: c != ServerColumn ==> TypeOf(r, t, c) == TypeOf(db, t, c)
  {
    if Connect(db).Some? then db
    else
      match ServerStep(db, Punishments)
      case Err(_) => db
      case Ok(d1) =>
        match ServerStep(d1, PunishmentHistory)
        case Err(_) => d1
        case Ok(d2) => d2
  }

  /** Once both tables have the column, the pass issues nothing. */
  lemma ServerPassNoOp(db: Db)
    requires Punishments in db.tables && ServerColumn in db.tables[Punishments].columns
    requires PunishmentHistory in db.tables && ServerColumn in db.tables[PunishmentHistory].columns
    requires Punishments !in db.metadataFaults && PunishmentHistory !in db.metadataFaults
    ensures AddServerColumnIfMissing(db) == db
  {
  }

  /** Without faults both tables have the column afterwards, and a second
      pass changes nothing. */
  lemma ServerPassIdempotent(db: Db)
    requires Connect(db).None? && Punishments in db.tables && PunishmentHistory in db.tables
    requires Punishments !in db.metadataFaults && PunishmentHistory !in db.metadataFaults
    requires AddServerColumn(Punishments) !in db.rejected && AddServerColumn(PunishmentHistory) !in db.rejected
    ensures var after := AddServerColumnIfMissing(db);
            ServerColumn in after.tables[Punishments].columns &&
            ServerColumn in after.tables[PunishmentHistory].columns &&
            AddServerColumnIfMissing(after) == after
  {
    var d1 := ServerStep(db, Punishments);
    assert d1.Ok?;
    var d2 := ServerStep(d1.value, PunishmentHistory);
    assert d2.Ok?;
    assert AddServerColumnIfMissing(db) == d2.value;
    ServerPassNoOp(d2.value);
  }

  /** Unlike a refused type repair, a refused ADD COLUMN on the first table
      ends the pass: the history table is left without the column. */
  lemma ServerFailureAborts(db: Db)
    requires Connect(db).None? && Punishments in db.tables && Punishments !in db.metadataFaults
    requires ServerColumn !in db.tables[Punishments].columns
    requires AddServerColumn(Punishments) in db.rejected
    ensures AddServerColumnIfMissing(db) == db
  {
  }

  // ---------------------------------------------------------------------
  // Indexes

  /** `indexExists`: a matching INDEX_NAME (ignoring case, nulls skipped);
      a lookup error mentioning "doesn't exist" means no index, any other
      error propagates. */
  function IndexExists(db: Db, catalog: S.Option<string>, table: string, indexName: string): (r: Result<bool>)
    ensures table !in db.metadataFaults && table !in db.tables ==> r == Ok(false)
    ensures r == Ok(true) ==> table in db.tables && HasIndexNamed(db.tables[table].indexNames, indexName)
  {
    match IndexInfo(db, catalog, table)
    case Ok(names) => Ok(HasIndexNamed(names, indexName))
    case Err(e) =>
      if e.message.Some? && S.Contains(e.message.value, "doesn't exist") then Ok(false) else Err(e)
  }

  /** `mySqlIndexExists`: the exact, lower-cased and upper-cased table name
      under the connection's catalog, then the exact name with no catalog. */
  function MySqlIndexExists(db: Db, table: string, indexName: string): (r: Result<bool>)
    ensures r == Ok(true) ==> exists t :: t in db.tables && HasIndexNamed(db.tables[t].indexNames, indexName)
  {
    match IndexExists(db, db.catalog, table, indexName)
    case Err(e) => Err(e)
    case Ok(true) => Ok(true)
    case Ok(false) =>
      match IndexExists(db, db.catalog, S.Lower(table), indexName)
      case Err(e) => Err(e)
      case Ok(true) => Ok(true)
      case Ok(false) =>
        match IndexExists(db, db.catalog, S.Upper(table), indexName)
        case Err(e) => Err(e)
        case Ok(true) => Ok(true)
        case Ok(false) => IndexExists(db, S.None, table, indexName)
  }

  /** How a failed CREATE INDEX is reported; none of them is rethrown. */
  datatype CreateFailure = DuplicateIndex | UnindexableColumn | OtherFailure

  /** The classification of a creation failure, with a null message taken
      as "other". */
  function ClassifyCreateFailure(e: SqlError): (r: CreateFailure)
    ensures e.code == DuplicateKeyCode ==> r == DuplicateIndex
    ensures e.message.Some? && S.Contains(e.message.value, "Duplicate key name") ==> r == DuplicateIndex
    ensures (e.code != DuplicateKeyCode && e.message.Some? && !S.Contains(e.message.value, "Duplicate key name") &&
             S.Contains(e.message.value, "BLOB/TEXT") && S.Contains(e.message.value, "key length")) ==> r == UnindexableColumn
    ensures r == UnindexableColumn ==>
              (e.code != DuplicateKeyCode && e.message.Some? &&
               S.Contains(e.message.value, "BLOB/TEXT") && S.Contains(e.message.value, "key length"))
    ensures e.message.None? && e.code != DuplicateKeyCode ==> r == OtherFailure
  {
    if e.code == DuplicateKeyCode || (e.message.Some? && S.Contains(e.message.value, "Duplicate key name")) then DuplicateIndex
    else if e.message.Some? && S.Contains(e.message.value, "BLOB/TEXT") && S.Contains(e.message.value, "key length") then UnindexableColumn
    else OtherFailure
  }

  /** The classification as the catch block is written: the message is
      searched for "Duplicate key name" before it is checked for null, so
      a failure with another code and no message raises a
      NullPointerException (`None`) that no caller catches. */
  function ClassifyCreateFailureAsWritten(e: SqlError): (r: S.Option<CreateFailure>)
    ensures r.None? <==> e.code != DuplicateKeyCode && e.message.None?
  {
    if e.code == DuplicateKeyCode then S.Some(DuplicateIndex)
    else if e.message.None? then S.None
    else S.Some(ClassifyCreateFailure(e))
  }

  /** The input that shows the difference: a refused CREATE INDEX whose
      exception carries no message. */
  lemma NullMessageEscapes()
    ensures ClassifyCreateFailureAsWritten(SqlError(KeyColumnMissingCode, S.None)).None?
    ensures ClassifyCreateFailure(SqlError(KeyColumnMissingCode, S.None)) == OtherFailure
  {
  }

  /** Wherever the written code does not throw, the corrected
      classification agrees with it. */
  lemma ClassificationAgrees(e: SqlError)
    requires e.code == DuplicateKeyCode || e.message.Some?
    ensures ClassifyCreateFailureAsWritten(e) == S.Some(ClassifyCreateFailure(e))
  {
  }

  /** MySQL's duplicate-index error is recognised as such. */
  lemma DuplicateErrorClassified(name: string)
    ensures ClassifyCreateFailure(DuplicateKeyError(name)) == DuplicateIndex
  {
  }

  /** What ensuring one index came to. `Crashed` is the NullPointerException
      the catch block raises on a failure with no message (see
      `ClassifyCreateFailureAsWritten`). */
  datatype IndexOutcome = AlreadyPresent | Created(verified: bool) | Skipped(failure: CreateFailure) | Crashed

  /** The catch block of `ensureMySqlIndex` on `e`, as written. */
  function FailureOutcome(e: SqlError): (r: IndexOutcome)
    ensures r.Crashed? <==> e.code != DuplicateKeyCode && e.message.None?
    ensures !r.Crashed? ==> r == Skipped(ClassifyCreateFailure(e))
  {
    match ClassifyCreateFailureAsWritten(e)
    case None => Crashed
    case Some(f) => Skipped(f)
  }

  /** `ensureMySqlIndex`: nothing is issued when the index is found;
      otherwise `CREATE INDEX` runs, and its SQLException, or one from the
      verifying lookup after it, is handled by the catch block. An error of
      the first lookup propagates as an SQLException; a failure without a
      message leaves as the catch block's NullPointerException (`Crashed`). */
  function EnsureMySqlIndex(db: Db, table: string, indexName: string, columns: seq<string>): (r: Result<(Db, IndexOutcome)>)
    ensures r.Err? <==> MySqlIndexExists(db, table, indexName).Err?
    ensures MySqlIndexExists(db, table, indexName) == Ok(true) ==> r == Ok((db, AlreadyPresent))
    ensures r.Ok? && r.value.0 != db ==>
              MySqlIndexExists(db, table, indexName) == Ok(false) &&
              Execute(db, CreateIndex(indexName, table, columns), map[]) == Ok(r.value.0)
    ensures r.Ok? ==> SameSetup(db, r.value.0)
    ensures r.Ok? ==> forall t :: RowsOf(r.value.0, t) == RowsOf(db, t) && ColumnsOf(r.value.0, t) == ColumnsOf(db, t) &&
                                  S.StartsWith(IndexesOf(r.value.0, t), IndexesOf(db, t))
    ensures MySqlIndexExists(db, table, indexName) == Ok(false) && Execute(db, CreateIndex(indexName, table, columns), map[]).Err? ==>
              r == Ok((db, FailureOutcome(Execute(db, CreateIndex(indexName, table, columns), map[]).error)))
    ensures MySqlIndexExists(db, table, indexName) == Ok(false) && Execute(db, CreateIndex(indexName, table, columns), map[]).Ok? ==>
              r.Ok? && r.value.0 == Execute(db, CreateIndex(indexName, table, columns), map[]).value &&
              (r.value.1.Created? <==> MySqlIndexExists(r.value.0, table, indexName).Ok?)
  {
    match MySqlIndexExists(db, table, indexName)
    case Err(e) => Err(e)
    case Ok(true) => Ok((db, AlreadyPresent))
    case Ok(false) =>
      match Execute(db, CreateIndex(indexName, table, columns), map[])
      case Err(e) => Ok((db, FailureOutcome(e)))
      case Ok(d) =>
        assert forall t :: RowsOf(d, t) == RowsOf(db, t) && ColumnsOf(d, t) == ColumnsOf(db, t) &&
                           S.StartsWith(IndexesOf(d, t), IndexesOf(db, t)) by {
          forall t ensures RowsOf(d, t) == RowsOf(db, t) && ColumnsOf(d, t) == ColumnsOf(db, t) &&
                           S.StartsWith(IndexesOf(d, t), IndexesOf(db, t)) {
            CreateIndexStep(db, indexName, table, columns, t);
          }
        }
        match MySqlIndexExists(d, table, indexName)
        case Err(e) => Ok((d, FailureOutcome(e)))
        case Ok(found) => Ok((d, Created(found)))
  }

  /** The index lookups can see `table` (right catalog, no faults). */
  predicate IndexLookupClear(db: Db, table: string) {
    table in db.tables && table !in db.metadataFaults &&
    (db.catalog.None? || db.catalog == S.Some(db.schema))
  }

  /** An index already present under the same name, in any letter case,
      makes ensure a no-op. */
  lemma EnsureSkipsExisting(db: Db, table: string, indexName: string, columns: seq<string>)
    requires IndexLookupClear(db, table)
    requires HasIndexNamed(db.tables[table].indexNames, indexName)
    ensures EnsureMySqlIndex(db, table, indexName, columns) == Ok((db, AlreadyPresent))
  {
  }

  /** A wrong catalog does not hide an existing index: the lookup without
      a catalog finds it. */
  lemma EnsureFindsWithoutCatalog(db: Db, table: string, indexName: string, columns: seq<string>)
    requires table in db.tables && HasIndexNamed(db.tables[table].indexNames, indexName)
    requires db.metadataFaults == map[]
    ensures EnsureMySqlIndex(db, table, indexName, columns) == Ok((db, AlreadyPresent))
  {
    var lower := S.Lower(table);
    var upper := S.Upper(table);
    assert MySqlIndexExists(db, table, indexName) == Ok(true) by {
      if IndexExists(db, db.catalog, table, indexName) == Ok(false) &&
         IndexExists(db, db.catalog, lower, indexName) == Ok(false) &&
         IndexExists(db, db.catalog, upper, indexName) == Ok(false) {
        assert IndexExists(db, S.None, table, indexName) == Ok(true);
      }
    }
  }

  /** After ensure has created an index, ensuring it again does nothing. */
  lemma EnsureIdempotent(db: Db, table: string, indexName: string, columns: seq<string>)
    requires IndexLookupClear(db, table)
    requires EnsureMySqlIndex(db, table, indexName, columns).Ok?
    ensures var after := EnsureMySqlIndex(db, table, indexName, columns).value.0;
            EnsureMySqlIndex(after, table, indexName, columns) == Ok((after, AlreadyPresent)) ||
            after == db
  {
    var after := EnsureMySqlIndex(db, table, indexName, columns).value.0;
    if after != db {
      var names := db.tables[table].indexNames + [S.Some(indexName)];
      assert after.tables[table].indexNames == names;
      assert names[|names| - 1] == S.Some(indexName);
      assert HasIndexNamed(names, indexName);
      EnsureSkipsExisting(after, table, indexName, columns);
    }
  }

  /** Ensuring an index the lookups can see is missing, with a CREATE the
      server accepts, installs it and finds it on the verifying lookup. */
  lemma EnsureCreatesMissing(db: Db, table: string, indexName: string, columns: seq<string>)
    requires IndexLookupClear(db, table)
    requires MySqlIndexExists(db, table, indexName) == Ok(false)
    requires Execute(db, CreateIndex(indexName, table, columns), map[]).Ok?
    ensures var r := EnsureMySqlIndex(db, table, indexName, columns);
            r.Ok? && r.value.1 == Created(true) &&
            HasIndexNamed(r.value.0.tables[table].indexNames, indexName)
  {
    var d := Execute(db, CreateIndex(indexName, table, columns), map[]).value;
    var names := db.tables[table].indexNames + [S.Some(indexName)];
    assert d.tables[table].indexNames == names;
    assert names[|names| - 1] == S.Some(indexName);
    assert HasIndexNamed(names, indexName);
    assert IndexExists(d, d.catalog, table, indexName) == Ok(true);
  }

  datatype IndexSpec = IndexSpec(table: string, name: string, columns: seq<string>)

  /** The indexes `createMySqlIndexes` ensures, in order. */
  const IndexPlan: seq<IndexSpec> := [
    IndexSpec(Punishments, "idx_punishments_uuid_type_start", ["uuid", "punishmentType", "start"]),
    IndexSpec(Punishments, "idx_punishments_end", ["end"]),
    IndexSpec(Punishments, "idx_punishments_start", ["start"]),
    IndexSpec(PunishmentHistory, "idx_history_uuid", ["uuid"]),
    IndexSpec(PunishmentHistory, "idx_history_uuid_calculation", ["uuid", "calculation"]),
    IndexSpec(PunishmentHistory, "idx_history_start", ["start"])
  ]

  /** The backend after an index pass, and whether the pass ended with the
      NullPointerException that no caller catches. */
  datatype IndexPass = IndexPass(db: Db, crashed: bool)

  /** Ensures each planned index in turn; a lookup error (an SQLException,
      caught by the caller) or a crash ends the run. */
  function EnsureAll(db: Db, plan: seq<IndexSpec>): (r: IndexPass)
    ensures SameSetup(db, r.db)
    ensures plan == [] ==> r == IndexPass(db, false)
    decreases |plan|
  {
    if plan == [] then IndexPass(db, false)
    else match EnsureMySqlIndex(db, plan[0].table, plan[0].name, plan[0].columns)
      case Err(_) => IndexPass(db, false)
      case Ok((d, outcome)) => if outcome.Crashed? then IndexPass(d, true) else EnsureAll(d, plan[1..])
  }

  /** `createMySqlIndexes`. */
  function CreateMySqlIndexes(db: Db): (r: IndexPass)
    ensures SameSetup(db, r.db)
    ensures Connect(db).Some? ==> r == IndexPass(db, false)
  {
    if Connect(db).Some? then IndexPass(db, false) else EnsureAll(db, IndexPlan)
  }

  /** A backend without any index and without metadata faults: every
      lookup reports the index missing. */
  lemma NoIndexFound(db: Db, table: string, indexName: string)
    requires db.metadataFaults == map[]
    requires forall t :: t in db.tables ==> db.tables[t].indexNames == []
    ensures MySqlIndexExists(db, table, indexName) == Ok(false)
  {
    assert forall c, t :: IndexExists(db, c, t, indexName) == Ok(false) by {
      forall c, t ensures IndexExists(db, c, t, indexName) == Ok(false) {
        if t in db.tables && (c.None? || c == S.Some(db.schema)) {
          assert IndexInfo(db, c, t) == Ok([]);
        } else {
          assert IndexInfo(db, c, t) == Err(NoTableError(t));
        }
      }
    }
  }

  /** The input that shows the NullPointerException: the first planned
      CREATE INDEX refused with code 1072 and no message ends the pass as
      crashed, with no other index ensured. */
  lemma NullMessageStopsIndexPass(db: Db)
    requires Connect(db).None?
    requires MySqlIndexExists(db, Punishments, "idx_punishments_uuid_type_start") == Ok(false)
    requires db.rejected == map[CreateIndex("idx_punishments_uuid_type_start", Punishments, ["uuid", "punishmentType", "start"])
                                := SqlError(KeyColumnMissingCode, S.None)]
    ensures CreateMySqlIndexes(db) == IndexPass(db, true)
  {
    var first := IndexPlan[0];
    assert Execute(db, CreateIndex(first.name, first.table, first.columns), map[]) == Err(SqlError(KeyColumnMissingCode, S.None));
    assert EnsureMySqlIndex(db, first.table, first.name, first.columns) == Ok((db, Crashed));
  }

  /** Indexes are only ever added: no row changes, and every index a table
      had is still there. */
  lemma {:induction false} EnsureAllOnlyAddsIndexes(db: Db, plan: seq<IndexSpec>, table: string)
    ensures var after := EnsureAll(db, plan).db;
            RowsOf(after, table) == RowsOf(db, table) && ColumnsOf(after, table) == ColumnsOf(db, table) &&
            S.StartsWith(IndexesOf(after, table), IndexesOf(db, table))
    decreases |plan|
  {
    if plan != [] {
      var step := EnsureMySqlIndex(db, plan[0].table, plan[0].name, plan[0].columns);
      if step.Ok? && !step.value.1.Crashed? {
        var d := step.value.0;
        assert EnsureAll(db, plan) == EnsureAll(d, plan[1..]);
        EnsureAllOnlyAddsIndexes(d, plan[1..], table);
      }
    }
  }

  // ---------------------------------------------------------------------
  // Statement text

  /** The column list of CREATE INDEX: each name in backquotes, ", "
      between them, in the given order. */
  function ColumnList(columns: seq<string>): string {
    if columns == [] then ""
    else if |columns| == 1 then "`" + columns[0] + "`"
    else ColumnList(columns[..|columns| - 1]) + ", `" + columns[|columns| - 1] + "`"
  }

  function CreateIndexSql(indexName: string, table: string, columns: seq<string>): string {
    "CREATE INDEX `" + indexName + "` ON `" + table + "` (" + ColumnList(columns) + ")"
  }

  /** The StringBuilder loop of `ensureMySqlIndex`. */
  method BuildCreateIndexSql(indexName: string, table: string, columns: seq<string>) returns (sql: string)
    ensures sql == CreateIndexSql(indexName, table, columns)
  {
    sql := "CREATE INDEX `" + indexName + "` ON `" + table + "` (";
    var head := sql;
    var i := 0;
    while i < |columns|
      invariant 0 <= i <= |columns|
      invariant sql == head + ColumnList(columns[..i])
    {
      if i > 0 {
        sql := sql + ", ";
      }
      sql := sql + "`" + columns[i] + "`";
      assert columns[..i + 1][..i] == columns[..i];
      i := i + 1;
    }
    assert columns[..i] == columns;
    sql := sql + ")";
  }

  /** Each column appears in backquotes, in order: the list for a longer
      sequence extends the list for its prefix. */
  lemma ColumnListExtends(columns: seq<string>, column: string)
    requires columns != []
    ensures ColumnList(columns + [column]) == ColumnList(columns) + ", `" + column + "`"
  {
    assert (columns + [column])[..|columns|] == columns;
  }

  // ---------------------------------------------------------------------
  // Migration

  /** `ResultSet.getLong` reads SQL NULL as 0. */
  function LongOrZero(v: S.Option<int>): int {
    if v.Some? then v.value else 0
  }

  /** The row the migration inserts for a source row: the eight fields
      copied, with a null start or end read as 0, and `server` copied when
      the source has one (null otherwise). */
  function MigratedRecord(source: Record): (r: Record)
    ensures r.name == source.name && r.uuid == source.uuid && r.reason == source.reason &&
            r.operator == source.operator && r.punishmentType == source.punishmentType &&
            r.calculation == source.calculation && r.server == source.server
    ensures r.start == S.Some(LongOrZero(source.start)) && r.end == S.Some(LongOrZero(source.end))
  {
    source.(start := S.Some(LongOrZero(source.start)), end := S.Some(LongOrZero(source.end)))
  }

  function MigratedRecords(rows: seq<Record>): (r: seq<Record>)
    ensures |r| == |rows|
    ensures forall i :: 0 <= i < |rows| ==> r[i] == MigratedRecord(rows[i])
  {
    if rows == [] then [] else [MigratedRecord(rows[0])] + MigratedRecords(rows[1..])
  }

  /** Result of copying rows: the target, how many inserts succeeded, and
      the error that stopped the copy. */
  datatype Copy = Copy(target: Db, inserted: nat, error: S.Option<SqlError>)

  /** Inserts the rows one by one into `table`; the first failure stops
      the copy and keeps what was inserted before it. */
  function CopyRows(target: Db, table: string, rows: seq<Record>): (r: Copy)
    ensures r.inserted <= |rows|
    ensures r.error.None? ==> r.inserted == |rows|
    ensures SameSetup(target, r.target)
    decreases |rows|
  {
    if rows == [] then Copy(target, 0, S.None)
    else match Execute(target, Insert(table, MigratedRecord(rows[0])), map[])
      case Err(e) => Copy(target, 0, S.Some(e))
      case Ok(d) =>
        var rest := CopyRows(d, table, rows[1..]);
        Copy(rest.target, rest.inserted + 1, rest.error)
  }

  /** What a copy does to `table`: the migrated rows it inserted are
      appended, in order. */
  lemma {:induction false} CopyRowsAppends(target: Db, table: string, rows: seq<Record>)
    ensures var r := CopyRows(target, table, rows);
            RowsOf(r.target, table) == RowsOf(target, table) + MigratedRecords(rows[..r.inserted])
    decreases |rows|
  {
    var r := CopyRows(target, table, rows);
    if rows == [] || Execute(target, Insert(table, MigratedRecord(rows[0])), map[]).Err? {
      assert r.target == target && r.inserted == 0;
      assert MigratedRecords(rows[..0]) == [];
    } else {
      InsertAppends(target, table, MigratedRecord(rows[0]));
      var d := Execute(target, Insert(table, MigratedRecord(rows[0])), map[]).value;
      var rest := CopyRows(d, table, rows[1..]);
      assert r == Copy(rest.target, rest.inserted + 1, rest.error);
      CopyRowsAppends(d, table, rows[1..]);
      MigratedPrefix(rows, rest.inserted + 1);
      calc {
        RowsOf(r.target, table);
        RowsOf(d, table) + MigratedRecords(rows[1..][..rest.inserted]);
        (RowsOf(target, table) + [MigratedRecord(rows[0])]) + MigratedRecords(rows[1..][..rest.inserted]);
        RowsOf(target, table) + ([MigratedRecord(rows[0])] + MigratedRecords(rows[1..][..rest.inserted]));
        RowsOf(target, table) + MigratedRecords(rows[..r.inserted]);
      }
    }
  }

  /** An accepted insert appends its record to its table. */
  lemma InsertAppends(db: Db, table: string, rec: Record)
    requires Execute(db, Insert(table, rec), map[]).Ok?
    ensures RowsOf(Execute(db, Insert(table, rec), map[]).value, table) == RowsOf(db, table) + [rec]
  {
    InsertStep(db, table, rec);
  }

  /** A copy changes no other table's rows, no columns, no indexes and
      no table set. */
  lemma {:induction false} CopyRowsFrame(target: Db, table: string, rows: seq<Record>, t: string)
    ensures var r := CopyRows(target, table, rows);
            r.target.tables.Keys == target.tables.Keys &&
            (t != table ==> RowsOf(r.target, t) == RowsOf(target, t)) &&
            ColumnsOf(r.target, t) == ColumnsOf(target, t) && IndexesOf(r.target, t) == IndexesOf(target, t)
    decreases |rows|
  {
    if rows != [] {
      InsertStep(target, table, MigratedRecord(rows[0]));
      var step := Execute(target, Insert(table, MigratedRecord(rows[0])), map[]);
      if step.Ok? {
        var d := step.value;
        assert CopyRows(target, table, rows).target == CopyRows(d, table, rows[1..]).target;
        CopyRowsFrame(d, table, rows[1..], t);
      }
    }
  }

  lemma MigratedPrefix(rows: seq<Record>, k: nat)
    requires 0 < k <= |rows|
    ensures MigratedRecords(rows[..k]) == [MigratedRecord(rows[0])] + MigratedRecords(rows[1..][..k - 1])
  {
    assert rows[..k] == [rows[0]] + rows[1..][..k - 1];
  }

  /** A copy that meets no refusal appends every migrated row, in order. */
  lemma {:induction false} CopyAppendsAll(target: Db, table: string, rows: seq<Record>)
    requires AcceptsInsert(target.tables, table)
    requires forall i :: 0 <= i < |rows| ==> Insert(table, MigratedRecord(rows[i])) !in target.rejected
    ensures CopyRows(target, table, rows).error.None?
    ensures RowsOf(CopyRows(target, table, rows).target, table) == RowsOf(target, table) + MigratedRecords(rows)
    decreases |rows|
  {
    if rows != [] {
      InsertStep(target, table, MigratedRecord(rows[0]));
      var d := Execute(target, Insert(table, MigratedRecord(rows[0])), map[]).value;
      forall i | 0 <= i < |rows[1..]|
        ensures Insert(table, MigratedRecord(rows[1..][i])) !in d.rejected
      {
        assert rows[1..][i] == rows[i + 1];
      }
      CopyAppendsAll(d, table, rows[1..]);
    }
    CopyRowsAppends(target, table, rows);
    assert rows[..|rows|] == rows;
  }

  /** How a migration ended. */
  datatype MigrationOutcome =
    | TargetHasData
    | NoSourceData
    | SourceUnavailable
    | Aborted(error: SqlError, punishments: nat, history: nat)
    | Completed(punishments: nat, history: nat)

  /** Whether the target's active table holds a row; a failed connection
      or query counts as empty. */
  function TargetHasRows(target: Db): (r: bool)
    ensures r ==> Connect(target).None? && Punishments in target.tables && |target.tables[Punishments].rows| > 0
    ensures (Connect(target).None? && SelectAll(Punishments) !in target.rejected &&
             Punishments in target.tables && |target.tables[Punishments].rows| > 0) ==> r
  {
    if Connect(target).Some? then false
    else match Query(target, SelectAll(Punishments))
      case Ok(rows) => |rows| > 0
      case Err(_) => false
  }

  /** `migrateFromHSQLDBToMySQL`: the target after the copy and how it ended.
      `scriptExists` is whether `data/storage.script` exists, `sourceConfigured`
      whether the HSQLDB data source could be built. */
  function Migrate(target: Db, source: Db, scriptExists: bool, sourceConfigured: bool): (r: (Db, MigrationOutcome))
    ensures r.1.TargetHasData? || r.1.NoSourceData? || r.1.SourceUnavailable? ==> r.0 == target
    ensures r.1.Completed? ==> SameSetup(target, r.0)
  {
    if TargetHasRows(target) then (target, TargetHasData)
    else if !scriptExists then (target, NoSourceData)
    else if !sourceConfigured then (target, SourceUnavailable)
    else match Connect(source)
      case Some(e) => (target, Aborted(e, 0, 0))
      case None =>
        match Connect(target)
        case Some(e) => (target, Aborted(e, 0, 0))
        case None =>
          match Query(source, SelectAll(Punishments))
          case Err(e) => (target, Aborted(e, 0, 0))
          case Ok(active) =>
            var first := CopyRows(target, Punishments, active);
            if first.error.Some? then (first.target, Aborted(first.error.value, first.inserted, 0))
            else match Query(source, SelectAll(PunishmentHistory))
              case Err(e) => (first.target, Aborted(e, first.inserted, 0))
              case Ok(history) =>
                var second := CopyRows(first.target, PunishmentHistory, history);
                if second.error.Some? then (second.target, Aborted(second.error.value, first.inserted, second.inserted))
                else (second.target, Completed(first.inserted, second.inserted))
  }

  /** A target that already has active punishments, or a missing HSQLDB
      script, means no insert at all. */
  lemma MigrationSkipped(target: Db, source: Db, scriptExists: bool, sourceConfigured: bool)
    requires TargetHasRows(target) || !scriptExists
    ensures Migrate(target, source, scriptExists, sourceConfigured).0 == target
  {
  }

  /** A migration without refusals copies every active row and then every
      history row, once each, and its counters are those numbers. */
  lemma MigrationCopiesAll(target: Db, source: Db)
    requires !TargetHasRows(target) && Connect(source).None? && Connect(target).None?
    requires Punishments in source.tables && PunishmentHistory in source.tables
    requires SelectAll(Punishments) !in source.rejected && SelectAll(PunishmentHistory) !in source.rejected
    requires AcceptsInsert(target.tables, Punishments) && AcceptsInsert(target.tables, PunishmentHistory)
    requires forall r :: Insert(Punishments, r) !in target.rejected && Insert(PunishmentHistory, r) !in target.rejected
    ensures var (after, outcome) := Migrate(target, source, true, true);
            outcome == Completed(|source.tables[Punishments].rows|, |source.tables[PunishmentHistory].rows|) &&
            RowsOf(after, Punishments) == RowsOf(target, Punishments) + MigratedRecords(RowsOf(source, Punishments)) &&
            RowsOf(after, PunishmentHistory) == RowsOf(target, PunishmentHistory) + MigratedRecords(RowsOf(source, PunishmentHistory))
  {
    var active := source.tables[Punishments].rows;
    var history := source.tables[PunishmentHistory].rows;
    assert Query(source, SelectAll(Punishments)) == Ok(active);
    assert Query(source, SelectAll(PunishmentHistory)) == Ok(history);
    CopyAppendsAll(target, Punishments, active);
    var first := CopyRows(target, Punishments, active);
    CopyRowsFrame(target, Punishments, active, PunishmentHistory);
    assert forall i :: 0 <= i < |history| ==> Insert(PunishmentHistory, MigratedRecord(history[i])) !in first.target.rejected;
    CopyAppendsAll(first.target, PunishmentHistory, history);
    var second := CopyRows(first.target, PunishmentHistory, history);
    CopyRowsFrame(first.target, PunishmentHistory, history, Punishments);
    assert Migrate(target, source, true, true) == (second.target, Completed(first.inserted, second.inserted));
  }

  /** The first refused insert stops the copy: the rows before it stay
      inserted (no rollback) and the history is not copied. */
  lemma MigrationStopsAtFirstError(target: Db, source: Db, k: nat)
    requires !TargetHasRows(target) && Connect(source).None? && Connect(target).None?
    requires Punishments in source.tables && SelectAll(Punishments) !in source.rejected
    requires AcceptsInsert(target.tables, Punishments)
    requires k < |source.tables[Punishments].rows|
    requires forall i :: 0 <= i < k ==> Insert(Punishments, MigratedRecord(source.tables[Punishments].rows[i])) !in target.rejected
    requires Insert(Punishments, MigratedRecord(source.tables[Punishments].rows[k])) in target.rejected
    ensures var (after, outcome) := Migrate(target, source, true, true);
            outcome.Aborted? && outcome.punishments == k && outcome.history == 0 &&
            RowsOf(after, Punishments) == RowsOf(target, Punishments) + MigratedRecords(source.tables[Punishments].rows[..k])
  {
    var active := source.tables[Punishments].rows;
    CopyStopsAt(target, Punishments, active, k);
  }

  lemma {:induction false} CopyStopsAt(target: Db, table: string, rows: seq<Record>, k: nat)
    requires AcceptsInsert(target.tables, table) && k < |rows|
    requires forall i :: 0 <= i < k ==> Insert(table, MigratedRecord(rows[i])) !in target.rejected
    requires Insert(table, MigratedRecord(rows[k])) in target.rejected
    ensures var c := CopyRows(target, table, rows);
            c.error.Some? && c.inserted == k &&
            RowsOf(c.target, table) == RowsOf(target, table) + MigratedRecords(rows[..k])
    decreases k
  {
    InsertStep(target, table, MigratedRecord(rows[0]));
    if k > 0 {
      var d := Execute(target, Insert(table, MigratedRecord(rows[0])), map[]).value;
      forall i | 0 <= i < k - 1
        ensures Insert(table, MigratedRecord(rows[1..][i])) !in d.rejected
      {
        assert rows[1..][i] == rows[i + 1];
      }
      assert rows[1..][k - 1] == rows[k];
      CopyStopsAt(d, table, rows[1..], k - 1);
    }
    CopyRowsAppends(target, table, rows);
  }

  /** A target table without the `server` column (an ADD COLUMN that
      failed) refuses the nine-column INSERT: the migration aborts on the
      first row with nothing inserted. */
  lemma MissingServerColumnAborts(target: Db, source: Db)
    requires !TargetHasRows(target) && Connect(source).None? && Connect(target).None?
    requires Punishments in source.tables && SelectAll(Punishments) !in source.rejected
    requires |source.tables[Punishments].rows| > 0
    requires Punishments in target.tables && ServerColumn !in target.tables[Punishments].columns
    requires Insert(Punishments, MigratedRecord(source.tables[Punishments].rows[0])) !in target.rejected
    ensures var (after, outcome) := Migrate(target, source, true, true);
            after == target && outcome.Aborted? && outcome.error.code == UnknownColumnCode &&
            outcome.punishments == 0 && outcome.history == 0
  {
    assert ServerColumn in InsertColumns;
    assert !AcceptsInsert(target.tables, Punishments);
  }
}
