/** The database manager object (`DatabaseManager`): it holds the pool it
    opened, whether MySQL is in use and whether the row-set factory exists,
    and acts on the two backends and the `.storage` marker file. The
    functions `AfterStatement`, `AfterSetup`, `AfterMigration` and
    `AfterShutdown` say what each public operation does to a `Manager`
    snapshot; the class performs the same steps on its fields and each
    method is proved against its function. */
module DatabaseManagement {
  import S = JavaStrings
  import VC = VelocityConfig
  import DS = DataSource
  import Schema = DatabaseSchema
  import opened Jdbc

  /** The pool `setup` opened: which backend it reaches, the settings it
      was built from, and whether it is still open. */
  datatype Pool = Pool(mysqlBackend: bool, settings: DS.PoolSettings, open: bool)

  /** What `setup` reads from outside: the MySQL configuration file, the
      data folder, the loadable driver classes, whether the marker file can
      be written and whether `data/storage.script` exists. */
  datatype Environment = Environment(
    mysqlFile: VC.Value,
    dataFolder: string,
    drivers: set<string>,
    markerWritable: bool,
    storageScriptExists: bool)

  /** Where `setup` returned: the data source could not be configured, the
      test connection failed, the index pass threw the NullPointerException
      that nothing in `setup` catches, or setup ran to the end (with the
      outcome of the migration, when one was attempted). */
  datatype SetupOutcome =
    | ConfigFailed(configError: DS.ConfigError)
    | ConnectionFailed(connectionError: SqlError)
    | Crashed
    | Ready(migration: S.Option<Schema.MigrationOutcome>)

  /** `shutdown` either closes the pool or, when there is none, fails with
      a NullPointerException at `dataSource.close()`. */
  datatype ShutdownOutcome = Closed | NullDataSource

  /** A snapshot of the manager and of what it acts on. */
  datatype Manager = Manager(
    dataSource: S.Option<Pool>,
    useMySQL: bool,
    factoryCreated: bool,
    mysql: Db,
    hsqldb: Db,
    marker: Schema.Marker)

  /** The backend the pool reaches. */
  function Pooled(m: Manager): Db
    requires m.dataSource.Some?
  {
    if m.dataSource.value.mysqlBackend then m.mysql else m.hsqldb
  }

  function WithPooled(m: Manager, d: Db): (r: Manager)
    requires m.dataSource.Some?
    ensures r.dataSource == m.dataSource && Pooled(r) == d
  {
    if m.dataSource.value.mysqlBackend then m.(mysql := d) else m.(hsqldb := d)
  }

  /** `dataSource.getConnection()`: a closed pool refuses, otherwise the
      backend decides. */
  function Acquire(m: Manager): (r: S.Option<SqlError>)
    requires m.dataSource.Some?
    ensures r.None? <==> m.dataSource.value.open && Connect(Pooled(m)).None?
  {
    if !m.dataSource.value.open then S.Some(SqlError(0, S.Some("Pool has been closed")))
    else Connect(Pooled(m))
  }

  /** Parameters bound with `setObject(i + 1, parameters[i])`. */
  function Positional(parameters: seq<SqlValue>): (r: map<nat, SqlValue>)
    ensures forall k :: k in r <==> 1 <= k <= |parameters|
    ensures forall k :: k in r ==> r[k] == parameters[k - 1]
  {
    if parameters == [] then map[]
    else Positional(parameters[..|parameters| - 1])[|parameters| := parameters[|parameters| - 1]]
  }

  /** `executeStatement(sql, result, parameters)`: nothing without a pool
      or a connection; a query creates the row-set factory and returns the
      rows (null on failure); any other statement updates the pooled
      backend when it succeeds. Errors are logged, never thrown. */
  function AfterStatement(m: Manager, stmt: Stmt, parameters: seq<SqlValue>, result: bool): (r: (Manager, S.Option<seq<Record>>))
    ensures r.0.dataSource == m.dataSource && r.0.useMySQL == m.useMySQL && r.0.marker == m.marker
  {
    if m.dataSource.None? || Acquire(m).Some? then (m, S.None)
    else if result then
      (m.(factoryCreated := true),
       match Query(Pooled(m), stmt)
       case Ok(rows) => S.Some(rows)
       case Err(_) => S.None)
    else
      match Execute(Pooled(m), stmt, Positional(parameters))
      case Ok(d) => (WithPooled(m, d), S.None)
      case Err(_) => (m, S.None)
  }

  /** Rows come back only from a query of an existing table, and they are
      that table's rows; a query changes nothing but the factory flag; and
      without a pool or a connection nothing changes. */
  lemma StatementOutcomes(m: Manager, stmt: Stmt, parameters: seq<SqlValue>, result: bool)
    ensures var r := AfterStatement(m, stmt, parameters, result);
            r.1.Some? ==> result && m.dataSource.Some? && stmt.SelectAll? &&
                          stmt.table in Pooled(m).tables && r.1.value == Pooled(m).tables[stmt.table].rows
    ensures !result ==> AfterStatement(m, stmt, parameters, result).1.None?
    ensures result ==> var after := AfterStatement(m, stmt, parameters, result).0;
                       after == m || after == m.(factoryCreated := true)
    ensures m.dataSource.None? || Acquire(m).Some? ==> AfterStatement(m, stmt, parameters, result) == (m, S.None)
  {
  }

  /** A statement the backend accepts is recorded with its parameters
      bound from position 1, and nothing but the pooled backend changes. */
  lemma StatementLogged(m: Manager, stmt: Stmt, parameters: seq<SqlValue>)
    requires m.dataSource.Some? && Acquire(m).None? && Execute(Pooled(m), stmt, Positional(parameters)).Ok?
    ensures var after := AfterStatement(m, stmt, parameters, false).0;
            Pooled(after).log == Pooled(m).log + [Executed(stmt, Positional(parameters))]
    ensures var after := AfterStatement(m, stmt, parameters, false).0;
            (m.dataSource.value.mysqlBackend ==> after.hsqldb == m.hsqldb) &&
            (!m.dataSource.value.mysqlBackend ==> after.mysql == m.mysql) &&
            after.factoryCreated == m.factoryCreated
  {
  }

  /** The three MySQL passes of `setup`, in order, and whether the index
      pass crashed. */
  function MySqlPasses(m: Manager): (Manager, bool) {
    var pass := Schema.CreateMySqlIndexes(Schema.AddServerColumnIfMissing(Schema.FixLongColumnsToBigInt(m.mysql)));
    (m.(mysql := pass.db), pass.crashed)
  }

  /** `migrateFromHSQLDBToMySQL`: the target check goes through
      `executeResultStatement` (creating the row-set factory), the rest is
      `Schema.Migrate` with the HSQLDB source built as
      `new DynamicDataSource(false)` builds it. */
  function AfterMigration(m: Manager, env: Environment): (r: (Manager, Schema.MigrationOutcome))
    requires m.dataSource.Some? && m.dataSource.value.mysqlBackend
    ensures r.0 == m.(mysql := r.0.mysql, factoryCreated := r.0.factoryCreated)
    ensures (m.dataSource.value.open && Connect(m.mysql).None?) ==> r.0.factoryCreated
    ensures r.1.TargetHasData? || r.1.NoSourceData? || r.1.SourceUnavailable? ==> r.0.mysql == m.mysql
    ensures !env.storageScriptExists ==> r.0.mysql == m.mysql
  {
    var m1 := AfterStatement(m, SelectAll(Punishments), [], true).0;
    var sourceConfigured := DS.Configure(false, env.mysqlFile, env.dataFolder, env.drivers).Ok?;
    var (target, outcome) := Schema.Migrate(m1.mysql, m1.hsqldb, env.storageScriptExists, sourceConfigured);
    (m1.(mysql := target), outcome)
  }

  /** The schema phase of `setup`: both tables created, then the MySQL
      passes when MySQL is in use; the flag is the index pass's crash. */
  function SchemaSteps(m: Manager): (r: (Manager, bool))
    requires m.dataSource.Some?
    ensures r.0.dataSource == m.dataSource && r.0.useMySQL == m.useMySQL && r.0.marker == m.marker
    ensures r.1 ==> m.useMySQL
  {
    var m3 := AfterStatement(m, CreateTable(Punishments), [], false).0;
    var m4 := AfterStatement(m3, CreateTable(PunishmentHistory), [], false).0;
    if m.useMySQL then MySqlPasses(m4) else (m4, false)
  }

  /** The end of `setup`: the migration when switching to MySQL, then the
      marker. */
  function FinishSetup(m: Manager, previous: bool, env: Environment): (r: (Manager, SetupOutcome))
    requires m.dataSource.Some? && m.dataSource.value.mysqlBackend == m.useMySQL
    ensures r.1.Ready? && (r.1.migration.Some? <==> m.useMySQL && !previous)
    ensures env.markerWritable ==> r.0.marker == Schema.Present(Schema.MarkerText(m.useMySQL))
    ensures !env.markerWritable ==> r.0.marker == m.marker
    ensures r.0.dataSource == m.dataSource && r.0.useMySQL == m.useMySQL && r.0.hsqldb == m.hsqldb
    ensures !(m.useMySQL && !previous) ==> r.0.mysql == m.mysql
  {
    var (m6, migration) :=
      if m.useMySQL && !previous then
        var (mm, o) := AfterMigration(m, env); (mm, S.Some(o))
      else (m, S.None);
    var m7 := if env.markerWritable then m6.(marker := Schema.Present(Schema.MarkerText(m.useMySQL))) else m6;
    (m7, Ready(migration))
  }

  /** `setup(useMySQLServer)`. */
  function AfterSetup(m: Manager, useMySQLServer: bool, env: Environment): (r: (Manager, SetupOutcome))
    ensures r.0.useMySQL == useMySQLServer
    ensures r.1.ConfigFailed? <==> DS.Configure(useMySQLServer, env.mysqlFile, env.dataFolder, env.drivers).Err?
    ensures r.1.ConfigFailed? ==> r.0 == m.(useMySQL := useMySQLServer)
    ensures !r.1.ConfigFailed? ==> r.0.dataSource.Some? && r.0.dataSource.value.mysqlBackend == useMySQLServer
    ensures !r.1.Ready? ==> r.0.marker == m.marker
    ensures r.1.Crashed? ==> useMySQLServer
  {
    var previous := Schema.PreviouslyMySql(m.marker);
    var m1 := m.(useMySQL := useMySQLServer);
    match DS.Configure(useMySQLServer, env.mysqlFile, env.dataFolder, env.drivers)
    case Err(e) => (m1, ConfigFailed(e))
    case Ok(settings) =>
      var m2 := m1.(dataSource := S.Some(Pool(useMySQLServer, settings, true)));
      match Acquire(m2)
      case Some(e) => (m2, ConnectionFailed(e))
      case None =>
        var (m3, crashed) := SchemaSteps(m2);
        if crashed then (m3, Crashed) else FinishSetup(m3, previous, env)
  }

  /** `shutdown()`: an HSQLDB in use is sent SHUTDOWN (any failure is
      logged, a missing pool included), then the pool is closed. */
  function AfterShutdown(m: Manager): (r: (Manager, ShutdownOutcome))
    ensures r.1 == NullDataSource <==> m.dataSource.None?
    ensures r.1 == Closed ==> r.0.dataSource == S.Some(m.dataSource.value.(open := false))
    ensures r.0.mysql == m.mysql || !m.useMySQL
  {
    var m1 :=
      if !m.useMySQL && m.dataSource.Some? && Acquire(m).None? then
        match Execute(Pooled(m), ShutdownDb, map[])
        case Ok(d) => WithPooled(m, d)
        case Err(_) => m
      else m;
    if m1.dataSource.None? then (m1, NullDataSource)
    else (m1.(dataSource := S.Some(m1.dataSource.value.(open := false))), Closed)
  }

  /** `isConnectionValid()`: whether the pool is running; `None` is the
      NullPointerException when setup never built one. */
  function ConnectionValid(m: Manager): (r: S.Option<bool>)
    ensures r.None? <==> m.dataSource.None?
    ensures r == S.Some(true) ==> m.dataSource.value.open
  {
    if m.dataSource.None? then S.None else S.Some(m.dataSource.value.open)
  }

  /** A setup that ran to the end and could write the marker leaves a
      marker that reads back as the backend it chose. */
  lemma SetupRecordsBackend(m: Manager, useMySQLServer: bool, env: Environment)
    requires env.markerWritable
    ensures var (after, outcome) := AfterSetup(m, useMySQLServer, env);
            outcome.Ready? ==> Schema.PreviouslyMySql(after.marker) == useMySQLServer
  {
    Schema.MarkerRoundTrip(useMySQLServer);
    var config := DS.Configure(useMySQLServer, env.mysqlFile, env.dataFolder, env.drivers);
    if config.Ok? {
      var m2 := m.(useMySQL := useMySQLServer, dataSource := S.Some(Pool(useMySQLServer, config.value, true)));
      if Acquire(m2).None? && !SchemaSteps(m2).1 {
        var m3 := SchemaSteps(m2).0;
        assert AfterSetup(m, useMySQLServer, env) == FinishSetup(m3, Schema.PreviouslyMySql(m.marker), env);
      }
    }
  }

  /** The migration is attempted at most once: after a completed MySQL
      setup that wrote its marker, the next MySQL setup does not migrate. */
  lemma MigrationAttemptedOnce(m: Manager, env: Environment)
    requires env.markerWritable
    ensures var first := AfterSetup(m, true, env);
            first.1.Ready? ==> var second := AfterSetup(first.0, true, env).1;
                               second.Ready? ==> second.migration.None?
  {
    var first := AfterSetup(m, true, env);
    if first.1.Ready? {
      SetupRecordsBackend(m, true, env);
      assert Schema.PreviouslyMySql(first.0.marker);
      MigrationNeedsHsqlMarker(first.0, true, env);
    }
  }

  /** A setup migrates only when the marker did not name MySQL. */
  lemma MigrationNeedsHsqlMarker(m: Manager, useMySQLServer: bool, env: Environment)
    ensures var outcome := AfterSetup(m, useMySQLServer, env).1;
            outcome.Ready? && outcome.migration.Some? ==> useMySQLServer && !Schema.PreviouslyMySql(m.marker)
  {
    var previous := Schema.PreviouslyMySql(m.marker);
    var m1 := m.(useMySQL := useMySQLServer);
    var config := DS.Configure(useMySQLServer, env.mysqlFile, env.dataFolder, env.drivers);
    if config.Ok? {
      var m2 := m1.(dataSource := S.Some(Pool(useMySQLServer, config.value, true)));
      if Acquire(m2).None? && !SchemaSteps(m2).1 {
        var m3 := SchemaSteps(m2).0;
        assert AfterSetup(m, useMySQLServer, env) == FinishSetup(m3, previous, env);
        assert m3.useMySQL == useMySQLServer;
      }
    }
  }

  /** CREATE TABLE changes no table's rows: an existing table is kept and a
      new one starts empty. */
  lemma CreateTableKeepsRows(db: Db, table: string, t: string)
    requires Execute(db, CreateTable(table), map[]).Ok?
    ensures Schema.RowsOf(Execute(db, CreateTable(table), map[]).value, t) == Schema.RowsOf(db, t)
  {
  }

  /** On a MySQL pool, CREATE TABLE leaves every table's rows and the
      HSQLDB backend as they were. */
  lemma CreateTableStatementKeepsRows(m: Manager, table: string, t: string)
    requires m.dataSource.Some? && m.dataSource.value.mysqlBackend
    ensures var after := AfterStatement(m, CreateTable(table), [], false).0;
            Schema.RowsOf(after.mysql, t) == Schema.RowsOf(m.mysql, t) && after.hsqldb == m.hsqldb
  {
    if Acquire(m).None? && Execute(m.mysql, CreateTable(table), map[]).Ok? {
      CreateTableKeepsRows(m.mysql, table, t);
    }
  }

  /** The schema phase on MySQL changes no table's rows. */
  lemma SchemaStepsKeepRows(m: Manager, t: string)
    requires m.dataSource.Some? && m.dataSource.value.mysqlBackend && m.useMySQL
    ensures Schema.RowsOf(SchemaSteps(m).0.mysql, t) == Schema.RowsOf(m.mysql, t) && SchemaSteps(m).0.hsqldb == m.hsqldb
  {
    var m3 := AfterStatement(m, CreateTable(Punishments), [], false).0;
    var m4 := AfterStatement(m3, CreateTable(PunishmentHistory), [], false).0;
    CreateTableStatementKeepsRows(m, Punishments, t);
    CreateTableStatementKeepsRows(m3, PunishmentHistory, t);
    var d2 := Schema.AddServerColumnIfMissing(Schema.FixLongColumnsToBigInt(m4.mysql));
    Schema.FixTouchesOnlyTargets(m4.mysql, t, ServerColumn);
    Schema.EnsureAllOnlyAddsIndexes(d2, Schema.IndexPlan, t);
  }

  /** A setup ended by the index pass's NullPointerException never reaches
      the migration or the marker: the marker, the HSQLDB backend and every
      MySQL table's rows are as they were. */
  lemma IndexCrashEndsSetup(m: Manager, useMySQLServer: bool, env: Environment)
    ensures var (after, outcome) := AfterSetup(m, useMySQLServer, env);
            outcome.Crashed? ==>
              useMySQLServer && after.marker == m.marker && after.hsqldb == m.hsqldb &&
              forall t :: Schema.RowsOf(after.mysql, t) == Schema.RowsOf(m.mysql, t)
  {
    var config := DS.Configure(useMySQLServer, env.mysqlFile, env.dataFolder, env.drivers);
    if config.Ok? && useMySQLServer {
      var m2 := m.(useMySQL := true, dataSource := S.Some(Pool(true, config.value, true)));
      if Acquire(m2).None? && SchemaSteps(m2).1 {
        assert AfterSetup(m, useMySQLServer, env) == (SchemaSteps(m2).0, Crashed);
        forall t
          ensures Schema.RowsOf(SchemaSteps(m2).0.mysql, t) == Schema.RowsOf(m.mysql, t)
        {
          SchemaStepsKeepRows(m2, t);
        }
        SchemaStepsKeepRows(m2, Punishments);
      }
    }
  }

  /** The NullPointerException in setup: on MySQL, with both tables in
      place, nothing to repair, the `server` column present and no index
      yet, a first CREATE INDEX refused with code 1072 and no message ends
      setup as `Crashed`, with the marker left as it was. */
  lemma SetupCrashesOnNullMessage(m: Manager, env: Environment)
    requires DS.Configure(true, env.mysqlFile, env.dataFolder, env.drivers).Ok?
    requires Connect(m.mysql).None? && m.mysql.metadataFaults == map[]
    requires Punishments in m.mysql.tables && PunishmentHistory in m.mysql.tables
    requires forall t :: t in m.mysql.tables ==> m.mysql.tables[t].indexNames == []
    requires ServerColumn in m.mysql.tables[Punishments].columns && ServerColumn in m.mysql.tables[PunishmentHistory].columns
    requires forall t, c :: Schema.IsRepairTarget(t, c) ==> !Schema.NeedsRepair(m.mysql, t, c)
    requires m.mysql.rejected == map[CreateIndex("idx_punishments_uuid_type_start", Punishments, ["uuid", "punishmentType", "start"])
                                     := SqlError(KeyColumnMissingCode, S.None)]
    ensures var (after, outcome) := AfterSetup(m, true, env);
            outcome == Crashed && after.marker == m.marker
  {
    var config := DS.Configure(true, env.mysqlFile, env.dataFolder, env.drivers);
    var m2 := m.(useMySQL := true, dataSource := S.Some(Pool(true, config.value, true)));
    assert Acquire(m2).None?;
    var m3 := AfterStatement(m2, CreateTable(Punishments), [], false).0;
    assert m3.mysql.tables == m.mysql.tables;
    var m4 := AfterStatement(m3, CreateTable(PunishmentHistory), [], false).0;
    assert m4.mysql.tables == m.mysql.tables;
    Schema.FixPassNoOp(m4.mysql);
    Schema.ServerPassNoOp(m4.mysql);
    Schema.NoIndexFound(m4.mysql, Punishments, "idx_punishments_uuid_type_start");
    Schema.NullMessageStopsIndexPass(m4.mysql);
    assert SchemaSteps(m2) == (m4, true);
  }

  /** Without either MySQL driver, setup stops before opening a pool;
      only the chosen backend is remembered. */
  lemma SetupWithoutDriver(m: Manager, env: Environment)
    requires DS.ModernMySqlDriver !in env.drivers && DS.LegacyMySqlDriver !in env.drivers
    ensures AfterSetup(m, true, env) == (m.(useMySQL := true), ConfigFailed(DS.ClassNotFound(DS.LegacyMySqlDriver)))
  {
  }

  /** A failed test connection returns before any statement: the backends
      and the marker are as they were. */
  lemma SetupConnectionFailure(m: Manager, useMySQLServer: bool, env: Environment)
    requires DS.Configure(useMySQLServer, env.mysqlFile, env.dataFolder, env.drivers).Ok?
    requires Connect(if useMySQLServer then m.mysql else m.hsqldb).Some?
    ensures var (after, outcome) := AfterSetup(m, useMySQLServer, env);
            outcome.ConnectionFailed? && after.mysql == m.mysql && after.hsqldb == m.hsqldb &&
            after.marker == m.marker && after.dataSource.Some? && after.dataSource.value.open
  {
  }

  /** With HSQLDB the MySQL backend is never touched and no migration runs. */
  lemma HsqlSetupLeavesMySqlAlone(m: Manager, env: Environment)
    ensures var (after, outcome) := AfterSetup(m, false, env);
            after.mysql == m.mysql && (outcome.Ready? ==> outcome.migration.None?)
  {
  }

  /** Creating the tables on a pool that accepts both CREATE TABLE
      statements leaves both tables in the pooled backend. */
  lemma SchemaStepsCreateTables(m: Manager)
    requires m.dataSource.Some? && Acquire(m).None? && !m.useMySQL
    requires CreateTable(Punishments) !in Pooled(m).rejected && CreateTable(PunishmentHistory) !in Pooled(m).rejected
    ensures var after := SchemaSteps(m).0;
            Punishments in Pooled(after).tables && PunishmentHistory in Pooled(after).tables
  {
    var m3 := AfterStatement(m, CreateTable(Punishments), [], false).0;
    assert Punishments in Pooled(m3).tables;
    assert Acquire(m3).None?;
    var m4 := AfterStatement(m3, CreateTable(PunishmentHistory), [], false).0;
    assert Pooled(m4).tables.Keys >= Pooled(m3).tables.Keys;
  }

  /** After shutdown the pool reports that it is not running and every
      statement is ignored. */
  lemma ShutdownStopsStatements(m: Manager, stmt: Stmt, parameters: seq<SqlValue>, result: bool)
    requires m.dataSource.Some?
    ensures var after := AfterShutdown(m).0;
            ConnectionValid(after) == S.Some(false) &&
            AfterStatement(after, stmt, parameters, result) == (after, S.None)
  {
  }

  /** An embedded HSQLDB that accepts SHUTDOWN is stopped by `shutdown`. */
  lemma ShutdownStopsHsqlDb(m: Manager)
    requires !m.useMySQL && m.dataSource.Some? && !m.dataSource.value.mysqlBackend
    requires Acquire(m).None? && ShutdownDb !in m.hsqldb.rejected
    ensures !AfterShutdown(m).0.hsqldb.running
  {
  }

  /** One step of ensuring a plan of indexes. */
  lemma EnsureAllStep(db: Db, plan: seq<Schema.IndexSpec>, i: nat)
    requires i < |plan|
    ensures Schema.EnsureAll(db, plan[i..]) ==
            match Schema.EnsureMySqlIndex(db, plan[i].table, plan[i].name, plan[i].columns)
            case Err(_) => Schema.IndexPass(db, false)
            case Ok((d, outcome)) => if outcome.Crashed? then Schema.IndexPass(d, true) else Schema.EnsureAll(d, plan[i + 1..])
  {
    assert plan[i..][0] == plan[i] && plan[i..][1..] == plan[i + 1..];
  }

  /** The copy loop's position: a copy of `rows[i..]` continues one that
      already inserted `i` rows. */
  function Shifted(c: Schema.Copy, i: nat): (r: Schema.Copy)
    ensures r.target == c.target && r.error == c.error && r.inserted == c.inserted + i
  {
    Schema.Copy(c.target, c.inserted + i, c.error)
  }

  class DatabaseManager {
    var dataSource: S.Option<Pool>
    var useMySQL: bool
    var factoryCreated: bool
    /** The backends and the marker file the manager acts on. */
    var mysql: Db
    var hsqldb: Db
    var marker: Schema.Marker

    function State(): Manager
      reads this
    {
      Manager(dataSource, useMySQL, factoryCreated, mysql, hsqldb, marker)
    }

    /** A manager before `setup`: no pool, no factory. */
    constructor (mysql: Db, hsqldb: Db, marker: Schema.Marker)
      ensures State() == Manager(S.None, false, false, mysql, hsqldb, marker)
    {
      this.dataSource := S.None;
      this.useMySQL := false;
      this.factoryCreated := false;
      this.mysql := mysql;
      this.hsqldb := hsqldb;
      this.marker := marker;
    }

    function IsUseMySQL(): (r: bool)
      reads this
      ensures r == State().useMySQL
    {
      useMySQL
    }

    function IsConnectionValid(): (r: S.Option<bool>)
      reads this
      ensures r == ConnectionValid(State())
    {
      if dataSource.None? then S.None else S.Some(dataSource.value.open)
    }

    /** The binding loop: `statement.setObject(i + 1, parameters[i])`. */
    static method BindParameters(parameters: seq<SqlValue>) returns (params: map<nat, SqlValue>)
      ensures params == Positional(parameters)
    {
      params := map[];
      for i := 0 to |parameters|
        invariant params == Positional(parameters[..i])
      {
        assert parameters[..i + 1][..i] == parameters[..i];
        params := params[i + 1 := parameters[i]];
      }
      assert parameters[..|parameters|] == parameters;
    }

    /** `executeStatement(sql, result, parameters)`. */
    method ExecuteStatement(stmt: Stmt, result: bool, parameters: seq<SqlValue>) returns (rows: S.Option<seq<Record>>)
      modifies this
      ensures State() == AfterStatement(old(State()), stmt, parameters, result).0
      ensures rows == AfterStatement(old(State()), stmt, parameters, result).1
    {
      rows := S.None;
      if dataSource.None? || Acquire(State()).Some? {
        return;
      }
      var params := BindParameters(parameters);
      if result {
        rows := RunQuery(stmt);
      } else {
        RunUpdate(stmt, params);
      }
    }

    /** The result branch: the factory is created, then the rows are read. */
    method RunQuery(stmt: Stmt) returns (rows: S.Option<seq<Record>>)
      requires dataSource.Some?
      modifies this
      ensures State() == old(State()).(factoryCreated := true)
      ensures rows == match Query(Pooled(old(State())), stmt) case Ok(r) => S.Some(r) case Err(_) => S.None
    {
      factoryCreated := true;
      var q := Query(if dataSource.value.mysqlBackend then mysql else hsqldb, stmt);
      rows := S.None;
      if q.Ok? {
        rows := S.Some(q.value);
      }
    }

    /** The other branch: `statement.execute()`. */
    method RunUpdate(stmt: Stmt, params: map<nat, SqlValue>)
      requires dataSource.Some?
      modifies this
      ensures State() == match Execute(Pooled(old(State())), stmt, params)
                         case Ok(d) => WithPooled(old(State()), d)
                         case Err(_) => old(State())
    {
      var e := Execute(if dataSource.value.mysqlBackend then mysql else hsqldb, stmt, params);
      if e.Ok? {
        if dataSource.value.mysqlBackend {
          mysql := e.value;
        } else {
          hsqldb := e.value;
        }
      }
    }

    /** `fixColumnTypeIfNeeded`; the error is the metadata failure it throws. */
    method FixColumnTypeIfNeeded(table: string, column: string) returns (error: S.Option<SqlError>)
      modifies this
      ensures error.Some? <==> Schema.FixColumnTypeIfNeeded(old(mysql), table, column).Err?
      ensures State() == old(State()).(mysql := match Schema.FixColumnTypeIfNeeded(old(mysql), table, column)
                                                case Ok(d) => d case Err(_) => old(mysql))
    {
      error := S.None;
      match ColumnInfo(mysql, table, column)
      case Err(e) =>
        error := S.Some(e);
      case Ok(info) =>
        if info.Some? && info.value.Some? && IsTextType(info.value.value) {
          var altered := Execute(mysql, ModifyToBigint(table, column), map[]);
          if altered.Ok? {
            mysql := altered.value;
          }
        }
    }

    /** `fixLongColumnsToBigInt`. */
    method FixLongColumnsToBigInt()
      requires dataSource.Some? && dataSource.value.mysqlBackend && dataSource.value.open
      modifies this
      ensures State() == old(State()).(mysql := Schema.FixLongColumnsToBigInt(old(mysql)))
    {
      if Acquire(State()).Some? {
        return;
      }
      var error := FixColumnTypeIfNeeded(Punishments, "start");
      if error.Some? {
        return;
      }
      error := FixColumnTypeIfNeeded(Punishments, "end");
      if error.Some? {
        return;
      }
      error := FixColumnTypeIfNeeded(PunishmentHistory, "start");
      if error.Some? {
        return;
      }
      error := FixColumnTypeIfNeeded(PunishmentHistory, "end");
    }

    /** `columnExists`: whether metadata reports the column. */
    method ColumnExists(table: string, column: string) returns (r: Result<bool>)
      ensures r.Err? <==> table in mysql.metadataFaults
      ensures r.Ok? ==> (r.value <==> table in mysql.tables && column in mysql.tables[table].columns)
    {
      match ColumnInfo(mysql, table, column)
      case Err(e) =>
        r := Err(e);
      case Ok(info) =>
        r := Ok(info.Some?);
    }

    /** `addServerColumnIfMissing`. */
    method AddServerColumnIfMissing()
      requires dataSource.Some? && dataSource.value.mysqlBackend && dataSource.value.open
      modifies this
      ensures State() == old(State()).(mysql := Schema.AddServerColumnIfMissing(old(mysql)))
    {
      if Acquire(State()).Some? {
        return;
      }
      var present := ColumnExists(Punishments, ServerColumn);
      if present.Err? {
        return;
      }
      if !present.value {
        var added := Execute(mysql, AddServerColumn(Punishments), map[]);
        if added.Err? {
          return;
        }
        mysql := added.value;
      }
      present := ColumnExists(PunishmentHistory, ServerColumn);
      if present.Err? {
        return;
      }
      if !present.value {
        var added := Execute(mysql, AddServerColumn(PunishmentHistory), map[]);
        if added.Err? {
          return;
        }
        mysql := added.value;
      }
    }

    /** `indexExists`: the loop over the index-metadata rows. */
    method IndexExists(catalog: S.Option<string>, table: string, indexName: string) returns (r: Result<bool>)
      ensures r == Schema.IndexExists(mysql, catalog, table, indexName)
    {
      match IndexInfo(mysql, catalog, table)
      case Err(e) =>
        if e.message.Some? && S.Contains(e.message.value, "doesn't exist") {
          r := Ok(false);
        } else {
          r := Err(e);
        }
      case Ok(names) =>
        var i := 0;
        while i < |names|
          invariant 0 <= i <= |names|
          invariant forall k :: 0 <= k < i ==> !(names[k].Some? && S.EqualsIgnoreCase(names[k].value, indexName))
        {
          var existing := names[i];
          if existing.Some? && S.EqualsIgnoreCase(existing.value, indexName) {
            return Ok(true);
          }
          i := i + 1;
        }
        r := Ok(false);
    }

    /** `mySqlIndexExists`. */
    method MySqlIndexExists(table: string, indexName: string) returns (r: Result<bool>)
      ensures r == Schema.MySqlIndexExists(mysql, table, indexName)
    {
      var catalog := mysql.catalog;
      r := IndexExists(catalog, table, indexName);
      if r.Err? || r.value {
        return;
      }
      r := IndexExists(catalog, S.Lower(table), indexName);
      if r.Err? || r.value {
        return;
      }
      r := IndexExists(catalog, S.Upper(table), indexName);
      if r.Err? || r.value {
        return;
      }
      r := IndexExists(S.None, table, indexName);
    }

    /** `ensureMySqlIndex`; the first lookup's error is thrown as an
        SQLException, and `Crashed` is the catch block's NullPointerException. */
    method EnsureMySqlIndex(table: string, indexName: string, columns: seq<string>) returns (r: Result<Schema.IndexOutcome>)
      modifies this
      ensures var expected := Schema.EnsureMySqlIndex(old(mysql), table, indexName, columns);
              (expected.Err? ==> r == Err(expected.error) && State() == old(State())) &&
              (expected.Ok? ==> r == Ok(expected.value.1) && State() == old(State()).(mysql := expected.value.0))
    {
      var found := MySqlIndexExists(table, indexName);
      if found.Err? {
        return Err(found.error);
      }
      if found.value {
        return Ok(Schema.AlreadyPresent);
      }
      // The text sent to the server; the backend receives it as `CreateIndex`.
      var sql := Schema.BuildCreateIndexSql(indexName, table, columns);
      var created := Execute(mysql, CreateIndex(indexName, table, columns), map[]);
      if created.Err? {
        return Ok(Schema.FailureOutcome(created.error));
      }
      mysql := created.value;
      var verified := MySqlIndexExists(table, indexName);
      if verified.Err? {
        return Ok(Schema.FailureOutcome(verified.error));
      }
      return Ok(Schema.Created(verified.value));
    }

    /** `createMySqlIndexes`: the six indexes of `Schema.IndexPlan` in turn;
        a thrown lookup error ends the run, and `crashed` is the
        NullPointerException that leaves it uncaught. */
    method CreateMySqlIndexes() returns (crashed: bool)
      requires dataSource.Some? && dataSource.value.mysqlBackend && dataSource.value.open
      modifies this
      ensures State() == old(State()).(mysql := Schema.CreateMySqlIndexes(old(mysql)).db)
      ensures crashed == Schema.CreateMySqlIndexes(old(mysql)).crashed
    {
      crashed := false;
      if Acquire(State()).Some? {
        return;
      }
      var plan := Schema.IndexPlan;
      assert plan[0..] == plan;
      var i := 0;
      while i < |plan|
        invariant 0 <= i <= |plan|
        invariant State() == old(State()).(mysql := mysql)
        invariant Schema.EnsureAll(mysql, plan[i..]) == Schema.EnsureAll(old(mysql), plan)
      {
        EnsureAllStep(mysql, plan, i);
        var r := EnsureMySqlIndex(plan[i].table, plan[i].name, plan[i].columns);
        if r.Err? {
          return;
        }
        if r.value.Crashed? {
          return true;
        }
        i := i + 1;
      }
    }

    /** One copy loop of the migration: insert each migrated row; the first
        failure ends the loop. */
    method CopyTable(table: string, rows: seq<Record>) returns (inserted: nat, error: S.Option<SqlError>)
      modifies this
      ensures var c := Schema.CopyRows(old(mysql), table, rows);
              State() == old(State()).(mysql := c.target) && inserted == c.inserted && error == c.error
    {
      inserted := 0;
      error := S.None;
      while inserted < |rows|
        invariant inserted <= |rows|
        invariant State() == old(State()).(mysql := mysql)
        invariant Shifted(Schema.CopyRows(mysql, table, rows[inserted..]), inserted) == Schema.CopyRows(old(mysql), table, rows)
      {
        var done := Execute(mysql, Insert(table, Schema.MigratedRecord(rows[inserted])), map[]);
        if done.Err? {
          error := S.Some(done.error);
          return;
        }
        assert rows[inserted..][1..] == rows[inserted + 1..];
        mysql := done.value;
        inserted := inserted + 1;
      }
    }

    /** `migrateFromHSQLDBToMySQL`. */
    method MigrateFromHsqlDb(env: Environment) returns (outcome: Schema.MigrationOutcome)
      requires dataSource.Some? && dataSource.value.mysqlBackend && dataSource.value.open
      modifies this
      ensures State() == AfterMigration(old(State()), env).0 && outcome == AfterMigration(old(State()), env).1
    {
      var existing := ExecuteStatement(SelectAll(Punishments), true, []);
      if existing.Some? && |existing.value| > 0 {
        return Schema.TargetHasData;
      }
      if !env.storageScriptExists {
        return Schema.NoSourceData;
      }
      var source := DS.DynamicDataSource.Create(false, env.mysqlFile, env.dataFolder, env.drivers);
      if source.Err? {
        return Schema.SourceUnavailable;
      }
      var failure := Connect(hsqldb);
      if failure.Some? {
        return Schema.Aborted(failure.value, 0, 0);
      }
      failure := Acquire(State());
      if failure.Some? {
        return Schema.Aborted(failure.value, 0, 0);
      }
      var active := Query(hsqldb, SelectAll(Punishments));
      if active.Err? {
        return Schema.Aborted(active.error, 0, 0);
      }
      var migratedPunishments, error := CopyTable(Punishments, active.value);
      if error.Some? {
        return Schema.Aborted(error.value, migratedPunishments, 0);
      }
      var history := Query(hsqldb, SelectAll(PunishmentHistory));
      if history.Err? {
        return Schema.Aborted(history.error, migratedPunishments, 0);
      }
      var migratedHistory, historyError := CopyTable(PunishmentHistory, history.value);
      if historyError.Some? {
        return Schema.Aborted(historyError.value, migratedPunishments, migratedHistory);
      }
      outcome := Schema.Completed(migratedPunishments, migratedHistory);
    }

    /** `shutdown()`. */
    method Shutdown() returns (outcome: ShutdownOutcome)
      modifies this
      ensures State() == AfterShutdown(old(State())).0 && outcome == AfterShutdown(old(State())).1
    {
      if !useMySQL && dataSource.Some? && Acquire(State()).None? {
        RunUpdate(ShutdownDb, map[]);
      }
      if dataSource.None? {
        return NullDataSource;
      }
      dataSource := S.Some(dataSource.value.(open := false));
      outcome := Closed;
    }

    /** `setup(useMySQLServer)`. */
    method Setup(useMySQLServer: bool, env: Environment) returns (outcome: SetupOutcome)
      modifies this
      ensures State() == AfterSetup(old(State()), useMySQLServer, env).0
      ensures outcome == AfterSetup(old(State()), useMySQLServer, env).1
    {
      var previousUseMySQL := Schema.PreviouslyMySql(marker);
      useMySQL := useMySQLServer;
      var source := DS.DynamicDataSource.Create(useMySQL, env.mysqlFile, env.dataFolder, env.drivers);
      if source.Err? {
        return ConfigFailed(source.error);
      }
      dataSource := S.Some(Pool(useMySQL, source.value.config, true));
      var failure := Acquire(State());
      if failure.Some? {
        return ConnectionFailed(failure.value);
      }
      ghost var withPool := State();
      var crashed := PrepareSchema();
      if crashed {
        return Crashed;
      }
      assert AfterSetup(old(State()), useMySQLServer, env) == FinishSetup(SchemaSteps(withPool).0, previousUseMySQL, env);
      outcome := Finish(previousUseMySQL, env);
    }

    /** The table creation and MySQL passes of `setup`. */
    method PrepareSchema() returns (crashed: bool)
      requires dataSource.Some? && dataSource.value.mysqlBackend == useMySQL && dataSource.value.open
      modifies this
      ensures (State(), crashed) == SchemaSteps(old(State()))
    {
      var _ := ExecuteStatement(CreateTable(Punishments), false, []);
      var _ := ExecuteStatement(CreateTable(PunishmentHistory), false, []);
      crashed := false;
      if useMySQL {
        FixLongColumnsToBigInt();
        AddServerColumnIfMissing();
        crashed := CreateMySqlIndexes();
      }
    }

    /** The migration and the marker write that end `setup`. */
    method Finish(previousUseMySQL: bool, env: Environment) returns (outcome: SetupOutcome)
      requires dataSource.Some? && dataSource.value.mysqlBackend == useMySQL && dataSource.value.open
      modifies this
      ensures State() == FinishSetup(old(State()), previousUseMySQL, env).0
      ensures outcome == FinishSetup(old(State()), previousUseMySQL, env).1
    {
      var migration := S.None;
      if useMySQL && !previousUseMySQL {
        var migrated := MigrateFromHsqlDb(env);
        migration := S.Some(migrated);
      }
      if env.markerWritable {
        marker := Schema.Present(Schema.MarkerText(useMySQL));
      }
      outcome := Ready(migration);
    }
  }
}
