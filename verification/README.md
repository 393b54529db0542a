# AdvancedBanX core, modelled in Dafny

This project models the parts of AdvancedBanX, a punishment plugin for Minecraft servers and the Velocity proxy, that make decisions rather than call platform APIs:

- **Persistence setup** (`DatabaseManager`). Startup selects MySQL or an embedded HSQLDB and opens a pool. It checks the connection, then creates the two punishment tables. On MySQL it then runs three repair passes:
  - it changes `start`/`end` columns from text types to `BIGINT`;
  - it adds the `server` column;
  - it creates six indexes, classifying any creation failure.

  Next, startup copies HSQLDB rows into MySQL when the backend has just switched. Finally it records the backend in the `.storage` marker. Statement execution binds parameters by position and returns rows only for queries. Shutdown stops an embedded database and closes the pool.
- **Connection configuration** (`DynamicDataSource`). This covers the JDBC property normalisation, the MySQL and HSQLDB URLs and credentials, the timeouts, and the fallback from the modern to the legacy MySQL driver.
- **Configuration lookup** (`VelocityMethods`). This covers the dotted-path walk through nested YAML maps and the typed getters with and without defaults. It also covers `contains`, `getKeys`, `getStringList` and `getInternUUID`.
- **Backend-to-proxy command relay** (`BackendLinkMain.sendCommandToProxy` and `BackendCommandListener.onPluginMessage`). The command line is joined from its parts and sent as two `writeUTF` frames: a big-endian 16-bit length followed by "modified UTF-8". It is read back and split into a command and its arguments.
- **Banned-player tab completion** (`BannedPlayersTabCompleter`).

## Modules

| file | module | models |
|---|---|---|
| `strings.dfy` | `JavaStrings` | the `String` operations the code relies on: `trim`, `split`, `contains`, `equalsIgnoreCase`, `toLowerCase`, `replace` |
| `utf.dfy` | `ModifiedUtf8` | `DataOutput.writeUTF` / `DataInput.readUTF` framing over UTF-16 code units |
| `relay.dfy` | `CommandRelay` | the sending plugin and the proxy listener, each a class over the stream it writes or reads |
| `config.dfy` | `VelocityConfig` | a YAML tree as a recursive datatype; the path walk and the getters |
| `datasource.dfy` | `DataSource` | the pool settings and the `DynamicDataSource` class that fills them |
| `jdbc.dfy` | `Jdbc` | an abstract SQL backend: tables, column types, index names, rows, and the failures it can raise |
| `database.dfy` | `DatabaseSchema` | what each step of setup does to a backend, as functions, with lemmas about them |
| `manager.dfy` | `DatabaseManagement` | the `DatabaseManager` class: its fields, and each operation proved against a function on a snapshot of them |
| `tabcomplete.dfy` | `BannedPlayersTabCompleter` | the two loops of `onTabComplete` |

### How the database is modelled

- **Backends.** A backend (`Jdbc.Db`) is a value. It holds:
  - its tables, with column types, index names and rows;
  - the columns `CREATE TABLE` gives;
  - the statements the server refuses, and the metadata lookups that fail;
  - whether a connection can be opened;
  - a log of accepted statements.

  Every error path in the manager is therefore reachable by choosing a backend.
- **The manager.** `DatabaseManager` is a class with the source's fields: `dataSource`, `useMySQL` and the row-set factory. It also holds the two backends and the marker file it acts on. Each method is specified by a function on a `Manager` snapshot (`AfterSetup`, `AfterStatement`, `AfterMigration`, `AfterShutdown`) or on a backend (`FixLongColumnsToBigInt`, `AddServerColumnIfMissing`, `CreateMySqlIndexes`, `Migrate`). The lemmas state what the source promises about those functions.

## Model

| member | source | states |
|---|---|---|
| `ModifiedUtf8.WriteUtf` | backend-link/src/main/java/net/hnt8/advancedban/backendlink/BackendLinkMain.java:93-94 | a frame is the 2-byte length followed by the encoding; an encoding longer than 65535 bytes fails with `TooLong` |
| `ModifiedUtf8.ReadUtf` | velocity/src/main/java/net/hnt8/advancedban/velocity/listener/BackendCommandListener.java:48-50 | a successful read ends inside the data, after the 2-byte prefix |
| `ModifiedUtf8.DecodeEncode` | backend-link/src/main/java/net/hnt8/advancedban/backendlink/BackendLinkMain.java:93-94 | decoding the modified UTF-8 of any string of UTF-16 units gives that string back |
| `ModifiedUtf8.EncodeLength` | backend-link/src/main/java/net/hnt8/advancedban/backendlink/BackendLinkMain.java:94 | each code unit takes one to three bytes |
| `ModifiedUtf8.EncodeAscii` | backend-link/src/main/java/net/hnt8/advancedban/backendlink/BackendLinkMain.java:93 | characters U+0001 to U+007F take one byte each, so an ASCII string's frame is its length plus two |
| `ModifiedUtf8.ReadWritten` | velocity/src/main/java/net/hnt8/advancedban/velocity/listener/BackendCommandListener.java:48-50 | reading at the start of a written frame returns the written string and stops right after the frame, whatever surrounds it |
| `ModifiedUtf8.ReadTruncated` | velocity/src/main/java/net/hnt8/advancedban/velocity/listener/BackendCommandListener.java:63-65 | reading a frame cut short fails |
| `CommandRelay.TagFrame` | backend-link/src/main/java/net/hnt8/advancedban/backendlink/BackendLinkMain.java:93 | the tag "EXECUTE_COMMAND" always encodes, in 17 bytes |
| `CommandRelay.Payload` | backend-link/src/main/java/net/hnt8/advancedban/backendlink/BackendLinkMain.java:93-94 | the payload is the tag frame followed by the command-line frame; it fails exactly when the command line encodes to more than 65535 bytes |
| `CommandRelay.DataOutput.WriteUTF` | backend-link/src/main/java/net/hnt8/advancedban/backendlink/BackendLinkMain.java:93-94 | on success the frame is appended to what was written; on failure nothing is appended |
| `CommandRelay.BackendLink.SendCommandToProxy` | backend-link/src/main/java/net/hnt8/advancedban/backendlink/BackendLinkMain.java:67-103 | with nobody online, or a command line too long to encode, nothing is sent; otherwise exactly one message is sent, through the first online player on "advancedban:command", carrying the payload of the joined command line |
| `CommandRelay.CommandLineIsJoin` | backend-link/src/main/java/net/hnt8/advancedban/backendlink/BackendLinkMain.java:69-72 | the command line is the command and the arguments joined with single spaces, in order |
| `CommandRelay.ParseCommandLine` | velocity/src/main/java/net/hnt8/advancedban/velocity/listener/BackendCommandListener.java:56-58 | the command is the text before the first space, and the arguments are the rest after it split on " " as Java's `split` does (empty fields kept except trailing ones); a line without a space is a command with no arguments |
| `CommandRelay.Received` | velocity/src/main/java/net/hnt8/advancedban/velocity/listener/BackendCommandListener.java:32-62 | other channels dispatch nothing; a dispatch is always made as the console, and only when the first string read is the tag |
| `CommandRelay.DataInput.ReadUTF` | velocity/src/main/java/net/hnt8/advancedban/velocity/listener/BackendCommandListener.java:48-50 | a read succeeds exactly when the frame at the cursor decodes; it returns that string and moves the cursor past the frame |
| `CommandRelay.BackendCommandListener.OnPluginMessage` | velocity/src/main/java/net/hnt8/advancedban/velocity/listener/BackendCommandListener.java:32-66 | the listener dispatches exactly what `Received` says, whatever the message source, and at most one command per message |
| `CommandRelay.ParseJoined` | velocity/src/main/java/net/hnt8/advancedban/velocity/listener/BackendCommandListener.java:56-58 | splitting a joined line gives back the command and the arguments when none of them holds a space and no argument is empty |
| `CommandRelay.ReceivedPayload` | velocity/src/main/java/net/hnt8/advancedban/velocity/listener/BackendCommandListener.java:48-61 | the listener reads back the command line the two frames carry and dispatches its split |
| `CommandRelay.RelayRoundTrip` | backend-link/src/main/java/net/hnt8/advancedban/backendlink/BackendLinkMain.java:67-96 | round trip: the proxy dispatches the same command and arguments the backend sent, as the console |
| `CommandRelay.OtherTagIgnored` | velocity/src/main/java/net/hnt8/advancedban/velocity/listener/BackendCommandListener.java:48-49 | a first string other than the tag dispatches nothing |
| `CommandRelay.TruncatedIgnored` | velocity/src/main/java/net/hnt8/advancedban/velocity/listener/BackendCommandListener.java:63-65 | a payload cut anywhere inside the command frame dispatches nothing |
| `VelocityConfig.Get` | velocity/src/main/java/net/hnt8/advancedban/velocity/VelocityMethods.java:502 | null when no entry has the key; otherwise the value of the first entry with that key |
| `VelocityConfig.Lookup` | velocity/src/main/java/net/hnt8/advancedban/velocity/VelocityMethods.java:495-504 | no segments leave the value as it is; a non-map met before the last segment gives null |
| `VelocityConfig.LookupAppend` | velocity/src/main/java/net/hnt8/advancedban/velocity/VelocityMethods.java:497-503 | descending along a path `a + b` is descending along `a` and then along `b` |
| `VelocityConfig.PathValue` | velocity/src/main/java/net/hnt8/advancedban/velocity/VelocityMethods.java:489-492 | null whenever the file is not a map |
| `VelocityConfig.GetPathValue` | velocity/src/main/java/net/hnt8/advancedban/velocity/VelocityMethods.java:489-505 | the loop over the path segments returns the value reached by walking the split path; it is null as soon as a non-map is met |
| `VelocityConfig.PathOfKeys` | velocity/src/main/java/net/hnt8/advancedban/velocity/VelocityMethods.java:494-503 | a path of non-empty, dot-free keys joined with '.' reaches the value found by descending through those keys one by one |
| `VelocityConfig.TrailingDotIgnored` | velocity/src/main/java/net/hnt8/advancedban/velocity/VelocityMethods.java:494 | "key." finds the same value as "key", because `split` drops the trailing empty segment |
| `VelocityConfig.ToLong` | velocity/src/main/java/net/hnt8/advancedban/velocity/VelocityMethods.java:379 | `longValue` keeps the low 64 bits as a signed number, and changes nothing within range |
| `VelocityConfig.ToInt` | velocity/src/main/java/net/hnt8/advancedban/velocity/VelocityMethods.java:385 | `intValue` keeps the low 32 bits as a signed number, and changes nothing within range |
| `VelocityConfig.GetBoolean` | velocity/src/main/java/net/hnt8/advancedban/velocity/VelocityMethods.java:364-368 | true exactly when the stored value is the Boolean true; anything else gives FALSE |
| `VelocityConfig.GetBooleanOr` | velocity/src/main/java/net/hnt8/advancedban/velocity/VelocityMethods.java:402-406 | the stored Boolean, or `def` when no Boolean is there |
| `VelocityConfig.GetString` | velocity/src/main/java/net/hnt8/advancedban/velocity/VelocityMethods.java:370-374 | null exactly when nothing is at the path; otherwise `String.valueOf` of what is there (`Stringify`), so a stored string comes back unchanged |
| `VelocityConfig.GetStringOr` | velocity/src/main/java/net/hnt8/advancedban/velocity/VelocityMethods.java:408-412 | `def` exactly when `getString` is null, otherwise its value, which is `String.valueOf` of the stored value |
| `VelocityConfig.Stringify` | velocity/src/main/java/net/hnt8/advancedban/velocity/VelocityMethods.java:373 | `String.valueOf`: a string is itself, a number its decimal text, a list is bracketed and a map braced |
| `VelocityConfig.GetLong` | velocity/src/main/java/net/hnt8/advancedban/velocity/VelocityMethods.java:376-380 | non-null exactly when a number is stored; then it is that number truncated to 64 bits |
| `VelocityConfig.GetInteger` | velocity/src/main/java/net/hnt8/advancedban/velocity/VelocityMethods.java:382-386 | non-null exactly when a number is stored; then it is that number truncated to 32 bits |
| `VelocityConfig.GetLongOr` | velocity/src/main/java/net/hnt8/advancedban/velocity/VelocityMethods.java:414-418 | `def` when no number is stored, otherwise the stored number truncated to 64 bits |
| `VelocityConfig.GetIntegerOr` | velocity/src/main/java/net/hnt8/advancedban/velocity/VelocityMethods.java:420-424 | `def` when no number is stored, otherwise the stored number truncated to 32 bits |
| `VelocityConfig.Contains` | velocity/src/main/java/net/hnt8/advancedban/velocity/VelocityMethods.java:426-429 | holds exactly when `getString` is non-null; never holds for a file that is not a map |
| `VelocityConfig.GetKeys` | velocity/src/main/java/net/hnt8/advancedban/velocity/VelocityMethods.java:131-143 | empty unless a map is at the path; otherwise its keys, one per entry, in order |
| `VelocityConfig.GetStringList` | velocity/src/main/java/net/hnt8/advancedban/velocity/VelocityMethods.java:388-400 | empty unless a list is at the path; otherwise one string per element, in order, each `String.valueOf` of its element |
| `VelocityConfig.InternUuid` | velocity/src/main/java/net/hnt8/advancedban/velocity/VelocityMethods.java:292-298 | "none" for a non-player; for a player, the UUID text with no '-' left and every other character kept |
| `VelocityConfig.InternUuidOf` | velocity/src/main/java/net/hnt8/advancedban/velocity/VelocityMethods.java:300-304 | null exactly when the player is not online; otherwise the same as for the player object |
| `VelocityConfig.CanonicalInternUuid` | velocity/src/main/java/net/hnt8/advancedban/velocity/VelocityMethods.java:297 | a canonical 8-4-4-4-12 UUID becomes its 32 hex digits, in order |
| `DataSource.NormaliseProperties` | core/src/main/java/net/hnt8/advancedban/utils/DynamicDataSource.java:21-24 | unchanged when "allowpublickeyretrieval" occurs in any letter case; otherwise `allowPublicKeyRetrieval=true` is appended, after "&" unless the string is empty; the result always mentions the setting |
| `DataSource.NormaliseIdempotent` | core/src/main/java/net/hnt8/advancedban/utils/DynamicDataSource.java:22-24 | normalising twice is the same as normalising once |
| `DataSource.DefaultPropertiesNormalised` | core/src/main/java/net/hnt8/advancedban/utils/DynamicDataSource.java:18-24 | the default property string is left unchanged |
| `DataSource.MySqlUrlQuery` | core/src/main/java/net/hnt8/advancedban/utils/DynamicDataSource.java:32 | the URL's query (after the first '?') is exactly the property string, when host and database name hold no '?' |
| `DataSource.ResolveMySqlDriver` | core/src/main/java/net/hnt8/advancedban/utils/DynamicDataSource.java:26-31 | the modern driver is chosen when present, else the legacy one; `ClassNotFoundException` for the legacy class only when both are missing |
| `DataSource.Configure` | core/src/main/java/net/hnt8/advancedban/utils/DynamicDataSource.java:11-48 | MySQL: fails exactly when no driver resolves; otherwise the URL is built from the defaulted IP, port, database name and normalised properties, with the defaulted user and password, timeouts 5000/3000 and test query "SELECT 1". HSQLDB: fails exactly when its driver is missing; otherwise the file URL under the data folder, user "SA", empty password |
| `DataSource.DynamicDataSource.constructor` | core/src/main/java/net/hnt8/advancedban/utils/DynamicDataSource.java:9 | a fresh configuration has nothing set |
| `DataSource.DynamicDataSource.Create` | core/src/main/java/net/hnt8/advancedban/utils/DynamicDataSource.java:11-48 | the constructor, setter by setter, leaves exactly the settings `Configure` describes, or throws the same `ClassNotFoundException` |
| `Jdbc.Connect` | core/src/main/java/net/hnt8/advancedban/manager/DatabaseManager.java:88-89 | a connection is obtained and valid exactly when the backend is reachable and running |
| `Jdbc.Execute` | core/src/main/java/net/hnt8/advancedban/manager/DatabaseManager.java:519 | an accepted statement is logged with its parameters, drops no table, and leaves the backend's configuration alone; a refused one fails with the server's error |
| `Jdbc.Query` | core/src/main/java/net/hnt8/advancedban/manager/DatabaseManager.java:516 | only a select of an existing table yields rows, and they are that table's rows |
| `Jdbc.Apply` | core/src/main/java/net/hnt8/advancedban/manager/DatabaseManager.java:192-193 | an accepted statement never drops a table and only CREATE TABLE adds one; the nine-column INSERT is accepted exactly when its table exists with all nine columns; queries, SHUTDOWN and other statements change no table |
| `Jdbc.ApplyCreateIndex` | core/src/main/java/net/hnt8/advancedban/manager/DatabaseManager.java:385-386 | an accepted CREATE INDEX names an existing table that has no index of that name (ignoring case), and appends that name to its indexes |
| `Jdbc.ColumnInfo` | core/src/main/java/net/hnt8/advancedban/manager/DatabaseManager.java:307-309 | the lookup fails exactly for a faulty table; a row is found exactly when the table has the column |
| `Jdbc.IndexInfo` | core/src/main/java/net/hnt8/advancedban/manager/DatabaseManager.java:436 | a successful lookup lists the table's index names; a faulty table fails with its error |
| `DatabaseSchema.PreviouslyMySql` | core/src/main/java/net/hnt8/advancedban/manager/DatabaseManager.java:57-68 | false for a missing or unreadable marker; true only when the trimmed content, lower-cased, is "mysql" |
| `DatabaseSchema.MarkerRoundTrip` | core/src/main/java/net/hnt8/advancedban/manager/DatabaseManager.java:132-134 | reading back the marker setup writes gives the backend it used |
| `DatabaseSchema.MarkerToleratesPadding` | core/src/main/java/net/hnt8/advancedban/manager/DatabaseManager.java:63-64 | any run of characters up to U+0020 before and after, and any letter case, still reads as MySQL |
| `DatabaseSchema.InsertStep` | core/src/main/java/net/hnt8/advancedban/manager/DatabaseManager.java:192-210 | an insert is accepted exactly when its table exists with every column the INSERT names (`server` included) and is not refused; it appends its record to that table and changes nothing else |
| `DatabaseSchema.CreateIndexStep` | core/src/main/java/net/hnt8/advancedban/manager/DatabaseManager.java:385-386 | an accepted CREATE INDEX only appends an index name |
| `DatabaseSchema.FixColumnTypeIfNeeded` | core/src/main/java/net/hnt8/advancedban/manager/DatabaseManager.java:305-323 | fails exactly when the metadata lookup fails. It alters only a column reporting MEDIUMTEXT, LONGTEXT or TEXT (in any case), and then to BIGINT. A refused ALTER leaves the column as it was. No other column, row or index changes |
| `DatabaseSchema.FixLongColumnsToBigInt` | core/src/main/java/net/hnt8/advancedban/manager/DatabaseManager.java:287-300 | the pass keeps the table set and the backend's configuration |
| `DatabaseSchema.FixTouchesOnlyTargets` | core/src/main/java/net/hnt8/advancedban/manager/DatabaseManager.java:287-300 | only `start`/`end` of the two punishment tables can change type; rows and indexes never change |
| `DatabaseSchema.FixPassRepairsAll` | core/src/main/java/net/hnt8/advancedban/manager/DatabaseManager.java:305-323 | without faults, no target column reports a text type after the pass |
| `DatabaseSchema.FixPassNoOp` | core/src/main/java/net/hnt8/advancedban/manager/DatabaseManager.java:308-311 | when no target has a text type, the pass issues no statement and changes nothing |
| `DatabaseSchema.FixPassIdempotent` | core/src/main/java/net/hnt8/advancedban/manager/DatabaseManager.java:287-300 | without faults, running the pass again changes nothing |
| `DatabaseSchema.FixFailureContinues` | core/src/main/java/net/hnt8/advancedban/manager/DatabaseManager.java:313-319 | a refused ALTER on the first column is swallowed; the three later columns are still converted |
| `DatabaseSchema.FixMetadataFailureAborts` | core/src/main/java/net/hnt8/advancedban/manager/DatabaseManager.java:290-299 | a metadata failure on the first table ends the pass with nothing changed |
| `DatabaseSchema.ServerStep` | core/src/main/java/net/hnt8/advancedban/manager/DatabaseManager.java:332-339 | a table that has `server` is left alone; after success the table has the column; it fails on a metadata fault or a refused ADD COLUMN; no rows, indexes, tables or other columns change |
| `DatabaseSchema.AddServerColumnIfMissing` | core/src/main/java/net/hnt8/advancedban/manager/DatabaseManager.java:326-354 | the pass keeps the configuration, the table set, every row and index, and every column type other than `server`; without a connection it changes nothing |
| `DatabaseSchema.ServerPassNoOp` | core/src/main/java/net/hnt8/advancedban/manager/DatabaseManager.java:329-354 | once both tables have `server`, the pass changes nothing |
| `DatabaseSchema.ServerPassIdempotent` | core/src/main/java/net/hnt8/advancedban/manager/DatabaseManager.java:329-354 | without faults, both tables have `server` afterwards and a second run adds nothing |
| `DatabaseSchema.ServerFailureAborts` | core/src/main/java/net/hnt8/advancedban/manager/DatabaseManager.java:332-350 | a refused ADD COLUMN on the first table ends the pass; the history table is not touched |
| `DatabaseSchema.IndexExists` | core/src/main/java/net/hnt8/advancedban/manager/DatabaseManager.java:435-452 | a missing table means no index. True only when the table has an index of that name, ignoring case, with null names skipped |
| `DatabaseSchema.MySqlIndexExists` | core/src/main/java/net/hnt8/advancedban/manager/DatabaseManager.java:410-433 | true only when some table has an index of that name |
| `DatabaseSchema.ClassifyCreateFailure` | core/src/main/java/net/hnt8/advancedban/manager/DatabaseManager.java:394-407 | corrected classification: code 1061 or "Duplicate key name" in the message is a duplicate; otherwise "BLOB/TEXT" with "key length" is unindexable, and only then; a null message with another code is "other" |
| `DatabaseSchema.ClassifyCreateFailureAsWritten` | core/src/main/java/net/hnt8/advancedban/manager/DatabaseManager.java:396 | the catch block as written throws exactly for a code other than 1061 with a null message |
| `DatabaseSchema.NullMessageEscapes` | core/src/main/java/net/hnt8/advancedban/manager/DatabaseManager.java:396 | a refused CREATE INDEX with code 1072 and no message throws in the code as written; the corrected classification calls it "other" |
| `DatabaseSchema.ClassificationAgrees` | core/src/main/java/net/hnt8/advancedban/manager/DatabaseManager.java:396-406 | wherever the code as written does not throw, the corrected classification agrees with it |
| `DatabaseSchema.DuplicateErrorClassified` | core/src/main/java/net/hnt8/advancedban/manager/DatabaseManager.java:396 | MySQL's duplicate-key error is classified as a duplicate |
| `DatabaseSchema.FailureOutcome` | core/src/main/java/net/hnt8/advancedban/manager/DatabaseManager.java:394-407 | the catch block as written: it throws (`Crashed`) exactly for a code other than 1061 with a null message; otherwise the failure is skipped with the corrected classification |
| `DatabaseSchema.EnsureMySqlIndex` | core/src/main/java/net/hnt8/advancedban/manager/DatabaseManager.java:365-408 | an SQLException escapes only from the first lookup. A found index means no statement. After a negative lookup, a refused CREATE INDEX leaves the backend as it was with the catch block's outcome (a crash for a null message), and an accepted one gives exactly the executed state. Rows and columns never change, and indexes are only added |
| `DatabaseSchema.EnsureSkipsExisting` | core/src/main/java/net/hnt8/advancedban/manager/DatabaseManager.java:366-369 | an index already present under the same name, in any case, means nothing is issued |
| `DatabaseSchema.EnsureFindsWithoutCatalog` | core/src/main/java/net/hnt8/advancedban/manager/DatabaseManager.java:427-430 | a wrong catalog does not hide an existing index; the lookup with a null catalog finds it |
| `DatabaseSchema.EnsureIdempotent` | core/src/main/java/net/hnt8/advancedban/manager/DatabaseManager.java:365-408 | after ensure created an index, ensuring it again issues nothing |
| `DatabaseSchema.EnsureCreatesMissing` | core/src/main/java/net/hnt8/advancedban/manager/DatabaseManager.java:381-392 | a missing index whose CREATE the server accepts is installed, and the verifying lookup finds it |
| `DatabaseSchema.EnsureAll` | core/src/main/java/net/hnt8/advancedban/manager/DatabaseManager.java:262-281 | ensuring a plan of indexes in order, stopping at a thrown lookup error or at the catch block's crash, keeps the backend's configuration; an empty plan does nothing |
| `DatabaseSchema.CreateMySqlIndexes` | core/src/main/java/net/hnt8/advancedban/manager/DatabaseManager.java:262-281 | keeps the configuration; without a connection nothing happens and nothing crashes |
| `DatabaseSchema.NullMessageStopsIndexPass` | core/src/main/java/net/hnt8/advancedban/manager/DatabaseManager.java:262-281 | a first CREATE INDEX refused with code 1072 and no message makes the pass crash at once, with no other index ensured |
| `DatabaseSchema.EnsureAllOnlyAddsIndexes` | core/src/main/java/net/hnt8/advancedban/manager/DatabaseManager.java:262-281 | creating the indexes changes no row or column, and keeps every index a table had |
| `DatabaseSchema.BuildCreateIndexSql` | core/src/main/java/net/hnt8/advancedban/manager/DatabaseManager.java:371-379 | the builder loop produces ``CREATE INDEX `n` ON `t` (`c1`, `c2`, …)`` |
| `DatabaseSchema.ColumnListExtends` | core/src/main/java/net/hnt8/advancedban/manager/DatabaseManager.java:373-378 | the columns appear backquoted, separated by ", ", in the given order |
| `DatabaseSchema.MigratedRecord` | core/src/main/java/net/hnt8/advancedban/manager/DatabaseManager.java:196-209 | the eight fields are copied, a null start or end is read as 0, and `server` is copied or null |
| `DatabaseSchema.MigratedRecords` | core/src/main/java/net/hnt8/advancedban/manager/DatabaseManager.java:195-212 | one migrated row per source row, in order |
| `DatabaseSchema.CopyRows` | core/src/main/java/net/hnt8/advancedban/manager/DatabaseManager.java:195-212 | the counter never exceeds the rows read; without an error every row was inserted; the configuration is kept |
| `DatabaseSchema.CopyRowsAppends` | core/src/main/java/net/hnt8/advancedban/manager/DatabaseManager.java:195-212 | the rows inserted before any failure are appended to the table, in order, and the counter is their number |
| `DatabaseSchema.CopyRowsFrame` | core/src/main/java/net/hnt8/advancedban/manager/DatabaseManager.java:190-213 | a copy changes no other table's rows, no columns, no indexes and no table set |
| `DatabaseSchema.CopyAppendsAll` | core/src/main/java/net/hnt8/advancedban/manager/DatabaseManager.java:195-212 | a copy into a table with the INSERT's columns and with no refused insert completes and appends every migrated row once |
| `DatabaseSchema.TargetHasRows` | core/src/main/java/net/hnt8/advancedban/manager/DatabaseManager.java:149-156 | the target counts as holding data exactly when it is reachable, its select of Punishments is not refused, and that table has a row |
| `DatabaseSchema.Migrate` | core/src/main/java/net/hnt8/advancedban/manager/DatabaseManager.java:146-256 | the early exits leave the target as it was; a completed migration keeps the target's configuration |
| `DatabaseSchema.MigrationSkipped` | core/src/main/java/net/hnt8/advancedban/manager/DatabaseManager.java:149-168 | MySQL is left exactly as it was when it already holds an active punishment or `data/storage.script` is absent |
| `DatabaseSchema.MigrationCopiesAll` | core/src/main/java/net/hnt8/advancedban/manager/DatabaseManager.java:186-239 | with both target tables holding every column the INSERT names and no refusal, every active row and then every history row is inserted once, and the counters equal those numbers |
| `DatabaseSchema.MigrationStopsAtFirstError` | core/src/main/java/net/hnt8/advancedban/manager/DatabaseManager.java:241-244 | on a target table with the INSERT's columns, the first refused insert stops the copy. The earlier rows stay (no rollback), the counter is their number, and the history is not copied |
| `DatabaseSchema.CopyStopsAt` | core/src/main/java/net/hnt8/advancedban/manager/DatabaseManager.java:195-212 | into a table with the INSERT's columns, a copy refused at row k inserts exactly the k rows before it |
| `DatabaseSchema.MissingServerColumnAborts` | core/src/main/java/net/hnt8/advancedban/manager/DatabaseManager.java:192-211 | a target Punishments table without `server` refuses the first INSERT with "Unknown column": the migration aborts with nothing inserted and the target unchanged |
| `DatabaseManagement.Acquire` | core/src/main/java/net/hnt8/advancedban/manager/DatabaseManager.java:508 | a connection is obtained exactly when the pool is open and its backend is reachable |
| `DatabaseManagement.Positional` | core/src/main/java/net/hnt8/advancedban/manager/DatabaseManager.java:510-512 | parameter i is bound at position i + 1, and no other position is bound |
| `DatabaseManagement.AfterStatement` | core/src/main/java/net/hnt8/advancedban/manager/DatabaseManager.java:502-544 | a statement never changes the pool, the backend choice or the marker |
| `DatabaseManagement.StatementOutcomes` | core/src/main/java/net/hnt8/advancedban/manager/DatabaseManager.java:502-544 | without a pool or a connection: nothing happens and null is returned. Rows come back only for a query of an existing table, and they are its rows. A query changes only the factory; an update returns null |
| `DatabaseManagement.StatementLogged` | core/src/main/java/net/hnt8/advancedban/manager/DatabaseManager.java:510-519 | an accepted statement is executed once with its parameters at positions 1..n; only the pooled backend changes |
| `DatabaseManagement.SchemaSteps` | core/src/main/java/net/hnt8/advancedban/manager/DatabaseManager.java:110-119 | the schema phase keeps the pool, the backend choice and the marker; only the MySQL index pass can crash |
| `DatabaseManagement.AfterMigration` | core/src/main/java/net/hnt8/advancedban/manager/DatabaseManager.java:146-256 | only the MySQL backend and the factory flag can change; the early exits leave MySQL as it was; with a reachable pool the target check creates the factory |
| `DatabaseManagement.FinishSetup` | core/src/main/java/net/hnt8/advancedban/manager/DatabaseManager.java:121-137 | ends ready; migrates exactly when switching to MySQL from a marker that did not say MySQL; writes the marker exactly when it can; HSQLDB and the pool are kept |
| `DatabaseManagement.AfterSetup` | core/src/main/java/net/hnt8/advancedban/manager/DatabaseManager.java:55-138 | records the backend choice; fails in configuration exactly when `Configure` fails, then with only the choice recorded; otherwise a pool for the chosen backend is kept; the marker changes only in a setup that ran to the end; only MySQL can crash |
| `DatabaseManagement.AfterShutdown` | core/src/main/java/net/hnt8/advancedban/manager/DatabaseManager.java:457-468 | the NullPointerException happens exactly when there is no pool; otherwise the pool is closed; while MySQL is in use its backend is left alone (no SHUTDOWN) |
| `DatabaseManagement.ConnectionValid` | core/src/main/java/net/hnt8/advancedban/manager/DatabaseManager.java:551-553 | throws exactly when no pool was built; true only for an open pool |
| `DatabaseManagement.SetupRecordsBackend` | core/src/main/java/net/hnt8/advancedban/manager/DatabaseManager.java:127-134 | a completed setup that could write the marker leaves one that reads back as the chosen backend |
| `DatabaseManagement.MigrationNeedsHsqlMarker` | core/src/main/java/net/hnt8/advancedban/manager/DatabaseManager.java:122-125 | a migration is attempted only on MySQL, and only when the marker did not say MySQL |
| `DatabaseManagement.MigrationAttemptedOnce` | core/src/main/java/net/hnt8/advancedban/manager/DatabaseManager.java:122-125 | after a completed MySQL setup, the next MySQL setup does not migrate again |
| `DatabaseManagement.SetupWithoutDriver` | core/src/main/java/net/hnt8/advancedban/manager/DatabaseManager.java:72-79 | with neither MySQL driver, setup returns before opening a pool; only the backend choice is recorded |
| `DatabaseManagement.SetupConnectionFailure` | core/src/main/java/net/hnt8/advancedban/manager/DatabaseManager.java:87-108 | a failed or invalid test connection returns before any table, migration or marker write; the pool is built without connecting, so it stays open (see Left out) |
| `DatabaseManagement.IndexCrashEndsSetup` | core/src/main/java/net/hnt8/advancedban/manager/DatabaseManager.java:112-137 | a setup ended by the index pass's NullPointerException is on MySQL and leaves the marker, the HSQLDB backend and every MySQL row as they were: no migration, no marker write |
| `DatabaseManagement.SetupCrashesOnNullMessage` | core/src/main/java/net/hnt8/advancedban/manager/DatabaseManager.java:112-137 | on MySQL, with both tables in place, nothing to repair and no index yet, a first CREATE INDEX refused with code 1072 and no message ends setup as `Crashed` with the marker unchanged |
| `DatabaseManagement.SchemaStepsKeepRows` | core/src/main/java/net/hnt8/advancedban/manager/DatabaseManager.java:110-119 | on MySQL the schema phase changes no table's rows and leaves HSQLDB alone |
| `DatabaseManagement.HsqlSetupLeavesMySqlAlone` | core/src/main/java/net/hnt8/advancedban/manager/DatabaseManager.java:110-125 | on HSQLDB the MySQL backend is never touched and no migration runs |
| `DatabaseManagement.SchemaStepsCreateTables` | core/src/main/java/net/hnt8/advancedban/manager/DatabaseManager.java:110-111 | on HSQLDB, both tables exist after the schema phase when the backend accepts their creation |
| `DatabaseManagement.ShutdownStopsStatements` | core/src/main/java/net/hnt8/advancedban/manager/DatabaseManager.java:457-468 | after shutdown the pool reports not running, and every statement does nothing and returns null |
| `DatabaseManagement.ShutdownStopsHsqlDb` | core/src/main/java/net/hnt8/advancedban/manager/DatabaseManager.java:458-460 | an embedded HSQLDB that accepts SHUTDOWN is stopped |
| `DatabaseManagement.DatabaseManager.constructor` | core/src/main/java/net/hnt8/advancedban/manager/DatabaseManager.java:34-37 | a new manager has no pool and no factory |
| `DatabaseManagement.DatabaseManager.IsUseMySQL` | core/src/main/java/net/hnt8/advancedban/manager/DatabaseManager.java:560-562 | reports the backend choice |
| `DatabaseManagement.DatabaseManager.IsConnectionValid` | core/src/main/java/net/hnt8/advancedban/manager/DatabaseManager.java:551-553 | reports whether the pool is running, as `ConnectionValid` |
| `DatabaseManagement.DatabaseManager.BindParameters` | core/src/main/java/net/hnt8/advancedban/manager/DatabaseManager.java:510-512 | the binding loop builds exactly the positional binding |
| `DatabaseManagement.DatabaseManager.ExecuteStatement` | core/src/main/java/net/hnt8/advancedban/manager/DatabaseManager.java:502-544 | changes the fields and returns the rows as `AfterStatement` says |
| `DatabaseManagement.DatabaseManager.RunQuery` | core/src/main/java/net/hnt8/advancedban/manager/DatabaseManager.java:514-517 | creates the factory and returns the query's rows, or null when the query fails |
| `DatabaseManagement.DatabaseManager.RunUpdate` | core/src/main/java/net/hnt8/advancedban/manager/DatabaseManager.java:519 | the pooled backend becomes the executed state, or stays as it was when the statement fails |
| `DatabaseManagement.DatabaseManager.FixColumnTypeIfNeeded` | core/src/main/java/net/hnt8/advancedban/manager/DatabaseManager.java:305-323 | throws exactly on a metadata failure; MySQL changes as `DatabaseSchema.FixColumnTypeIfNeeded` says and nothing else does |
| `DatabaseManagement.DatabaseManager.FixLongColumnsToBigInt` | core/src/main/java/net/hnt8/advancedban/manager/DatabaseManager.java:287-300 | MySQL becomes `DatabaseSchema.FixLongColumnsToBigInt` of what it was; nothing else changes |
| `DatabaseManagement.DatabaseManager.ColumnExists` | core/src/main/java/net/hnt8/advancedban/manager/DatabaseManager.java:359-363 | throws exactly for a faulty table; otherwise true exactly when the table has the column |
| `DatabaseManagement.DatabaseManager.AddServerColumnIfMissing` | core/src/main/java/net/hnt8/advancedban/manager/DatabaseManager.java:329-354 | MySQL becomes `DatabaseSchema.AddServerColumnIfMissing` of what it was; nothing else changes |
| `DatabaseManagement.DatabaseManager.IndexExists` | core/src/main/java/net/hnt8/advancedban/manager/DatabaseManager.java:435-452 | the loop over index rows returns what `DatabaseSchema.IndexExists` says |
| `DatabaseManagement.DatabaseManager.MySqlIndexExists` | core/src/main/java/net/hnt8/advancedban/manager/DatabaseManager.java:410-433 | the four lookups in order return what `DatabaseSchema.MySqlIndexExists` says |
| `DatabaseManagement.DatabaseManager.EnsureMySqlIndex` | core/src/main/java/net/hnt8/advancedban/manager/DatabaseManager.java:365-408 | outcome and new MySQL state as `DatabaseSchema.EnsureMySqlIndex`, including the catch block's crash on a null message; on an error nothing changes |
| `DatabaseManagement.DatabaseManager.CreateMySqlIndexes` | core/src/main/java/net/hnt8/advancedban/manager/DatabaseManager.java:262-281 | MySQL and the crash flag are those of `DatabaseSchema.CreateMySqlIndexes`: the six indexes in order, stopping at a thrown lookup error or at the NullPointerException |
| `DatabaseManagement.DatabaseManager.CopyTable` | core/src/main/java/net/hnt8/advancedban/manager/DatabaseManager.java:195-212 | the copy loop's counter, error and new MySQL state are those of `DatabaseSchema.CopyRows` |
| `DatabaseManagement.DatabaseManager.MigrateFromHsqlDb` | core/src/main/java/net/hnt8/advancedban/manager/DatabaseManager.java:146-256 | fields and outcome as `AfterMigration`: the target check, then `DatabaseSchema.Migrate` |
| `DatabaseManagement.DatabaseManager.Shutdown` | core/src/main/java/net/hnt8/advancedban/manager/DatabaseManager.java:457-468 | fields and outcome as `AfterShutdown` |
| `DatabaseManagement.DatabaseManager.Setup` | core/src/main/java/net/hnt8/advancedban/manager/DatabaseManager.java:55-138 | fields and outcome as `AfterSetup`, about which the setup lemmas above are proved; a crash of the index pass returns before the migration and the marker |
| `DatabaseManagement.DatabaseManager.PrepareSchema` | core/src/main/java/net/hnt8/advancedban/manager/DatabaseManager.java:110-119 | both tables are created, then on MySQL the three passes in order; fields and crash flag as `SchemaSteps` |
| `DatabaseManagement.DatabaseManager.Finish` | core/src/main/java/net/hnt8/advancedban/manager/DatabaseManager.java:121-137 | migrates exactly when switching to MySQL, then writes the marker when it can, as `FinishSetup` |
| `BannedPlayersTabCompleter.BannedNames` | core/src/main/java/net/hnt8/advancedban/utils/tabcompletion/BannedPlayersTabCompleter.java:30-42 | no collected name is empty |
| `BannedPlayersTabCompleter.CollectBannedNames` | core/src/main/java/net/hnt8/advancedban/utils/tabcompletion/BannedPlayersTabCompleter.java:30-42 | the first loop collects exactly the names of non-null, unexpired BAN, TEMP_BAN, IP_BAN and TEMP_IP_BAN entries with a non-empty name |
| `BannedPlayersTabCompleter.FilterByPrefix` | core/src/main/java/net/hnt8/advancedban/utils/tabcompletion/BannedPlayersTabCompleter.java:48-53 | a name is suggested exactly when it was collected and its lower-cased form starts with the input; no name twice |
| `BannedPlayersTabCompleter.OnTabComplete` | core/src/main/java/net/hnt8/advancedban/utils/tabcompletion/BannedPlayersTabCompleter.java:19-57 | empty unless there is exactly one argument, and empty when fetching fails. Otherwise: sound and complete for the qualifying names matching the lower-cased argument, with no duplicates |
| `BannedPlayersTabCompleter.BannedNamesAppend` | core/src/main/java/net/hnt8/advancedban/utils/tabcompletion/BannedPlayersTabCompleter.java:30-42 | the names of a concatenated list are the union of the names of its parts, so position and repeats do not matter |
| `BannedPlayersTabCompleter.NonQualifyingIgnored` | core/src/main/java/net/hnt8/advancedban/utils/tabcompletion/BannedPlayersTabCompleter.java:32-39 | a null, expired, unnamed or non-ban entry adds no name |

## Left out

- **I/O and the outside world are inputs (`Environment`).** These are: whether the `.storage` marker can be written, whether `data/storage.script` exists, the loadable driver classes, the data folder, and the MySQL configuration file. A marker read failure is the `Unreadable` marker.
- **Pool internals are not modelled.** This covers HikariCP's pool, including the connection `new HikariDataSource` opens at construction. A pool is its settings and an open flag. Whether a connection can be opened, and whether it is valid, are properties of the backend. `isValid(3)` returning false is a connection error.
- SetupConnectionFailure: the open pool it leaves is the model's, not the program's. HikariCP (not part of this model) opens a connection while `new HikariDataSource` runs (DynamicDataSource.java:50-52). So in the program an unreachable backend usually makes pool construction throw. The `catch (Exception)` at DatabaseManager.java:80-84 then returns with `dataSource` unassigned (null on a first setup), and a later `isConnectionValid` or `shutdown` throws a NullPointerException. The model builds the pool without connecting and reports the failure from the test connection (DatabaseManager.java:87-108).
- VelocityConfig.Get: map keys are strings in the model. SnakeYAML gives a key such as `1:` an Integer and `true:` a Boolean. `map.get(part)` with a String never finds those keys (VelocityMethods.java:502), and `getKeys` turns them into text (VelocityMethods.java:139-140); that case is not modelled.
- Query: only `SELECT *` of a punishment table returns rows. Every other result query fails, so `executeStatement` returns null for it. The other stored queries belong to `SQLQuery`, which is not part of this model.
- **`SQLQuery`, `Punishment`, `PunishmentType`, `PunishmentManager`, `MethodInterface` and `Universal` are not part of this model.** The statements are abstract (`Jdbc.Stmt`): a `CREATE TABLE` is named by its table, and the columns it creates are part of the backend. A `CREATE INDEX` carries its name, table and columns; its SQL text is built separately by `DatabaseSchema.BuildCreateIndexSql`.
- **The migration's INSERT is one `Insert` statement carrying the record**, not nine positional `setString`/`setLong` binds. A source table without a `server` column is modelled as rows whose `server` is null.
- **Closing the temporary HSQLDB pool after the migration is not modelled**, because the model has no separate pool object for it. The HSQLDB source is the manager's `hsqldb` backend.
- **`createCachedRowSet` is a flag saying the factory exists.** A row set is the list of rows it holds.
- **Case folding is ASCII only.** This applies to `toLowerCase`/`toUpperCase`/`equalsIgnoreCase` (`JavaStrings.Lower`). Java folds the whole of Unicode and uses the default locale.
- **`String.trim` is written over characters up to U+0020**, as Java defines it.
- **Logging, `debugException` and all messages printed are left out.**
- **`synchronized` and the singleton `get()` are left out.** Calls are modelled one after another.
- **How MySQL decides that a type is `LONG` is left out.** Column types are the type names metadata reports.
- **The `DatabaseManager` methods that act on MySQL require a MySQL pool.** These are `FixLongColumnsToBigInt`, `AddServerColumnIfMissing`, `CreateMySqlIndexes` and `MigrateFromHsqlDb`. The source calls them only when `useMySQL` holds (DatabaseManager.java:112-125). Run against an HSQLDB pool, the source would act on HSQLDB instead.
- **Configuration values are integers, strings, Booleans, lists and maps.** Floating-point numbers, and `Number.longValue`/`intValue` on them, are left out. A YAML map with duplicate keys is not produced by the parser; `Get` takes the first entry.
- **The other `VelocityMethods` methods are not part of this model.** These include HTTP, JSON and YAML loading, messages, scheduling, `clearFormatting` and the permission and player queries; they call libraries or the proxy.
- **`Punishment.isExpired` and the punishment fetch are inputs.** A failing fetch is `None`.
- **The relay works on UTF-16 code units.** Characters outside the Basic Multilingual Plane appear as their surrogate pairs, as in Java.
- **Which online player `getOnlinePlayers().iterator().next()` returns is left open.** The first element of the given sequence stands for it.
- **The order in which `HashSet` iterates its names is left open.** `FilterByPrefix` picks any remaining name, so the suggestions' order is unconstrained.

## Findings

| source | as written | input that shows it | evidently intended | confidence | as-written member | corrected member |
|---|---|---|---|---|---|---|
| core/src/main/java/net/hnt8/advancedban/manager/DatabaseManager.java:396 | the catch block of `ensureMySqlIndex` calls `ex.getMessage().contains(...)` without a null check whenever the code is not 1061. The check on line 398 comes too late. | A `CREATE INDEX` failing with error code 1072 and a null message: the `NullPointerException` escapes `createMySqlIndexes` (which catches only `SQLException`) and ends `setup` before the migration and the marker write | a null message is classified as "other" and swallowed, as every other creation failure is | not executed | `DatabaseSchema.ClassifyCreateFailureAsWritten`, used by `DatabaseSchema.FailureOutcome` and so by the whole setup chain (exhibited by `DatabaseSchema.NullMessageEscapes`, `DatabaseSchema.NullMessageStopsIndexPass`, `DatabaseManagement.SetupCrashesOnNullMessage` and `DatabaseManagement.IndexCrashEndsSetup`) | `DatabaseSchema.ClassifyCreateFailure` (agreement where the written code does not throw: `DatabaseSchema.ClassificationAgrees`) |
