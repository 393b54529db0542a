/** Connection-pool configuration (`DynamicDataSource`): either a MySQL
    pool built from the `MySQL.*` settings, with the JDBC property string
    normalised, or an embedded HSQLDB file database under the plugin's data
    folder. Driver availability is the set of loadable driver class names. */
module DataSource {
  import S = JavaStrings
  import opened VelocityConfig

  const ModernMySqlDriver: string := "com.mysql.cj.jdbc.Driver"
  const LegacyMySqlDriver: string := "com.mysql.jdbc.Driver"
  const HsqlDriver: string := "org.hsqldb.jdbc.JDBCDriver"

  const PublicKeySetting: string := "allowPublicKeyRetrieval=true"
  /** The default `MySQL.Properties`, whose last setting is `PublicKeySetting`. */
  const DefaultProperties: string :=
    "verifyServerCertificate=false&useSSL=false&useUnicode=true&characterEncoding=utf8&" + PublicKeySetting
  /** What the normalisation looks for, after lower-casing the properties. */
  const PublicKeyName: string := "allowpublickeyretrieval"

  const ConnectionTimeoutMillis: int := 5000
  const ValidationTimeoutMillis: int := 3000
  const TestQuery: string := "SELECT 1"
  const DefaultPort: int := 3306

  /** The settings the pool receives; `None` leaves the pool's own default. */
  datatype PoolSettings = PoolSettings(
    jdbcUrl: S.Option<string>,
    username: S.Option<string>,
    password: S.Option<string>,
    driverClassName: S.Option<string>,
    connectionTimeout: S.Option<int>,
    validationTimeout: S.Option<int>,
    connectionTestQuery: S.Option<string>)

  const Unset: PoolSettings := PoolSettings(S.None, S.None, S.None, S.None, S.None, S.None, S.None)

  /** `ClassNotFoundException` for the named class. */
  datatype ConfigError = ClassNotFound(className: string)

  datatype Result<T> = Ok(value: T) | Err(error: ConfigError)

  predicate MentionsPublicKeyRetrieval(properties: string) {
    S.Contains(S.Lower(properties), PublicKeyName)
  }

  /** The properties with `allowPublicKeyRetrieval=true` appended (after an
      '&' unless they are empty) when they do not mention the setting in any
      letter case; unchanged otherwise. */
  function NormaliseProperties(properties: string): (r: string)
    ensures MentionsPublicKeyRetrieval(properties) ==> r == properties
    ensures !MentionsPublicKeyRetrieval(properties) ==>
              S.StartsWith(r, properties) && |r| > |properties| &&
              r[|properties|..] == (if properties == [] then "" else "&") + PublicKeySetting
    ensures MentionsPublicKeyRetrieval(r)
  {
    if MentionsPublicKeyRetrieval(properties) then properties
    else
      var separator := if properties == [] then "" else "&";
      var r := properties + separator + PublicKeySetting;
      NormalisedMentions(properties + separator);
      assert r[..|properties|] == properties;
      r
  }

  lemma NormalisedMentions(front: string)
    ensures MentionsPublicKeyRetrieval(front + PublicKeySetting)
  {
    S.LowerAppend(front, PublicKeySetting);
    var lowered := S.Lower(PublicKeySetting);
    assert lowered[..|PublicKeyName|] == PublicKeyName;
    assert S.OccursAt(S.Lower(front) + lowered, PublicKeyName, |S.Lower(front)|);
  }

  /** Normalising twice is normalising once. */
  lemma NormaliseIdempotent(properties: string)
    ensures NormaliseProperties(NormaliseProperties(properties)) == NormaliseProperties(properties)
  {
  }

  /** The default property string already carries the setting. */
  lemma DefaultPropertiesNormalised()
    ensures NormaliseProperties(DefaultProperties) == DefaultProperties
  {
    NormalisedMentions("verifyServerCertificate=false&useSSL=false&useUnicode=true&characterEncoding=utf8&");
  }

  function MySqlUrl(ip: string, port: int, dbName: string, properties: string): string {
    "jdbc:mysql://" + ip + ":" + S.IntToString(port) + "/" + dbName + "?" + properties
  }

  /** The text after the first '?' of the URL is the property string, when
      neither host nor database name holds a '?'. */
  lemma MySqlUrlQuery(ip: string, port: int, dbName: string, properties: string)
    requires '?' !in ip && '?' !in dbName
    ensures S.SplitFirst(MySqlUrl(ip, port, dbName, properties), '?').1 == S.Some(properties)
  {
    var front := "jdbc:mysql://" + ip + ":" + S.IntToString(port) + "/" + dbName;
    assert MySqlUrl(ip, port, dbName, properties) == front + ['?'] + properties;
    assert '?' !in S.IntToString(port);
    assert '?' !in front;
    FirstSeparator(front, '?', properties);
  }

  lemma {:induction false} FirstSeparator(front: string, sep: char, back: string)
    requires sep !in front
    ensures S.SplitFirst(front + [sep] + back, sep) == (front, S.Some(back))
  {
    var whole := front + [sep] + back;
    if front == [] {
      assert whole == [sep] + back;
      assert whole[1..] == back;
    } else {
      assert whole[0] == front[0] && whole[1..] == front[1..] + [sep] + back;
      FirstSeparator(front[1..], sep, back);
      assert [front[0]] + front[1..] == front;
    }
  }

  function HsqlUrl(dataFolder: string): string {
    "jdbc:hsqldb:file:" + dataFolder + "/data/storage;hsqldb.lock_file=false"
  }

  /** `Class.forName` on the modern MySQL driver, then on the legacy one;
      the legacy lookup's failure is the one that escapes. */
  function ResolveMySqlDriver(drivers: set<string>): (r: Result<string>)
    ensures r.Ok? <==> ModernMySqlDriver in drivers || LegacyMySqlDriver in drivers
    ensures r.Ok? ==> r.value in drivers && (r.value == ModernMySqlDriver || r.value == LegacyMySqlDriver)
    ensures ModernMySqlDriver in drivers ==> r == Ok(ModernMySqlDriver)
    ensures r.Err? ==> r.error == ClassNotFound(LegacyMySqlDriver)
  {
    if ModernMySqlDriver in drivers then Ok(ModernMySqlDriver)
    else if LegacyMySqlDriver in drivers then Ok(LegacyMySqlDriver)
    else Err(ClassNotFound(LegacyMySqlDriver))
  }

  /** The settings the constructor leaves in `config`, or the class it could
      not load. The MySQL values are read from `mysqlFile` with the
      defaulting getters. */
  function Configure(preferMySQL: bool, mysqlFile: Value, dataFolder: string, drivers: set<string>): (r: Result<PoolSettings>)
    ensures preferMySQL ==> (r.Err? <==> ResolveMySqlDriver(drivers).Err?)
    ensures !preferMySQL ==> (r.Err? <==> HsqlDriver !in drivers)
    ensures r.Err? && !preferMySQL ==> r.error == ClassNotFound(HsqlDriver)
    ensures r.Ok? && preferMySQL ==>
              r.value.driverClassName.None? &&
              r.value.connectionTimeout == S.Some(ConnectionTimeoutMillis) &&
              r.value.validationTimeout == S.Some(ValidationTimeoutMillis) &&
              r.value.connectionTestQuery == S.Some(TestQuery) &&
              r.value.username == S.Some(GetStringOr(mysqlFile, "MySQL.Username", "Unknown")) &&
              r.value.password == S.Some(GetStringOr(mysqlFile, "MySQL.Password", "Unknown"))
    ensures r.Ok? && preferMySQL ==>
              r.value.jdbcUrl == S.Some(MySqlUrl(GetStringOr(mysqlFile, "MySQL.IP", "Unknown"),
                                                 GetIntegerOr(mysqlFile, "MySQL.Port", DefaultPort),
                                                 GetStringOr(mysqlFile, "MySQL.DB-Name", "Unknown"),
                                                 NormaliseProperties(GetStringOr(mysqlFile, "MySQL.Properties", DefaultProperties)))) &&
              MentionsPublicKeyRetrieval(r.value.jdbcUrl.value)
    ensures r.Ok? && !preferMySQL ==>
              r.value == Unset.(driverClassName := S.Some(HsqlDriver), jdbcUrl := S.Some(HsqlUrl(dataFolder)),
                                username := S.Some("SA"), password := S.Some(""))
  {
    if preferMySQL then
      match ResolveMySqlDriver(drivers)
      case Err(e) => Err(e)
      case Ok(_) =>
        var properties := NormaliseProperties(GetStringOr(mysqlFile, "MySQL.Properties", DefaultProperties));
        var ip := GetStringOr(mysqlFile, "MySQL.IP", "Unknown");
        var port := GetIntegerOr(mysqlFile, "MySQL.Port", DefaultPort);
        var dbName := GetStringOr(mysqlFile, "MySQL.DB-Name", "Unknown");
        var url := MySqlUrl(ip, port, dbName, properties);
        UrlMentionsProperties("jdbc:mysql://" + ip + ":" + S.IntToString(port) + "/" + dbName + "?", properties);
        Ok(Unset.(jdbcUrl := S.Some(url),
                  username := S.Some(GetStringOr(mysqlFile, "MySQL.Username", "Unknown")),
                  password := S.Some(GetStringOr(mysqlFile, "MySQL.Password", "Unknown")),
                  connectionTimeout := S.Some(ConnectionTimeoutMillis),
                  validationTimeout := S.Some(ValidationTimeoutMillis),
                  connectionTestQuery := S.Some(TestQuery)))
    else if HsqlDriver !in drivers then Err(ClassNotFound(HsqlDriver))
    else Ok(Unset.(driverClassName := S.Some(HsqlDriver), jdbcUrl := S.Some(HsqlUrl(dataFolder)),
                   username := S.Some("SA"), password := S.Some("")))
  }

  lemma UrlMentionsProperties(front: string, properties: string)
    requires MentionsPublicKeyRetrieval(properties)
    ensures MentionsPublicKeyRetrieval(front + properties)
  {
    S.LowerAppend(front, properties);
    var i :| 0 <= i <= |S.Lower(properties)| - |PublicKeyName| && S.OccursAt(S.Lower(properties), PublicKeyName, i);
    assert S.OccursAt(S.Lower(front) + S.Lower(properties), PublicKeyName, |S.Lower(front)| + i);
  }

  /** The constructed data source: the settings it will open the pool with. */
  class DynamicDataSource {
    var config: PoolSettings

    constructor ()
      ensures config == Unset
    {
      config := Unset;
    }

    /** The constructor of the source: fills `config` setter by setter, or
        fails with the `ClassNotFoundException` of the driver lookup. */
    static method Create(preferMySQL: bool, mysqlFile: Value, dataFolder: string, drivers: set<string>)
      returns (r: Result<DynamicDataSource>)
      ensures r.Err? <==> Configure(preferMySQL, mysqlFile, dataFolder, drivers).Err?
      ensures r.Err? ==> r.error == Configure(preferMySQL, mysqlFile, dataFolder, drivers).error
      ensures r.Ok? ==> fresh(r.value) && r.value.config == Configure(preferMySQL, mysqlFile, dataFolder, drivers).value
    {
      var source := new DynamicDataSource();
      if preferMySQL {
        var ip := GetStringOr(mysqlFile, "MySQL.IP", "Unknown");
        var dbName := GetStringOr(mysqlFile, "MySQL.DB-Name", "Unknown");
        var userName := GetStringOr(mysqlFile, "MySQL.Username", "Unknown");
        var password := GetStringOr(mysqlFile, "MySQL.Password", "Unknown");
        var properties := GetStringOr(mysqlFile, "MySQL.Properties", DefaultProperties);
        var port := GetIntegerOr(mysqlFile, "MySQL.Port", DefaultPort);
        if !MentionsPublicKeyRetrieval(properties) {
          properties := properties + (if properties == [] then "" else "&") + PublicKeySetting;
        }
        assert properties == NormaliseProperties(GetStringOr(mysqlFile, "MySQL.Properties", DefaultProperties));
        if ModernMySqlDriver !in drivers && LegacyMySqlDriver !in drivers {
          return Err(ClassNotFound(LegacyMySqlDriver));
        }
        source.config := source.config.(jdbcUrl := S.Some(MySqlUrl(ip, port, dbName, properties)));
        source.config := source.config.(username := S.Some(userName));
        source.config := source.config.(password := S.Some(password));
        source.config := source.config.(connectionTimeout := S.Some(ConnectionTimeoutMillis));
        source.config := source.config.(validationTimeout := S.Some(ValidationTimeoutMillis));
        source.config := source.config.(connectionTestQuery := S.Some(TestQuery));
      } else {
        var driverClassName := HsqlDriver;
        if driverClassName !in drivers {
          return Err(ClassNotFound(driverClassName));
        }
        source.config := source.config.(driverClassName := S.Some(driverClassName));
        source.config := source.config.(jdbcUrl := S.Some(HsqlUrl(dataFolder)));
        source.config := source.config.(username := S.Some("SA"));
        source.config := source.config.(password := S.Some(""));
      }
      return Ok(source);
    }
  }
}
