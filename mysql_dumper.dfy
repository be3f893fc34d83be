/** The part of the `MySql` dump builder the command configures: a mutable
    object whose setters each change one setting, and an extra-option list
    that grows by one entry per `addExtraOption` call. Running the dump is not
    part of this module. */
module MySqlDumper {
  import opened PhpBuiltins

  /** The compression strategies, by tag only. */
  datatype Compressor = GzipCompressor | Bzip2Compressor

  /** Everything the builder holds, as one value. */
  datatype Settings = Settings(
    host: string,
    dbName: string,
    port: int,
    userName: string,
    password: string,
    compressor: Option<Compressor>,
    dumpBinaryPath: string,
    includeTables: seq<string>,
    excludeTables: seq<string>,
    createTables: bool,
    dumpData: bool,
    skipAutoIncrement: bool,
    useColumnStatistics: bool,
    extraOptions: seq<string>)

  /** A fresh builder: no compressor, no binary override, no table filters,
      structure and data both dumped, auto-increment values and column
      statistics kept, no extra options. */
  const INITIAL: Settings := Settings(
    "localhost", "", 3306, "", "", None, "", [], [], true, true, false, true, [])

  class MySql {
    var host: string
    var dbName: string
    var port: int
    var userName: string
    var password: string
    var compressor: Option<Compressor>
    var dumpBinaryPath: string
    var includeTables: seq<string>
    var excludeTables: seq<string>
    var createTables: bool
    var dumpData: bool
    var skipAutoIncrement: bool
    var useColumnStatistics: bool
    var extraOptions: seq<string>

    /** The builder's settings as a value. */
    function Current(): Settings
      reads this
    {
      Settings(host, dbName, port, userName, password, compressor, dumpBinaryPath,
               includeTables, excludeTables, createTables, dumpData, skipAutoIncrement,
               useColumnStatistics, extraOptions)
    }

    /** `MySql::create()`. */
    constructor Create()
      ensures Current() == INITIAL
    {
      host, dbName, port, userName, password := "localhost", "", 3306, "", "";
      compressor, dumpBinaryPath := None, "";
      includeTables, excludeTables := [], [];
      createTables, dumpData, skipAutoIncrement, useColumnStatistics := true, true, false, true;
      extraOptions := [];
    }

    method SetHost(host: string)
      modifies this
      ensures Current() == old(Current()).(host := host)
    {
      this.host := host;
    }

    method SetDbName(dbName: string)
      modifies this
      ensures Current() == old(Current()).(dbName := dbName)
    {
      this.dbName := dbName;
    }

    method SetPort(port: int)
      modifies this
      ensures Current() == old(Current()).(port := port)
    {
      this.port := port;
    }

    method SetUserName(userName: string)
      modifies this
      ensures Current() == old(Current()).(userName := userName)
    {
      this.userName := userName;
    }

    method SetPassword(password: string)
      modifies this
      ensures Current() == old(Current()).(password := password)
    {
      this.password := password;
    }

    method UseCompressor(compressor: Compressor)
      modifies this
      ensures Current() == old(Current()).(compressor := Some(compressor))
    {
      this.compressor := Some(compressor);
    }

    method SetDumpBinaryPath(dumpBinaryPath: string)
      modifies this
      ensures Current() == old(Current()).(dumpBinaryPath := dumpBinaryPath)
    {
      this.dumpBinaryPath := dumpBinaryPath;
    }

    method IncludeTables(tables: seq<string>)
      modifies this
      ensures Current() == old(Current()).(includeTables := tables)
    {
      includeTables := tables;
    }

    method ExcludeTables(tables: seq<string>)
      modifies this
      ensures Current() == old(Current()).(excludeTables := tables)
    {
      excludeTables := tables;
    }

    method DoNotCreateTables()
      modifies this
      ensures Current() == old(Current()).(createTables := false)
    {
      createTables := false;
    }

    method DoNotDumpData()
      modifies this
      ensures Current() == old(Current()).(dumpData := false)
    {
      dumpData := false;
    }

    method SkipAutoIncrement()
      modifies this
      ensures Current() == old(Current()).(skipAutoIncrement := true)
    {
      skipAutoIncrement := true;
    }

    method DoNotUseColumnStatistics()
      modifies this
      ensures Current() == old(Current()).(useColumnStatistics := false)
    {
      useColumnStatistics := false;
    }

    /** Appends one option to the end of the extra-option list. */
    method AddExtraOption(option: string)
      modifies this
      ensures Current() == old(Current()).(extraOptions := old(extraOptions) + [option])
    {
      extraOptions := extraOptions + [option];
    }
  }
}
