/** The `db:dump` console command: it resolves the output path, picks a
    compressor from the path's final extension, configures a `MySql` builder
    from the database configuration and the command-line options (passing
    whitelisted options through to mysqldump as `--name` or `--name=value`),
    runs the dump and turns its outcome into an exit code. */
module DumpCommand {
  import opened PhpBuiltins
  import opened MySqlDumper
  import Format

  /** Final path extension -> compressor. */
  const COMPRESSORS: map<string, Compressor> := map["gz" := GzipCompressor, "bz2" := Bzip2Compressor]

  /** The options passed through to mysqldump, in the order they are appended. */
  const ALLOWED_MYSQLDUMP_OPTIONS: seq<string> := [
    "add-drop-table",
    "add-locks",
    "allow-keywords",
    "apply-slave-statements",
    "bind-address",
    "character-sets-dir",
    "comments",
    "compatible",
    "compact",
    "complete-insert",
    "create-options",
    "databases",
    "debug",
    "debug-check",
    "debug-info",
    "default-character-set",
    "delete-master-logs",
    "disable-keys",
    "dump-slave",
    "events",
    "extended-insert",
    "fields-terminated-by",
    "fields-enclosed-by",
    "fields-optionally-enclosed-by",
    "fields-escaped-by",
    "flush-logs",
    "flush-privileges",
    "force",
    "hex-blob",
    "host",
    "insert-ignore",
    "lines-terminated-by",
    "lock-all-tables",
    "lock-tables",
    "log-error",
    "master-data",
    "max-allowed-packet",
    "net-buffer-length",
    "no-autocommit",
    "no-create-db",
    "no-create-info",
    "no-set-names",
    "no-tablespaces",
    "opt",
    "order-by-primary",
    "port",
    "protocol",
    "quick",
    "quote-names",
    "replace",
    "routines",
    "set-charset",
    "single-transaction",
    "dump-date",
    "skip-comments",
    "skip-opt",
    "socket",
    "ssl",
    "ssl-ca",
    "ssl-capath",
    "ssl-cert",
    "ssl-cipher",
    "ssl-key",
    "ssl-verify-server-cert",
    "tab",
    "triggers",
    "tz-utc",
    "user",
    "where",
    "xml"
  ]

  /** The port used when the configuration names none. */
  const DEFAULT_PORT: int := 3306

  /** The `database` entry of the application configuration; a missing or
      null port is `None`. */
  datatype DbConfig = DbConfig(host: string, database: string, port: Option<int>, username: string, password: string)

  /** A value-optional option that was supplied: PHP `true`, or a string.
      An option that was not supplied (PHP null) has no entry at all. */
  datatype OptionValue = Flag | Text(text: string)

  /** What the console layer hands to `fire()`: the `path` argument, the
      value-required options (null or a string), the four switches and the
      pass-through options. */
  datatype Input = Input(
    path: Option<string>,
    compress: Option<string>,
    binaryPath: Option<string>,
    includeTables: Option<string>,
    excludeTables: Option<string>,
    skipStructure: bool,
    noData: bool,
    skipAutoIncrement: bool,
    noColumnStatistics: bool,
    passThrough: map<string, OptionValue>)

  /** What the dump step did: wrote the file (whose real path and size were
      then read back), or threw an exception with a message. */
  datatype DumpRun = Dumped(fullPath: string, fileSize: nat) | Threw(message: string)

  /** The line the command reports: the dumped file and its size, or the error. */
  datatype Report = Info(fullPath: string, size: string) | Error(message: string)

  // ---------------------------------------------------------------------------
  // Output path

  /** `<storage>/dumps/dump-<Y-m-d-His>.sql`. */
  function DefaultPath(storage: string, now: Moment): string {
    storage + "/dumps/dump-" + FormatYmdHis(now) + ".sql"
  }

  /** The supplied path, or the default one when it is `empty()`. */
  function BasePath(supplied: Option<string>, defaultPath: string): string {
    if Truthy(supplied) then supplied.value else defaultPath
  }

  /** The output path: the base path, with `.<compression>` appended when a
      compression is requested that differs from its extension, or else with
      `.sql` appended when it has no (truthy) extension. */
  function ResolvePath(supplied: Option<string>, compression: Option<string>, defaultPath: string): string {
    var path := BasePath(supplied, defaultPath);
    var extension := Extension(path);
    if Truthy(compression) && extension != compression.value then path + "." + compression.value
    else if !TruthyString(extension) then path + ".sql"
    else path
  }

  /** A compression value that is absent, falsy, or a plain extension (no '.'
      and no '/'), which every documented value (gz, bz2) is. */
  predicate SafeCompression(compression: Option<string>) {
    !Truthy(compression) || PlainExtension(compression.value)
  }

  /** An empty or omitted path becomes the timestamped default, which is then
      resolved like a supplied path: it keeps its `.sql` when no compression
      (or a falsy one) is asked for or the compression is `sql`, and otherwise
      gets `.<compression>` appended, as in `dump-<stamp>.sql.gz`. */
  lemma EmptyPathGivesDefault(supplied: Option<string>, compression: Option<string>, storage: string, now: Moment)
    requires !Truthy(supplied)
    ensures var d := DefaultPath(storage, now);
      && d == storage + "/dumps/dump-" + FormatYmdHis(now) + ".sql"
      && Extension(d) == "sql"
      && ResolvePath(supplied, compression, d) == ResolvePath(Some(d), compression, d)
      && (!Truthy(compression) ==> ResolvePath(supplied, compression, d) == d)
      && (Truthy(compression) && compression.value == "sql" ==> ResolvePath(supplied, compression, d) == d)
      && (Truthy(compression) && compression.value != "sql" ==>
            ResolvePath(supplied, compression, d) == d + "." + compression.value)
  {
    SqlSuffixIsExtension(storage + "/dumps/dump-" + FormatYmdHis(now));
  }

  /** A requested compression that differs from the extension is appended,
      giving for instance `backup.sql.gz`; a plain one becomes the extension. */
  lemma CompressionAppended(path: string, compression: string, defaultPath: string)
    requires TruthyString(path) && TruthyString(compression)
    requires Extension(path) != compression
    ensures ResolvePath(Some(path), Some(compression), defaultPath) == path + "." + compression
    ensures PlainExtension(compression) ==>
      Extension(ResolvePath(Some(path), Some(compression), defaultPath)) == compression
  {
    if PlainExtension(compression) {
      ExtensionOfAppended(path, compression);
    }
  }

  /** The path stays as it is when the requested compression already is its
      extension, or when none is requested and it has an extension. */
  lemma PathKept(path: string, compression: Option<string>, defaultPath: string)
    requires TruthyString(path)
    requires (Truthy(compression) && Extension(path) == compression.value)
          || (!Truthy(compression) && TruthyString(Extension(path)))
    ensures ResolvePath(Some(path), compression, defaultPath) == path
  {
  }

  /** Without compression a path lacking an extension gets `.sql`, once:
      resolving the result again leaves it alone. */
  lemma SqlAppendedOnce(path: string, compression: Option<string>, defaultPath: string)
    requires TruthyString(path) && !Truthy(compression)
    requires !TruthyString(Extension(path))
    ensures ResolvePath(Some(path), compression, defaultPath) == path + ".sql"
    ensures Extension(path + ".sql") == "sql"
    ensures ResolvePath(Some(path + ".sql"), compression, defaultPath) == path + ".sql"
  {
    SqlSuffixIsExtension(path);
    PathKept(path + ".sql", compression, defaultPath);
  }

  /** Appending `.sql` makes `sql` the extension. */
  lemma SqlSuffixIsExtension(path: string)
    ensures Extension(path + ".sql") == "sql"
  {
    assert path + ".sql" == path + "." + "sql";
    ExtensionOfAppended(path, "sql");
  }

  /** The resolved path's extension is the requested compression, or else the
      base path's own extension, or else `sql`; in every case it is truthy. */
  lemma ResolvedExtension(supplied: Option<string>, compression: Option<string>, defaultPath: string)
    requires SafeCompression(compression)
    ensures var base := BasePath(supplied, defaultPath);
      var extension := Extension(ResolvePath(supplied, compression, defaultPath));
      && extension == (if Truthy(compression) then compression.value
                       else if TruthyString(Extension(base)) then Extension(base)
                       else "sql")
      && TruthyString(extension)
  {
    var base := BasePath(supplied, defaultPath);
    if Truthy(compression) && Extension(base) != compression.value {
      ExtensionOfAppended(base, compression.value);
    } else if !TruthyString(Extension(base)) {
      SqlSuffixIsExtension(base);
    }
  }

  /** Resolving an already resolved path changes nothing. */
  lemma ResolvePathIdempotent(supplied: Option<string>, compression: Option<string>, defaultPath: string)
    requires SafeCompression(compression)
    ensures var path := ResolvePath(supplied, compression, defaultPath);
      ResolvePath(Some(path), compression, defaultPath) == path
  {
    var path := ResolvePath(supplied, compression, defaultPath);
    ResolvedExtension(supplied, compression, defaultPath);
    ExtensionShorterThanPath(path);
    assert TruthyString(path);
  }

  /** A name with no '.' in it, such as `backup`. */
  predicate DotFreeName(name: string) {
    TruthyString(name) && forall k :: 0 <= k < |name| ==> name[k] != '.'
  }

  /** `backup` gets `.sql`. */
  lemma BareNameGetsSql(name: string, defaultPath: string)
    requires DotFreeName(name)
    ensures ResolvePath(Some(name), None, defaultPath) == name + ".sql"
  {
    NoDotNoExtension(name);
    SqlAppendedOnce(name, None, defaultPath);
  }

  /** `backup.sql` with `--compress=gz` becomes `backup.sql.gz`. */
  lemma SqlPathGetsGz(name: string, defaultPath: string)
    requires DotFreeName(name)
    ensures ResolvePath(Some(name + ".sql"), Some("gz"), defaultPath) == name + ".sql.gz"
  {
    SqlSuffixIsExtension(name);
    CompressionAppended(name + ".sql", "gz", defaultPath);
    assert name + ".sql" + "." + "gz" == name + ".sql.gz";
  }

  /** `backup.gz` with `--compress=gz`, and `backup.sql` with no compression,
      stay as they are. */
  lemma MatchingPathsKept(name: string, defaultPath: string)
    requires DotFreeName(name)
    ensures ResolvePath(Some(name + ".gz"), Some("gz"), defaultPath) == name + ".gz"
    ensures ResolvePath(Some(name + ".sql"), None, defaultPath) == name + ".sql"
  {
    assert name + "." + "gz" == name + ".gz";
    ExtensionOfAppended(name, "gz");
    PathKept(name + ".gz", Some("gz"), defaultPath);
    SqlSuffixIsExtension(name);
    PathKept(name + ".sql", None, defaultPath);
  }

  /** PHP truthiness makes the extension "0" count as missing, so `.sql` is
      still appended: `backup.0` becomes `backup.0.sql`. */
  lemma ZeroExtensionTreatedAsMissing(name: string, defaultPath: string)
    requires DotFreeName(name)
    ensures Extension(name + ".0") == "0"
    ensures ResolvePath(Some(name + ".0"), None, defaultPath) == name + ".0.sql"
  {
    var p := name + ".0";
    assert Extension(p) == "0" by {
      assert name + "." + "0" == p;
      ExtensionOfAppended(name, "0");
    }
    assert ResolvePath(Some(p), None, defaultPath) == p + ".sql" by {
      assert |p| > 1;
    }
    assert p + ".sql" == name + ".0.sql";
  }

  /** The non-empty-extension guarantee needs a plain compression value:
      `--compress=/` turns `backup` into `backup./`, which has no extension. */
  lemma SlashCompressionLeavesNoExtension(name: string, defaultPath: string)
    requires DotFreeName(name)
    ensures ResolvePath(Some(name), Some("/"), defaultPath) == name + "./"
    ensures Extension(name + "./") == ""
  {
    assert ResolvePath(Some(name), Some("/"), defaultPath) == name + "." + "/" by {
      NoDotNoExtension(name);
    }
    assert name + "." + "/" == name + "./";
    assert Extension(name + "./") == "" by {
      assert (name + ".") + "/" == name + "./";
      TrailingSlashIgnored(name + ".");
      TrailingDotNoExtension(name + ".");
    }
  }

  // ---------------------------------------------------------------------------
  // Compressor

  /** `COMPRESSORS[$finalExtension]` when set: an exact-match lookup. */
  function CompressorFor(extension: string): (r: Option<Compressor>)
    ensures r == Some(GzipCompressor) <==> extension == "gz"
    ensures r == Some(Bzip2Compressor) <==> extension == "bz2"
    ensures r.None? <==> extension != "gz" && extension != "bz2"
  {
    if extension in COMPRESSORS then Some(COMPRESSORS[extension]) else None
  }

  /** A plain requested compression decides the compressor: gz gives gzip,
      bz2 gives bzip2, and anything else (zip, say) none. */
  lemma CompressorFollowsRequest(supplied: Option<string>, compression: string, defaultPath: string)
    requires TruthyString(compression) && PlainExtension(compression)
    ensures CompressorFor(Extension(ResolvePath(supplied, Some(compression), defaultPath)))
         == CompressorFor(compression)
  {
    ResolvedExtension(supplied, Some(compression), defaultPath);
  }

  /** With no compression requested, the compressor follows the base path's
      own extension (so `backup.gz` is still gzipped). */
  lemma CompressorWithoutRequest(supplied: Option<string>, compression: Option<string>, defaultPath: string)
    requires !Truthy(compression)
    ensures CompressorFor(Extension(ResolvePath(supplied, compression, defaultPath)))
         == CompressorFor(Extension(BasePath(supplied, defaultPath)))
  {
    ResolvedExtension(supplied, compression, defaultPath);
  }

  // ---------------------------------------------------------------------------
  // Pass-through options

  /** `--name` for `true` or "", `--name=value` otherwise. */
  function OptionArg(name: string, value: OptionValue): string {
    if value.Flag? || value.text == "" then "--" + name else "--" + name + "=" + value.text
  }

  /** The value mysqldump sees: none for a bare flag or an empty string. */
  function PassedValue(value: OptionValue): Option<string> {
    if value.Flag? || value.text == "" then None else Some(value.text)
  }

  /** How a `--name[=value]` argument reads back: the name up to the first
      '=', the value after it. */
  function ParseOptionArg(arg: string): Option<(string, Option<string>)> {
    if |arg| < 2 || arg[..2] != "--" then None
    else
      var body := arg[2..];
      match IndexOf(body, '=')
      case None => Some((body, None))
      case Some(i) => Some((body[..i], Some(body[i + 1..])))
  }

  /** For a name free of '=', the argument reads back as that name and the
      passed value: nothing is lost but the bare-flag/empty-string difference. */
  lemma OptionArgRoundTrip(name: string, value: OptionValue)
    requires forall k :: 0 <= k < |name| ==> name[k] != '='
    ensures ParseOptionArg(OptionArg(name, value)) == Some((name, PassedValue(value)))
  {
    var arg := OptionArg(name, value);
    assert arg[..2] == "--";
    assert arg[2..] == if PassedValue(value).None? then name else name + "=" + value.text;
    if PassedValue(value).Some? {
      var body := name + "=" + value.text;
      IndexOfIs(body, '=', |name|);
      assert body[..|name|] == name;
      assert body[|name| + 1..] == value.text;
    }
  }

  /** The arguments for `names`, in that order, one per supplied name. */
  function PassThroughArgs(options: map<string, OptionValue>, names: seq<string>): seq<string> {
    if names == [] then []
    else
      var name := names[|names| - 1];
      PassThroughArgs(options, names[..|names| - 1])
      + (if name in options then [OptionArg(name, options[name])] else [])
  }

  /** One more name adds its argument, if supplied, at the end. */
  lemma PassThroughArgsStep(options: map<string, OptionValue>, names: seq<string>, i: nat)
    requires i < |names|
    ensures PassThroughArgs(options, names[..i + 1]) == PassThroughArgs(options, names[..i])
      + (if names[i] in options then [OptionArg(names[i], options[names[i]])] else [])
  {
    assert names[..i + 1][..i] == names[..i];
  }

  lemma {:induction false} PassThroughArgsConcat(options: map<string, OptionValue>, a: seq<string>, b: seq<string>)
    ensures PassThroughArgs(options, a + b) == PassThroughArgs(options, a) + PassThroughArgs(options, b)
  {
    if b == [] {
      assert a + b == a;
    } else {
      assert (a + b)[..|a + b| - 1] == a + b[..|b| - 1];
      PassThroughArgsConcat(options, a, b[..|b| - 1]);
    }
  }

  /** At most one argument per name. */
  lemma {:induction false} PassThroughArgsLength(options: map<string, OptionValue>, names: seq<string>)
    ensures |PassThroughArgs(options, names)| <= |names|
  {
    if names != [] {
      PassThroughArgsLength(options, names[..|names| - 1]);
    }
  }

  /** Exactly one argument per supplied name: the count of arguments is the
      number of positions of `names` whose option was supplied. */
  lemma {:induction false} PassThroughArgsCount(options: map<string, OptionValue>, names: seq<string>)
    ensures |PassThroughArgs(options, names)| == |set i | 0 <= i < |names| && names[i] in options|
  {
    var supplied := set i | 0 <= i < |names| && names[i] in options;
    if names == [] {
      assert supplied == {};
    } else {
      var last := |names| - 1;
      var init := names[..last];
      PassThroughArgsCount(options, init);
      var before := set i | 0 <= i < |init| && init[i] in options;
      assert before == set i | 0 <= i < last && names[i] in options;
      if names[last] in options {
        assert supplied == before + {last};
        assert last !in before;
      } else {
        assert supplied == before;
      }
    }
  }

  /** For each supplied name, its argument sits right after the arguments of
      the names before it. */
  lemma PassThroughArgAt(options: map<string, OptionValue>, names: seq<string>, i: nat)
    requires i < |names| && names[i] in options
    ensures var k := |PassThroughArgs(options, names[..i])|;
      && k < |PassThroughArgs(options, names)|
      && PassThroughArgs(options, names)[k] == OptionArg(names[i], options[names[i]])
  {
    assert names == names[..i] + [names[i]] + names[i + 1..];
    PassThroughArgsConcat(options, names[..i] + [names[i]], names[i + 1..]);
    PassThroughArgsConcat(options, names[..i], [names[i]]);
    assert PassThroughArgs(options, [names[i]]) == [OptionArg(names[i], options[names[i]])] by {
      assert [names[i]][..0] == [];
    }
  }

  /** Arguments follow the order of `names`: an earlier supplied name's
      argument comes before a later one's. */
  lemma PassThroughArgsOrder(options: map<string, OptionValue>, names: seq<string>, i: nat, j: nat)
    requires i < j <= |names| && names[i] in options
    ensures |PassThroughArgs(options, names[..i])| < |PassThroughArgs(options, names[..j])|
  {
    assert names[..j] == names[..i] + [names[i]] + names[i + 1..j];
    PassThroughArgsConcat(options, names[..i] + [names[i]], names[i + 1..j]);
    PassThroughArgsConcat(options, names[..i], [names[i]]);
    assert PassThroughArgs(options, [names[i]]) == [OptionArg(names[i], options[names[i]])] by {
      assert [names[i]][..0] == [];
    }
  }

  /** Every argument is the argument of some supplied name in `names`. */
  lemma {:induction false} PassThroughArgsFrom(options: map<string, OptionValue>, names: seq<string>, k: nat)
    requires k < |PassThroughArgs(options, names)|
    ensures exists i ::
      && 0 <= i < |names| && names[i] in options
      && PassThroughArgs(options, names)[k] == OptionArg(names[i], options[names[i]])
  {
    var init := names[..|names| - 1];
    var name := names[|names| - 1];
    if k < |PassThroughArgs(options, init)| {
      PassThroughArgsFrom(options, init, k);
      var i :| 0 <= i < |init| && init[i] in options
        && PassThroughArgs(options, init)[k] == OptionArg(init[i], options[init[i]]);
      assert names[i] == init[i];
    } else {
      assert names[|names| - 1] in options;
    }
  }

  /** The whitelist holds 70 names, the last of them `xml`. */
  lemma AllowedOptionsTable()
    ensures |ALLOWED_MYSQLDUMP_OPTIONS| == 70
    ensures ALLOWED_MYSQLDUMP_OPTIONS[69] == "xml"
  {
  }

  // ---------------------------------------------------------------------------
  // Dumper configuration

  /** `$dbConfig['port'] ?? 3306`. */
  function PortOf(config: DbConfig): int {
    if config.port.Some? then config.port.value else DEFAULT_PORT
  }

  /** The connection settings, with the port defaulting to 3306. */
  function Connected(s: Settings, config: DbConfig): Settings {
    s.(host := config.host, dbName := config.database, port := PortOf(config),
       userName := config.username, password := config.password)
  }

  /** The compressor for the path's final extension, when there is one. */
  function WithCompressor(s: Settings, path: string): Settings {
    var compressor := CompressorFor(Extension(path));
    if compressor.Some? then s.(compressor := compressor) else s
  }

  /** The binary path and the table filters, each taken only when truthy. */
  function WithFilters(s: Settings, input: Input): Settings {
    s.(dumpBinaryPath := if Truthy(input.binaryPath) then input.binaryPath.value else s.dumpBinaryPath,
       includeTables := if Truthy(input.includeTables) then Explode(',', input.includeTables.value) else s.includeTables,
       excludeTables := if Truthy(input.excludeTables) then Explode(',', input.excludeTables.value) else s.excludeTables)
  }

  /** The four switches, each turning its setting over only when given. */
  function WithSwitches(s: Settings, input: Input): Settings {
    s.(createTables := s.createTables && !input.skipStructure,
       dumpData := s.dumpData && !input.noData,
       skipAutoIncrement := s.skipAutoIncrement || input.skipAutoIncrement,
       useColumnStatistics := s.useColumnStatistics && !input.noColumnStatistics)
  }

  /** The pass-through arguments for `names`, after the options already there. */
  function WithPassThrough(s: Settings, options: map<string, OptionValue>, names: seq<string>): Settings {
    s.(extraOptions := s.extraOptions + PassThroughArgs(options, names))
  }

  /** The builder's settings once `fire()` has configured it for `path`. */
  function Configured(config: DbConfig, input: Input, path: string): Settings {
    var connected := Connected(INITIAL, config);
    var filtered := WithFilters(WithCompressor(connected, path), input);
    WithPassThrough(WithSwitches(filtered, input), input.passThrough, ALLOWED_MYSQLDUMP_OPTIONS)
  }

  /** What the configured builder holds: the connection with its port default,
      table lists that glue back to the option text, switches that are on
      exactly when given, a compressor exactly for gz and bz2, and at most
      one extra option per whitelisted name. */
  lemma ConfiguredMeaning(config: DbConfig, input: Input, path: string)
    ensures var s := Configured(config, input, path);
      && s.host == config.host && s.dbName == config.database
      && s.userName == config.username && s.password == config.password
      && (config.port.None? ==> s.port == 3306)
      && (config.port.Some? ==> s.port == config.port.value)
      && (Truthy(input.includeTables) ==> Implode(',', s.includeTables) == input.includeTables.value)
      && (!Truthy(input.includeTables) ==> s.includeTables == [])
      && (Truthy(input.excludeTables) ==> Implode(',', s.excludeTables) == input.excludeTables.value)
      && (!Truthy(input.excludeTables) ==> s.excludeTables == [])
      && (forall i, k :: 0 <= i < |s.includeTables| && 0 <= k < |s.includeTables[i]| ==> s.includeTables[i][k] != ',')
      && (forall i, k :: 0 <= i < |s.excludeTables| && 0 <= k < |s.excludeTables[i]| ==> s.excludeTables[i][k] != ',')
      && (s.dumpBinaryPath != "" <==> Truthy(input.binaryPath))
      && (Truthy(input.binaryPath) ==> s.dumpBinaryPath == input.binaryPath.value)
      && (s.createTables <==> !input.skipStructure)
      && (s.dumpData <==> !input.noData)
      && (s.skipAutoIncrement <==> input.skipAutoIncrement)
      && (s.useColumnStatistics <==> !input.noColumnStatistics)
      && (s.compressor.Some? <==> Extension(path) in {"gz", "bz2"})
      && (s.compressor == Some(GzipCompressor) <==> Extension(path) == "gz")
      && (s.compressor == Some(Bzip2Compressor) <==> Extension(path) == "bz2")
      && |s.extraOptions| <= |ALLOWED_MYSQLDUMP_OPTIONS| == 70
  {
    PassThroughArgsLength(input.passThrough, ALLOWED_MYSQLDUMP_OPTIONS);
  }

  // ---------------------------------------------------------------------------
  // The command

  /** Exit code: 1 when the dump step threw, 0 otherwise. */
  function ExitCode(run: DumpRun): (code: int)
    ensures code == 1 <==> run.Threw?
    ensures code == 0 <==> run.Dumped?
  {
    match run
    case Threw(_) => 1
    case Dumped(_, _) => 0
  }

  class DumbDbCommand {
    const config: DbConfig
    /** The application's storage directory. */
    const storage: string

    constructor (config: DbConfig, storage: string)
      ensures this.config == config && this.storage == storage
    {
      this.config := config;
      this.storage := storage;
    }

    /** `fire()`: configures a fresh builder, resolves the path, hands both to
        the dump step (whose outcome is `run`) and reports. */
    method Fire(input: Input, now: Moment, run: DumpRun) returns (exitCode: int, path: string, dumper: MySql, report: Report)
      requires run.Dumped? ==> run.fileSize < Format.Pow1024(5)
      ensures fresh(dumper)
      ensures path == ResolvePath(input.path, input.compress, DefaultPath(storage, now))
      ensures dumper.Current() == Configured(config, input, path)
      ensures exitCode == ExitCode(run)
      ensures report == match run
        case Dumped(fullPath, size) => Info(fullPath, Format.HumanReadableSize(size))
        case Threw(message) => Error(message)
    {
      dumper := new MySql.Create();
      Connect(dumper);
      path := OutputPath(input, now);
      PickCompressor(dumper, path);
      ApplyFilters(dumper, input);
      ApplySwitches(dumper, input);
      AddPassThroughOptions(dumper, input.passThrough, ALLOWED_MYSQLDUMP_OPTIONS);
      exitCode, report := Finish(run);
    }

    /** The connection settings, with the port defaulting to 3306. */
    method Connect(dumper: MySql)
      modifies dumper
      ensures dumper.Current() == Connected(old(dumper.Current()), config)
    {
      dumper.SetHost(config.host);
      dumper.SetDbName(config.database);
      dumper.SetPort(if config.port.Some? then config.port.value else DEFAULT_PORT);
      dumper.SetUserName(config.username);
      dumper.SetPassword(config.password);
    }

    /** The path argument, or the timestamped default, with the extension
        step applied. */
    method OutputPath(input: Input, now: Moment) returns (path: string)
      ensures path == ResolvePath(input.path, input.compress, DefaultPath(storage, now))
      ensures SafeCompression(input.compress) ==> TruthyString(Extension(path))
    {
      var supplied := input.path;
      if !Truthy(supplied) {
        path := DefaultPath(storage, now);
      } else {
        path := supplied.value;
      }
      var compression := input.compress;
      var extension := Extension(path);
      if Truthy(compression) && extension != compression.value {
        path := path + "." + compression.value;
      } else if !TruthyString(extension) {
        path := path + ".sql";
      }
      if SafeCompression(input.compress) {
        ResolvedExtension(input.path, input.compress, DefaultPath(storage, now));
      }
    }

    /** Sets the compressor registered for the path's final extension, if any. */
    method PickCompressor(dumper: MySql, path: string)
      modifies dumper
      ensures dumper.Current() == WithCompressor(old(dumper.Current()), path)
    {
      var finalExtension := Extension(path);
      if finalExtension in COMPRESSORS {
        dumper.UseCompressor(COMPRESSORS[finalExtension]);
      }
    }

    /** The binary path and the table filters, each set only when given. */
    method ApplyFilters(dumper: MySql, input: Input)
      modifies dumper
      ensures dumper.Current() == WithFilters(old(dumper.Current()), input)
    {
      if Truthy(input.binaryPath) {
        dumper.SetDumpBinaryPath(input.binaryPath.value);
      }
      if Truthy(input.includeTables) {
        dumper.IncludeTables(Explode(',', input.includeTables.value));
      }
      if Truthy(input.excludeTables) {
        dumper.ExcludeTables(Explode(',', input.excludeTables.value));
      }
    }

    /** The four switches, each applied only when given. */
    method ApplySwitches(dumper: MySql, input: Input)
      modifies dumper
      ensures dumper.Current() == WithSwitches(old(dumper.Current()), input)
    {
      if input.skipStructure {
        dumper.DoNotCreateTables();
      }
      if input.noData {
        dumper.DoNotDumpData();
      }
      if input.skipAutoIncrement {
        dumper.SkipAutoIncrement();
      }
      if input.noColumnStatistics {
        dumper.DoNotUseColumnStatistics();
      }
    }

    /** One extra option per supplied option among `names`, in the order of
        `names` (the whitelist, when `fire()` calls it). */
    method AddPassThroughOptions(dumper: MySql, options: map<string, OptionValue>, names: seq<string>)
      modifies dumper
      ensures dumper.Current() == WithPassThrough(old(dumper.Current()), options, names)
    {
      ghost var start := dumper.Current();
      var i := 0;
      while i < |names|
        invariant 0 <= i <= |names|
        invariant dumper.extraOptions == start.extraOptions + PassThroughArgs(options, names[..i])
        invariant dumper.Current() == start.(extraOptions := dumper.extraOptions)
      {
        var option := names[i];
        PassThroughArgsStep(options, names, i);
        if option in options {
          var value := options[option];
          if value.Flag? || value.text == "" {
            dumper.AddExtraOption("--" + option);
          } else {
            dumper.AddExtraOption("--" + option + "=" + value.text);
          }
        }
        i := i + 1;
      }
      assert names[..i] == names;
    }

    /** The exit code and the report line for the dump step's outcome. */
    method Finish(run: DumpRun) returns (exitCode: int, report: Report)
      requires run.Dumped? ==> run.fileSize < Format.Pow1024(5)
      ensures exitCode == ExitCode(run)
      ensures report == match run
        case Dumped(fullPath, size) => Info(fullPath, Format.HumanReadableSize(size))
        case Threw(message) => Error(message)
    {
      match run
      case Dumped(fullPath, size) =>
        report := Info(fullPath, Format.HumanReadableSize(size));
        exitCode := 0;
      case Threw(message) =>
        report := Error(message);
        exitCode := 1;
    }
  }
}
