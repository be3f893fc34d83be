# flarum-db-dumper: the `db:dump` command, modelled in Dafny

This project models the core of the Flarum extension `flarum-db-dumper`. That core is the
`db:dump` console command and its byte-size formatter. When the command runs (`fire()`), it:

- fills a fresh Spatie `MySql` dump builder with the connection settings from the Flarum
  configuration, defaulting the port to 3306;
- resolves the output path. A missing or `empty()` path argument becomes
  `<storage>/dumps/dump-<Y-m-d-His>.sql`. A requested compression that differs from the
  path's extension is appended as `.<compression>`. Otherwise `.sql` is appended when the
  path has no truthy extension;
- attaches a gzip or bzip2 compressor when the final extension is exactly `gz` or `bz2`;
- applies the binary path, the comma-separated include and exclude table lists, and four
  switches, each only when given;
- walks a fixed whitelist of 70 mysqldump option names. Every supplied one becomes
  `--name` (value `true` or empty) or `--name=value`, appended in whitelist order;
- runs the dump. On success it reports the file and its size through
  `Format::humanReadableSize` and exits with 0. If the dump or the report throws, it exits
  with 1.

The project has four modules:

- `PhpBuiltins` (`php_builtins.dfy`) defines the PHP built-ins the command depends on as
  pure functions:
  - truthiness, where `""` and `"0"` are false;
  - `pathinfo(…, PATHINFO_EXTENSION)` through `basename`;
  - `explode`/`implode` on one character;
  - decimal printing of integers;
  - the `Y-m-d-His` date format.
- `Format` (`format.dfy`) is `humanReadableSize` in exact integer arithmetic. The unit index
  is the largest `i` with 1024^i <= n, or 1 for n = 0. The value is a count of hundredths,
  rounded half up, and is printed with its trailing decimal zeros dropped.
- `MySqlDumper` (`mysql_dumper.dfy`) is the part of the Spatie builder the command uses. It
  is a class whose fields the setters update in place. `Current()` returns its settings as
  one value.
- `DumpCommand` (`dump_command.dfy`) holds the `COMPRESSORS` and `ALLOWED_MYSQLDUMP_OPTIONS`
  tables, the pure path and option functions, and the specification `Configured` of the
  builder's final state. Its class `DumbDbCommand` has a method for each step of `fire()`
  and `Fire` itself. Each method is proved against these functions.

Interpretation notes:

- Console values reach `fire()` as data. A value-required option or the path argument is
  `None` (PHP `null`) or a string. A switch is a `bool`. The pass-through options are a map
  from name to `Flag` (PHP `true`) or `Text(s)`, and an option that was not supplied has no
  entry.
- The clock reading is a `Moment` parameter.
- The storage directory is a constructor parameter, and so is the database configuration,
  whose port may be absent.
- The outcome of the dump step is a `DumpRun` parameter. It is either the file's real path
  and size, or the message of the exception thrown.
- PHP truthiness is kept exactly. A path whose extension is `"0"` counts as having none, so
  `backup.0` becomes `backup.0.sql` (`ZeroExtensionTreatedAsMissing`).

## Model

| member | source | states |
|---|---|---|
| PhpBuiltins.TruthyString | src/DumbDbCommand.php:187 | PHP truthiness of a string, as `empty()` and `!` use it: false for `""` and `"0"`, true otherwise |
| PhpBuiltins.Truthy | src/DumbDbCommand.php:211-221 | PHP truthiness of an option value: false for null, `""` and `"0"` |
| PhpBuiltins.Basename | src/DumbDbCommand.php:192 | PHP `basename`: trailing `/` removed, then the part after the last `/`; its facts are in `TrailingSlashIgnored` and `AppendedBasename` |
| PhpBuiltins.Extension | src/DumbDbCommand.php:200 | `pathinfo($path, PATHINFO_EXTENSION)`: the text after the last `.` of the basename, `""` when there is none; its facts are in the extension lemmas below |
| PhpBuiltins.ExtensionOfAppended | src/DumbDbCommand.php:192-195 | appending `.` and a plain extension (non-empty, no `.` or `/`) to any path makes it the path's `pathinfo` extension |
| PhpBuiltins.AppendedBasename | src/DumbDbCommand.php:192-195 | the basename of `path.c` ends in `.c` when `c` is plain |
| PhpBuiltins.DotSuffix | src/DumbDbCommand.php:192-195 | a basename ending in `.c`, with `c` plain, has extension `c` |
| PhpBuiltins.NoDotNoExtension | src/DumbDbCommand.php:192 | a path without any `.` has the empty extension |
| PhpBuiltins.TrailingDotNoExtension | src/DumbDbCommand.php:192 | a path ending in `.` has the empty extension |
| PhpBuiltins.TrailingSlashIgnored | src/DumbDbCommand.php:192 | a trailing `/` does not change the extension, because basename drops it |
| PhpBuiltins.ExtensionShorterThanPath | src/DumbDbCommand.php:192 | a non-empty extension is strictly shorter than its path |
| PhpBuiltins.Explode | src/DumbDbCommand.php:215-221 | `explode` gives at least one part, no part contains the separator, and imploding the parts gives the input back |
| PhpBuiltins.ExplodeImplode | src/DumbDbCommand.php:215-221 | exploding the implosion of separator-free parts gives those parts back |
| PhpBuiltins.DecimalRoundTrip | src/Helper/Format.php:12 | the decimal text of an integer reads back as that integer |
| PhpBuiltins.DecimalLength | src/DumbDbCommand.php:188 | the decimal text of n has at most w digits exactly when n < 10^w |
| PhpBuiltins.ZeroPadExact | src/DumbDbCommand.php:188 | zero-padding n < 10^w gives exactly w digits that read back as n |
| PhpBuiltins.FormatYmdHis | src/DumbDbCommand.php:188 | `format('Y-m-d-His')`: zero-padded year, month, day, hour, minute and second, dashes after year, month and day; its layout is stated by `FormatYmdHisLayout` |
| PhpBuiltins.FormatYmdHisLayout | src/DumbDbCommand.php:188 | a `Y-m-d-His` stamp has 17 characters with dashes at 4, 7 and 10, and each field reads back from its digits |
| Format.Log1024 | src/Helper/Format.php:10 | floor(log_1024 n): 1024^i <= n < 1024^(i+1) |
| Format.UnitIndex | src/Helper/Format.php:9-10 | the unit index is within the five units, is 1 for size 0, and is floor(log_1024 n) otherwise |
| Format.Log1024BelowFive | src/Helper/Format.php:9-10 | sizes below 1024^5 have a unit index below 5 |
| Format.RoundedHundredths | src/Helper/Format.php:12 | the hundredths count is the integer nearest to 100·n/1024^i, with a half rounded up |
| Format.HundredthsTextRoundTrip | src/Helper/Format.php:12 | the printed value reads back as the hundredths count, and a printed fraction never ends in 0 |
| Format.FractionRoundTrip | src/Helper/Format.php:12 | a whole part followed by a non-zero fraction reads back as both |
| Format.HumanReadableSize | src/Helper/Format.php:7-13 | `humanReadableSize`: the rounded value of n/1024^i as text, one space, and `units[i]` for the unit index i; what the text means is stated by `HumanReadableSizeReadsBack`, `NoLeadingZero` and `ScaledValueRange` |
| Format.HumanReadableSizeReadsBack | src/Helper/Format.php:12 | the result is a number, one space and `units[i]`, the number reads back as n/1024^i rounded to hundredths, and it starts with `0` only for size 0 |
| Format.NoLeadingZero | src/Helper/Format.php:12 | the printed number has no leading zero: it starts with `0` exactly when the size is 0 |
| Format.ScaledValueRange | src/Helper/Format.php:10-12 | for n >= 1 the printed value lies between 1 and 1024 inclusive |
| Format.ZeroIsKilobytes | src/Helper/Format.php:10-12 | size 0 prints as `0 KB` |
| Format.BytesExamples | src/Helper/Format.php:9-12 | 1 and 1023 print as `1 B` and `1023 B` |
| Format.KilobytesExamples | src/Helper/Format.php:9-12 | 1024 and 1536 print as `1 KB` and `1.5 KB` |
| Format.AlmostOneMegabyte | src/Helper/Format.php:10-12 | 1048575 is in the KB range and rounds to 1024.00 KB |
| Format.RoundingReaches1024 | src/Helper/Format.php:9-12 | 1048575 prints as `1024 KB` |
| Format.GigabyteExample | src/Helper/Format.php:9-12 | 1073741824 prints as `1 GB` |
| MySqlDumper.MySql.Create | src/DumbDbCommand.php:179 | a fresh builder holds the initial settings: no compressor, no filters, structure and data both dumped, no extra options |
| MySqlDumper.MySql.SetHost | src/DumbDbCommand.php:180 | sets the host and nothing else |
| MySqlDumper.MySql.SetDbName | src/DumbDbCommand.php:181 | sets the database name and nothing else |
| MySqlDumper.MySql.SetPort | src/DumbDbCommand.php:182 | sets the port and nothing else |
| MySqlDumper.MySql.SetUserName | src/DumbDbCommand.php:183 | sets the user name and nothing else |
| MySqlDumper.MySql.SetPassword | src/DumbDbCommand.php:184 | sets the password and nothing else |
| MySqlDumper.MySql.UseCompressor | src/DumbDbCommand.php:202-203 | sets the compressor and nothing else |
| MySqlDumper.MySql.SetDumpBinaryPath | src/DumbDbCommand.php:211-213 | sets the binary path and nothing else |
| MySqlDumper.MySql.IncludeTables | src/DumbDbCommand.php:215-217 | sets the included tables and nothing else |
| MySqlDumper.MySql.ExcludeTables | src/DumbDbCommand.php:219-221 | sets the excluded tables and nothing else |
| MySqlDumper.MySql.DoNotCreateTables | src/DumbDbCommand.php:223-225 | turns off table creation and nothing else |
| MySqlDumper.MySql.DoNotDumpData | src/DumbDbCommand.php:227-229 | turns off row data and nothing else |
| MySqlDumper.MySql.SkipAutoIncrement | src/DumbDbCommand.php:231-233 | turns on skipping AUTO_INCREMENT values and nothing else |
| MySqlDumper.MySql.DoNotUseColumnStatistics | src/DumbDbCommand.php:235-237 | turns off column statistics and nothing else |
| MySqlDumper.MySql.AddExtraOption | src/DumbDbCommand.php:242-246 | appends exactly one option to the end of the extra options and changes nothing else |
| DumpCommand.DefaultPath | src/DumbDbCommand.php:188 | the default output path `<storage>/dumps/dump-<Y-m-d-His>.sql` |
| DumpCommand.BasePath | src/DumbDbCommand.php:186-189 | the path argument, or the default path when the argument is `empty()` |
| DumpCommand.ResolvePath | src/DumbDbCommand.php:186-198 | the output path after the extension step; its behaviour is stated by the lemmas from `EmptyPathGivesDefault` to `SlashCompressionLeavesNoExtension` |
| DumpCommand.EmptyPathGivesDefault | src/DumbDbCommand.php:186-198 | a null, `""` or `"0"` path becomes `<storage>/dumps/dump-<stamp>.sql` (extension `sql`) and is then resolved like a supplied path: kept for an absent, falsy or `sql` compression, and given `.<compression>` otherwise, as in `dump-<stamp>.sql.gz` |
| DumpCommand.CompressionAppended | src/DumbDbCommand.php:191-195 | a truthy compression that differs from the extension gives exactly `path.compression`, and a plain one becomes the final extension |
| DumpCommand.PathKept | src/DumbDbCommand.php:192-198 | the path is unchanged when the compression equals its extension, or when there is no compression and the extension is truthy |
| DumpCommand.SqlAppendedOnce | src/DumbDbCommand.php:196-198 | with no compression and no truthy extension `.sql` is appended, and resolving the result again leaves it alone |
| DumpCommand.SqlSuffixIsExtension | src/DumbDbCommand.php:196-197 | after appending `.sql` the extension is `sql` |
| DumpCommand.ResolvedExtension | src/DumbDbCommand.php:191-200 | the final extension is the compression if one is given, else the path's own truthy extension, else `sql`, and it is never empty |
| DumpCommand.ResolvePathIdempotent | src/DumbDbCommand.php:186-198 | for an absent, falsy or plain compression (no `.` and no `/`), resolving an already resolved path changes nothing |
| DumpCommand.BareNameGetsSql | src/DumbDbCommand.php:196-197 | `backup` resolves to `backup.sql` |
| DumpCommand.SqlPathGetsGz | src/DumbDbCommand.php:193-195 | `backup.sql` with `gz` resolves to `backup.sql.gz` |
| DumpCommand.MatchingPathsKept | src/DumbDbCommand.php:192-198 | `backup.gz` with `gz`, and `backup.sql` with no compression, are kept |
| DumpCommand.ZeroExtensionTreatedAsMissing | src/DumbDbCommand.php:192-197 | the extension `0` is falsy, so `backup.0` resolves to `backup.0.sql` |
| DumpCommand.SlashCompressionLeavesNoExtension | src/DumbDbCommand.php:191-200 | the compression `/` turns `backup` into `backup./`, whose extension is empty |
| DumpCommand.CompressorFor | src/DumbDbCommand.php:17-20 | the lookup gives gzip exactly for `gz`, bzip2 exactly for `bz2`, and none for anything else |
| DumpCommand.CompressorFollowsRequest | src/DumbDbCommand.php:191-204 | with a plain requested compression the compressor is the one for that value, so `zip` gives none |
| DumpCommand.CompressorWithoutRequest | src/DumbDbCommand.php:191-204 | with no compression the compressor follows the base path's own extension |
| DumpCommand.OptionArgRoundTrip | src/DumbDbCommand.php:242-246 | `--name` or `--name=value` parses back to the name and the passed value, with `true` and `""` both read as no value |
| DumpCommand.PassThroughArgsStep | src/DumbDbCommand.php:239-248 | one more whitelist name adds its argument at the end, if that option was supplied |
| DumpCommand.PassThroughArgsConcat | src/DumbDbCommand.php:239-248 | the arguments for two name lists in a row are the arguments for each, concatenated |
| DumpCommand.OptionArg | src/DumbDbCommand.php:242-246 | the argument for one supplied option: `--name` for `true` or `""`, `--name=value` otherwise; `OptionArgRoundTrip` reads it back |
| DumpCommand.PassThroughArgs | src/DumbDbCommand.php:239-248 | the arguments the loop appends for a list of names, in list order; stated by the `PassThroughArgs…` lemmas and proved equal to the loop by `AddPassThroughOptions` |
| DumpCommand.AllowedOptionsTable | src/DumbDbCommand.php:26-97 | `ALLOWED_MYSQLDUMP_OPTIONS` has 70 names, the last of them `xml` |
| DumpCommand.PassThroughArgsLength | src/DumbDbCommand.php:239-248 | there is at most one argument per name |
| DumpCommand.PassThroughArgsCount | src/DumbDbCommand.php:239-248 | there is exactly one argument per supplied name: the count equals the number of positions whose option was supplied |
| DumpCommand.PassThroughArgAt | src/DumbDbCommand.php:239-248 | each supplied name's argument comes directly after the arguments of the names before it |
| DumpCommand.PassThroughArgsOrder | src/DumbDbCommand.php:239-248 | arguments follow whitelist order, not input order |
| DumpCommand.PassThroughArgsFrom | src/DumbDbCommand.php:239-248 | every argument belongs to some supplied whitelisted name, so unsupplied options contribute nothing |
| DumpCommand.PortOf | src/DumbDbCommand.php:182 | `$dbConfig['port'] ?? 3306` |
| DumpCommand.Connected | src/DumbDbCommand.php:178-184 | the settings after the connection setters: host, database, port with its default, user name and password |
| DumpCommand.WithCompressor | src/DumbDbCommand.php:200-204 | the settings after the compressor step: the compressor for the final extension when `COMPRESSORS` has one, unchanged otherwise |
| DumpCommand.WithFilters | src/DumbDbCommand.php:211-221 | the settings after the binary-path and table-list steps, each applied only for a truthy option |
| DumpCommand.WithSwitches | src/DumbDbCommand.php:223-237 | the settings after the four switch steps, each applied only when given |
| DumpCommand.WithPassThrough | src/DumbDbCommand.php:239-248 | the settings after the pass-through loop: its arguments appended to the extra options |
| DumpCommand.Configured | src/DumbDbCommand.php:178-248 | the builder state `fire()` reaches, the stages above applied to the fresh builder in the source's order; its meaning is stated by `ConfiguredMeaning` |
| DumpCommand.ConfiguredMeaning | src/DumbDbCommand.php:178-248 | the configured builder has the connection fields and port default, table lists that implode back to the option text with no comma in any name, switches on exactly when given, a compressor exactly for `gz`/`bz2`, and at most 70 extra options |
| DumpCommand.ExitCode | src/DumbDbCommand.php:250-261 | the exit code is 1 exactly when the dump step threw, and 0 exactly when it succeeded |
| DumpCommand.DumbDbCommand.constructor | src/DumbDbCommand.php:99-102 | keeps the configuration and the storage path it is given |
| DumpCommand.DumbDbCommand.Fire | src/DumbDbCommand.php:176-262 | returns the resolved path, a fresh builder in exactly the `Configured` state, the exit code and the report with the human-readable size |
| DumpCommand.DumbDbCommand.Connect | src/DumbDbCommand.php:178-184 | sets the five connection fields from the configuration, with port 3306 when none is configured |
| DumpCommand.DumbDbCommand.OutputPath | src/DumbDbCommand.php:186-198 | the path from the step-by-step reassignment equals `ResolvePath`, and it has a truthy extension when the compression is plain or absent |
| DumpCommand.DumbDbCommand.PickCompressor | src/DumbDbCommand.php:200-204 | sets the compressor only when the final extension is in `COMPRESSORS` |
| DumpCommand.DumbDbCommand.ApplyFilters | src/DumbDbCommand.php:211-221 | sets the binary path and the exploded table lists only for truthy options |
| DumpCommand.DumbDbCommand.ApplySwitches | src/DumbDbCommand.php:223-237 | applies each of the four switches only when it is given |
| DumpCommand.DumbDbCommand.AddPassThroughOptions | src/DumbDbCommand.php:239-248 | the loop appends exactly `PassThroughArgs` of the names to the extra options and leaves all other settings alone |
| DumpCommand.DumbDbCommand.Finish | src/DumbDbCommand.php:250-261 | the outcome of the dump step becomes the exit code and the report line |

## Left out

- Running mysqldump (`dumpToFile`) and how Spatie builds and escapes the shell command. The
  outcome of that step is an input (`DumpRun`).
- Spatie's own checks inside the builder are not modelled. These include the exception
  raised when both include and exclude tables are set, and any special handling in
  `addExtraOption`. The library's code is not part of this model, and its setters are
  modelled as plain field updates.
- The compressor implementations. `GzipCompressor` and `Bzip2Compressor` are tags.
- Filesystem calls. `dirname`/`file_exists`/`mkdir` on the output directory
  (src/DumbDbCommand.php:206-209) are not modelled. `realpath`/`filesize`
  (src/DumbDbCommand.php:252-253) arrive as the fields of `DumpRun.Dumped`.
- The clock (`Carbon::now()`) is a `Moment` parameter. Years outside 0-9999 are not covered
  by `FormatYmdHisLayout`.
- Flarum's `Config`, `Paths` and `AbstractCommand` are not modelled. Their values are
  parameters, and the message output is reduced to a `Report` value without its wording.
- Only `/` is modelled as a path separator. PHP's `basename` and `pathinfo` on Windows also
  split at `\` and after a drive letter's `:`, so a path such as `C:\my.dir\backup` resolves
  differently there. `Basename` and `Extension` describe the POSIX behaviour only.
- A pass-through option typed bare on a real command line, such as `--quick`, reaches
  `fire()` as null. Symfony gives a value-optional option without a value and without a
  default the value null, so line 241 drops it. The `Flag` (PHP `true`) case only arises
  when the input is built programmatically. The model takes the values as given.
- The option registration in `configure()` (src/DumbDbCommand.php:104-171) and Symfony's
  parsing of the command line are not modelled. That includes how Symfony passes a
  value-optional option given without a value, and how it rejects unknown options. The
  values arrive as they reach `fire()`.
- A non-integer port in the configuration. `DbConfig.port` is already an integer, so PHP's
  coercion is not modelled.
- Float arithmetic in `humanReadableSize` is not modelled. `log`, `floor`, `pow` and `round`
  are replaced by their exact integer meaning, so an IEEE rounding near an exact power of
  1024 may differ. Sizes of 1024^5 bytes or more (an undefined unit index in PHP) are
  excluded by a precondition, and negative sizes cannot occur because the size is a `nat`.
- DumpCommand.ResolvedExtension: the promise that the final extension is non-empty and
  equals the requested compression is proved only for a compression that is absent, falsy,
  or plain (no `.` and no `/`). `SlashCompressionLeavesNoExtension` shows that `/` breaks it.
- DumpCommand.ResolvePathIdempotent: stated only for an absent, falsy or plain compression.
  With a compression such as `tar.gz` the final extension is `gz`, not `tar.gz`, so a second
  pass appends `.tar.gz` again and the path grows each time.
- DumpCommand.OptionArgRoundTrip: stated for any name without `=`. The model does not prove
  that every whitelisted name has no `=`; all 70 names are plain lower-case words joined
  by `-`.
