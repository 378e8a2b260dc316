# Verified model of EWTS logging

EWTS is a logging system shared by C, C++, Fortran and Python modules. This project models
its logic in Dafny and proves what the parts promise each other. `dafny verify dfyconfig.toml`
checks everything.

| file | what it models |
|---|---|
| `calendar.dfy`, `timestamps.dfy` | the Fortran runtime's conversion of local time to UTC, day by day, against a closed-form count of Gregorian days; its two stamps and how they sort |
| `payload_framing.dfy`, `payload_codec.dfy`, `payload_log.dfy` | status records: the C++ writer (escaping, record, sentinels) and the Python reader (non-greedy pattern, JSON by section 7 of RFC 8259, field checks); reading a whole log back line by line |
| `ngen_logger.dfy`, `ngen_runs.dfy`, `ngen_modules.dfy` | the ngen logger as a class over its fields, the state each call leaves, and what holds over whole runs |
| `native_registry.dfy` | the C linked list and the regrown Fortran array of loggers, as implementations of one table |
| `python_loggers.dfy` | the Python cache, override table and standard-library handlers |
| `module_registry.dfy`, `identifiers.dfy` | the registry lookups of all languages, the generated Python index, and the generator's identifiers |
| `config_search.dfy`, `directories.dfy`, `line_split.dfy`, `log_paths.dfy` | the ancestor search, `mkdir_p` in its scratch buffer, the two line splitters, and the file names |
| `levels.dfy`, `text.dfy`, `options.dfy` | levels and the two roundings; strings; `Option` |

The environment, the clock, the file system, MPI and the boost JSON parser are parameters of
the calls that use them. A log file is the sequence of lines it holds. Code that changes state
is a class or a method with loops; its contract ties the new state to a function or states the
property outright, and the lemmas speak about that function.

What a function that occurs in a contract computes is stated once more without naming it: by a
literal table, by position, or by an inverse (`StripIs`, `CaseTable`, `ConfiguredLevelIs`,
`AfterInitIs`, `EffectiveLevelIs`, `RecordIs`, `ResolveNames` and others named so).

Where the code does not do what one would expect, the code is kept and the exact condition is
proved:

- An ISO stamp determines its moment exactly when the UTC year has four digits
  (`IsoTextNamesOneMomentIff`); other years print as asterisks, so the years 10000 and 10400
  share their stamps (`SameStampFarApart`).
- The reader raises on the writer's own report of a status message whose end sentinel is
  missing, since the report quotes that sentinel unescaped (`ErrorReportReadableIff`,
  `UnfinishedMessageReport`).
- The C++ extractor and the Python pattern agree exactly when there is no newline between the
  first begin sentinel and the end sentinel after it (`ExtractorsAgreeIff`,
  `NewlineBetweenSentinels`).
- `configure_existing_logger` leaves the logger cache pointing at an EWTS logger to which the
  handler no longer writes (`CachedIsLatestIff`, `TakeOverLeavesCacheBehind`).
- A Python minimum level strictly between two canonical levels loses records that reach it, and
  a minimum of 0 loses those below the level of the parent loggers
  (`PythonWritesFromMinimumIff`, `LostRecords`).
- Of several registry keys with one id only the first decides the ngen filter
  (`CfeFollowsCfeS`), while the exported level variable takes the key that happens to be last
  in a hash-table walk (`ExportsAlwaysIff`, `ExportFollowsFilterIff`, `CfeOrderDecides`).
- An id of blanks is the default logger in Fortran and an unnamed one in C, and the runtimes
  cut long ids differently (`KeysAgreeIff`, `KeysApart`).
- `mkdir_p("/")` fails (`RootFails`), and `mkdir_p` of a path that is a plain file succeeds
  (`ExistingCountsAsMade`, `FileInTheWay`).
- Module ids that differ only in case share a log file (`StandardPathsEqualIff`,
  `SameFileForBothCases`).

Two statements of `docs/architecture/status-payloads.md` differ from the code, which the model
follows: a missing `prog` is recorded as null, not `0.0`, and the example's `"prog":50.0` is
outside the range 0 to 1 that the Python reader accepts.

## Model

| member | source | states |
|---|---|---|
| `Calendar.AdjustUtc` | runtime/fortran/src/ewts/logger.f90:204-219 | For every zone offset and any hour and minute fields the loops end with 0<=h<24 and 0<=mi<60; a valid date stays valid, its instant, by the closed-form day count, drops by exactly the offset, and the result is the one valid time there |
| `Calendar.IncDay` | runtime/fortran/src/ewts/logger.f90:221-234 | A valid date becomes the valid date whose closed-form day number is one more |
| `Calendar.DecDay` | runtime/fortran/src/ewts/logger.f90:236-248 | A valid date becomes the valid date whose closed-form day number is one less |
| `Calendar.YearLength` | runtime/fortran/src/ewts/logger.f90:250-260 | The closed form gives a year 366 days exactly when the program's rule calls it leap |
| `Calendar.MonthLength` | runtime/fortran/src/ewts/logger.f90:250-260 | The program's month lengths tile the year of the closed form, with no gap at any month or year end |
| `Calendar.DayNumberInjective` | runtime/fortran/src/ewts/logger.f90:221-260 | A day number names at most one valid date |
| `Calendar.InstantOrder` | runtime/fortran/src/ewts/logger.f90:204-219 | Field-by-field order of valid times is the order of their instants, and equal instants mean equal times |
| `Calendar.DayStepsCancel` | runtime/fortran/src/ewts/logger.f90:221-248 | inc_day then dec_day, and dec_day then inc_day, return every valid date |
| `Calendar.UtcUnique` | runtime/fortran/src/ewts/logger.f90:204-219 | A valid time at the shifted instant is the UTC time: no other answer is possible |
| `Calendar.OffsetsCompose` | runtime/fortran/src/ewts/logger.f90:204-219 | UTC by z1 then z2 is UTC by z1+z2; by z then -z it is the time itself |
| `Calendar.AdjustTwice` | runtime/fortran/src/ewts/logger.f90:204-219 | Two adjust_utc calls with z1 and z2 give what one with z1+z2 gives, and a call with -z1 undoes one with z1 |
| `Calendar.KnownDays` | runtime/fortran/src/ewts/logger.f90:221-260 | The closed form on known days: 1 January of year 1 is day 1, of 1970 day 719163 |
| `Calendar.KnownLeapYears` | runtime/fortran/src/ewts/logger.f90:250-260 | 2000 and 2024 are leap years, 1900 and 2023 are not |
| `Timestamps.UtcTimestampIsoMs` | runtime/fortran/src/ewts/logger.f90:178-189 | The stamp shows the UTC time of the clock reading and is 24 characters wide |
| `Timestamps.UtcTimestampCompact` | runtime/fortran/src/ewts/logger.f90:191-202 | The file-name stamp shows the UTC time and is 15 characters wide |
| `Timestamps.IsoColumns` | runtime/fortran/src/ewts/logger.f90:188 | The ISO stamp is year, month, day, T, hour, minute, second, millisecond, Z with its separators |
| `Timestamps.CompactColumns` | runtime/fortran/src/ewts/logger.f90:201 | The file-name stamp is year, month, day, T, hour, minute, second without separators |
| `Timestamps.FieldIs` | runtime/fortran/src/ewts/logger.f90:188 | A field reads back, as decimal digits, as the number it shows, or is all asterisks if the number does not fit |
| `Timestamps.DigitsOrder` | runtime/fortran/src/ewts/logger.f90:188 | Zero-padded fields of one width compare as their values do |
| `Timestamps.RenderOrder` | runtime/fortran/src/ewts/logger.f90:188 | Texts of one layout whose fields fit compare as their field lists do, and are equal only for equal fields |
| `Timestamps.IsoTextOrder` | runtime/fortran/src/ewts/logger.f90:178-189 | For UTC years 0 to 9999 the ISO texts of any two clock readings, in whatever zones, sort as the moments and are equal only for the same moment |
| `Timestamps.CompactTextOrder` | runtime/fortran/src/ewts/logger.f90:191-202 | Likewise for the file-name stamp, to the second: order, and equality only for the same second |
| `Timestamps.IsoTextNamesOneMomentIff` | runtime/fortran/src/ewts/logger.f90:188 | An ISO text belongs to one UTC minute only, if and only if the year has four digits |
| `Timestamps.SameStampFarApart` | runtime/fortran/src/ewts/logger.f90:188 | Two moments 400 years apart with one ISO text |
| `PayloadFraming.ExtractsFirstFrame` | integrations/ngen/src/ewts_ngen/logger.cpp:172-215 | On a text with a sentinel the C++ rule succeeds exactly if a begin sentinel has an end sentinel after it, and yields what stands between the first such pair |
| `PayloadFraming.PlainTextIsPayload` | integrations/ngen/src/ewts_ngen/logger.cpp:186-191 | A text without sentinels is its own payload |
| `PayloadFraming.FailureNamesSentinel` | integrations/ngen/src/ewts_ngen/logger.cpp:193-210 | The error names the begin sentinel if the text has none, and else the end sentinel |
| `PayloadFraming.ExtractorsAgreeIff` | integrations/ngen/src/ewts_ngen/logger.cpp:172-215 | On any text with a sentinel both readers fail or both give one text, if and only if no newline stands between the first begin sentinel and the first end sentinel after it |
| `PayloadFraming.NewlineBetweenSentinels` | runtime/python/ewts/src/ewts/data_payloads.py:13-15 | A text on which they part |
| `PayloadFraming.ExtractorsAgreeOnOneLine` | runtime/python/ewts/src/ewts/data_payloads.py:13-15 | On one line the C++ rule succeeds exactly when the pattern matches, with the same text |
| `PayloadFraming.GroupsAreOneLine` | runtime/python/ewts/src/ewts/data_payloads.py:13-15 | No match of the pattern contains a newline |
| `PayloadFraming.WrappedBody` | runtime/python/ewts/src/ewts/data_payloads.py:129-135 | Between sentinels the pattern finds exactly the body, or, if the body holds an end sentinel, first a proper prefix of it |
| `PayloadCodec.EscapeJson` | integrations/ngen/src/ewts_ngen/logger.cpp:217-235 | The accumulating loop computes the escaped text |
| `PayloadCodec.ScanEscaped` | integrations/ngen/src/ewts_ngen/logger.cpp:217-235 | An escaped body and a quote scan back to the original text and the exact remainder, unless a control character other than newline, return and tab makes the scan fail |
| `PayloadCodec.AddString` | integrations/ngen/src/ewts_ngen/logger.cpp:1023-1033 | Appends the key and, if and only if the value is empty or NULL, null, else the escaped value in quotes; with a comma unless it is the first |
| `PayloadCodec.StringValueIs` | integrations/ngen/src/ewts_ngen/logger.cpp:1028-1032 | A text is written as null if and only if it is empty or NULL |
| `PayloadCodec.BuildJson` | integrations/ngen/src/ewts_ngen/logger.cpp:1020-1054 | The builder's text is the object of the four members in order |
| `PayloadCodec.RecordIs` | integrations/ngen/src/ewts_ngen/logger.cpp:1020-1071 | The record spelled out: stamp, id in eight columns, level name, and the four members between the sentinels |
| `PayloadCodec.BodyDecodes` | integrations/ngen/src/ewts_ngen/logger.cpp:1020-1054 | The body parses to exactly its four fields with nothing left over, or not at all when a text is not clean or the progress no number |
| `PayloadCodec.MembersExtend` | runtime/python/ewts/src/ewts/data_payloads.py:135-137 | What parses as an object parses alike in front of more text, which is left over |
| `PayloadCodec.CutObjectFails` | runtime/python/ewts/src/ewts/data_payloads.py:135-151 | No proper prefix of an object loads as an object |
| `PayloadCodec.BodySentinels` | integrations/ngen/src/ewts_ngen/logger.cpp:1020-1071 | The body holds an end sentinel if and only if one of its texts does: none can form across members or by escaping |
| `PayloadCodec.EscapeKeepsSentinels` | integrations/ngen/src/ewts_ngen/logger.cpp:217-235 | Escaping neither makes nor breaks a sentinel |
| `PayloadCodec.PrefixIsHarmless` | integrations/ngen/src/ewts_ngen/logger.cpp:1056-1071 | Whatever the module id, no begin sentinel starts in the record's prefix |
| `PayloadCodec.PayloadOfLogMsg` | runtime/python/ewts/src/ewts/data_payloads.py:129-153 | The reader as it rewrites the dictionary and collects errors computes the reading function |
| `PayloadCodec.AcceptedIff` | runtime/python/ewts/src/ewts/data_payloads.py:22-97 | The decoded objects the reader accepts, field by field |
| `PayloadCodec.OnePayloadOnly` | runtime/python/ewts/src/ewts/data_payloads.py:129-134 | A text with a second payload is refused |
| `PayloadCodec.TrailingTextRefused` | runtime/python/ewts/src/ewts/data_payloads.py:136-137 | No text may follow the object |
| `PayloadCodec.RecordRoundTripIff` | integrations/ngen/src/ewts_ngen/logger.cpp:1007-1080 | For every id, status, progress and texts the reader recovers status, progress and both texts exactly as written, an empty text or NULL as absent, if and only if the fields are readable; otherwise it raises |
| `PayloadCodec.RecordIsOneLineIff` | integrations/ngen/src/ewts_ngen/logger.cpp:1061-1071 | A record is one line if and only if the shown part of the id has no newline |
| `PayloadLog.LogReadsBack` | runtime/python/ewts/src/ewts/data_payloads.py:129-153 | The text of a payload log, split at its newlines and read line by line, gives each record's status, progress and texts exactly as written, in order, or an exception for unreadable fields, whatever the ids; a newline in an id adds only lines without payload |
| `PayloadCodec.ErrorReportReadableIff` | integrations/ngen/src/ewts_ngen/logger.cpp:957-967 | The report of a malformed message is readable, with its error text, if and only if the message has no begin sentinel |
| `PayloadCodec.UnfinishedMessageReport` | integrations/ngen/src/ewts_ngen/logger.cpp:193-196 | A concrete message whose report the reader raises on |
| `Levels.ClampKeepsFilterIff` | integrations/ngen/src/ewts_ngen/logger.cpp:66-76 | Clamping a threshold keeps the fate of every canonical level if and only if the threshold is at most 60 |
| `Levels.ClampUpMapDown` | runtime/python/ewts/src/ewts/logger.py:277-290 | ngen rounds thresholds up and Python rounds levels down, both against the canonical levels |
| `Levels.PythonWritesFromMinimumIff` | runtime/python/ewts/src/ewts/logger.py:277-300 | Records are written exactly from the minimum up, if and only if it is at most 10, canonical, or at least 60; for a minimum of 0, if and only if the parent loggers let everything through |
| `Levels.LostRecords` | runtime/python/ewts/src/ewts/logger.py:161 | A minimum of 25 loses a warning of level 29, and one of 0 an INFO record under a root logger at WARNING |
| `ModuleRegistry.IdFromKey` | runtime/c/src/ewts/module_keys.c:21-29 | The scan returns the id of the first entry with the key, or nothing if there is none |
| `ModuleRegistry.FirstKeyFromId` | runtime/c/src/ewts/module_keys.c:69-77 | The first of the id's keys in registry order |
| `ModuleRegistry.KeysFromId` | integrations/ngen/include/ewts_ngen/ngen_module_keys.hpp:68-75 | All keys of an id in registry order |
| `ModuleRegistry.KeysIntoBuffer` | runtime/c/src/ewts/module_keys.c:41-53 | Returns the full count, stores exactly the first keys that fit, leaves the rest of the buffer alone, and only counts without a buffer |
| `ModuleRegistry.KeysIntoArray` | runtime/fortran/src/ewts/module_keys.f90:62-78 | The same for Fortran's separate count and fill index; ids compare without the blanks that pad them, and keys are stored padded or cut to the caller's width |
| `ModuleRegistry.PaddingIsInvisible` | runtime/fortran/src/ewts/module_keys.f90:15-23 | A table padded to declared lengths that its texts fit reads back as the table, so Fortran's lookups see what the others see |
| `ModuleRegistry.ValidateRegistry` | tools/generate_language_constants.py:264-271 | Accepts exactly the registries with unique keys, and otherwise names two entries with one key, the second being the earliest clash |
| `ModuleRegistry.BuildIndex` | tools/generate_language_constants.py:1034-1042 | The dictionaries answer like the last entry with a key and the scan by id |
| `ModuleRegistry.IndexPartitions` | tools/generate_language_constants.py:1034-1042 | Over unique keys a key is listed under an id if and only if it looks up to it, and at most once |
| `ModuleRegistry.DictionaryAgreesWithScan` | runtime/python/ewts/src/ewts/module_keys.py:15-17 | The dictionary and the first-match scan agree on every key |
| `ConfigSearch.FindConfigFileFromPath` | integrations/ngen/src/ewts_ngen/logger.cpp:339-353 | The search ends on every path with the file of the first visited directory that has one, or nothing if none has |
| `ConfigSearch.JoinPathIs` | integrations/ngen/src/ewts_ngen/logger.cpp:868-873 | Paths are joined by one slash, unless one part is empty or the first ends in a slash |
| `ConfigSearch.ChainIsAncestors` | integrations/ngen/src/ewts_ngen/logger.cpp:329-353 | The directories visited are exactly the path and its ancestors |
| `ConfigSearch.ChainDescends` | integrations/ngen/src/ewts_ngen/logger.cpp:329-353 | Each directory visited is longer than all later ones |
| `ConfigSearch.DeepestConfigWins` | integrations/ngen/src/ewts_ngen/logger.cpp:339-353 | The file found is ngen_logging.json in the longest ancestor that has one, and none is found only if no ancestor has one |
| `LineSplit.ShouldLogLine` | integrations/ngen/src/ewts_ngen/logger.cpp:108-113 | Removes one trailing return, and keeps the line if and only if another character than blank and tab is left |
| `LineSplit.WriteLines` | integrations/ngen/src/ewts_ngen/logger.cpp:761-769 | The loop appends exactly the kept lines behind the prefix, in order |
| `LineSplit.LinesAre` | integrations/ngen/src/ewts_ngen/logger.cpp:761-763 | Lines are what newlines separate, and a final newline starts no further line |
| `LineSplit.KeptLine` | integrations/ngen/src/ewts_ngen/logger.cpp:108-113 | A line alone is kept without one trailing return, or dropped if only blanks and tabs are left |
| `LineSplit.KeptConcat` | integrations/ngen/src/ewts_ngen/logger.cpp:761-769 | Each line is judged for itself, and their order stays |
| `LineSplit.PrefixedIs` | integrations/ngen/src/ewts_ngen/logger.cpp:768 | Every line goes out as prefix, blank, line |
| `LineSplit.StrtokR` | runtime/c/src/ewts/logger.c:405-417 | Cuts the next segment off in place, changing one character of the buffer, and leaves the remaining segments to find |
| `LineSplit.CLogLines` | runtime/c/src/ewts/logger.c:405-420 | Every segment goes out behind the prefix, or the bare prefix if there is none |
| `LineSplit.SplittersAgree` | integrations/ngen/src/ewts_ngen/logger.cpp:761-783 | The ngen lines of a message are its C segments less one return each and less blank ones, in order |
| `LineSplit.SegmentsAreNonEmptyLines` | runtime/c/src/ewts/logger.c:405-417 | The segments are the lines without the empty ones, in order |
| `Directories.MkdirP` | runtime/c/src/ewts/logger.c:187-211 | Succeeds if and only if the path is not empty and no entry on its way is missing and refused or below a plain file; in any case exactly the directories before the first such entry are made; success leaves directories all the way if and only if the path itself was not a plain file |
| `Directories.TargetIs` | runtime/c/src/ewts/logger.c:193-197 | The path is taken as far as 1023 characters, less one final slash |
| `Directories.ComponentsAre` | runtime/c/src/ewts/logger.c:199-205 | A slash separates the components of what is before it from those of what is behind it |
| `Directories.ResolveIs` | runtime/c/src/ewts/logger.c:182-185 | Names that begin with a slash start from the root, others from the working directory |
| `Directories.EnsurePrefix` | runtime/c/src/ewts/logger.c:199-205 | The cut names the directory before the slash, which is made and the buffer mended, or nothing further can be made |
| `Directories.ExistingCountsAsMade` | runtime/c/src/ewts/logger.c:187-211 | Making what exists, a plain file included, succeeds and changes nothing |
| `Directories.NothingBelowAFile` | runtime/c/src/ewts/logger.c:201-203 | Making anything below a plain file fails and changes nothing |
| `Directories.FileInTheWay` | runtime/c/src/ewts/logger.c:187-211 | With a plain file f, making f succeeds and leaves it a file, making f/x fails |
| `Directories.RootFails` | runtime/c/src/ewts/logger.c:196-209 | The root path alone is refused and nothing changes |
| `Identifiers.IdentIsJoinedWords` | tools/generate_language_constants.py:62-71 | The regex pipeline gives the upper-cased alphanumeric runs joined by underscores, with the stand-in or the M prefix |
| `Identifiers.TwoWordKey` | tools/generate_language_constants.py:62-71 | A key of two words gives them in upper case with one underscore, behind M_ if it begins with a digit; the empty key gives MODULE |
| `Identifiers.WordsSplit` | tools/generate_language_constants.py:64-66 | Any character but the letters and digits separates words |
| `Identifiers.AlnumIs` | tools/generate_language_constants.py:64 | Which characters are letters and digits |
| `Identifiers.IdentLegalAndIdempotent` | tools/generate_language_constants.py:62-71 | Every key gives a legal identifier, which is its own identifier |
| `Identifiers.CollisionIff` | tools/generate_language_constants.py:62-71 | Exactly when two keys give one identifier |
| `LogPaths.StandardPathsEqualIff` | integrations/ngen/src/ewts_ngen/logger.cpp:717-735 | Two standard logs are one file if and only if the ids agree up to case and the ranks agree |
| `LogPaths.PathsAre` | integrations/ngen/src/ewts_ngen/logger.cpp:718-735 | The file names spelled out, with and without a prefix |
| `LogPaths.SameFileForBothCases` | integrations/ngen/src/ewts_ngen/logger.cpp:717-735 | The ids cfe and CFE write to one file |
| `LogPaths.LogsAreSeparate` | integrations/ngen/src/ewts_ngen/logger.cpp:717-735 | Upper-case ids have files of their own |
| `LogPaths.PayloadLogIsSeparate` | integrations/ngen/src/ewts_ngen/logger.cpp:913-928 | Of all ids only ngen_payload, in any case, has the payload log of its rank, and so none of at most eight characters |
| `NativeRegistry.TrimCopy` | runtime/c/src/ewts/logger.c:64-76 | The loops copy the trimmed text as far as the buffer goes |
| `NativeRegistry.UpperCopy` | runtime/c/src/ewts/logger.c:78-86 | The upper-cased, trimmed and cut id |
| `NativeRegistry.KeysAgreeIff` | runtime/fortran/src/ewts/logger.f90:308-310 | For every id, exactly when C and Fortran file it under one key: it is empty, or it starts with no other whitespace than blanks and both cut it alike |
| `NativeRegistry.KeysApart` | runtime/fortran/src/ewts/logger.f90:308-310 | Two ids filed apart: one of blanks, one of 64 letters |
| `NativeRegistry.SharingIff` | runtime/c/src/ewts/logger.c:333-349 | Ids that fit share a logger if and only if their trimmed texts agree up to ASCII case, C trimming all whitespace and Fortran blanks; without other whitespace at their ends they share in both runtimes or in neither |
| `NativeRegistry.CLogger.InitLoggerState` | runtime/c/src/ewts/logger.c:282-331 | Reads switch and level once; the level is the module's own variable if set and not 0, whatever the global one holds, else the global one if set and not 0, else 20 |
| `NativeRegistry.LevelForShortId` | runtime/c/src/ewts/logger.c:306-319 | The same with the variable's name written out, for ids that leave room for the suffix |
| `NativeRegistry.CKeyIs` | runtime/c/src/ewts/logger.c:333-336 | The C key, character by character |
| `NativeRegistry.FortranKeyIs` | runtime/fortran/src/ewts/logger.f90:308-310 | The Fortran key, character by character |
| `NativeRegistry.CRegistry.GetLoggerState` | runtime/c/src/ewts/logger.c:333-371 | The list takes the table's find-or-create step; a new logger has the environment's switch and the level of its own variable before the global one; earlier loggers keep place, id, level and switch; without memory nothing changes |
| `NativeRegistry.FortranRegistry.AppendLogger` | runtime/fortran/src/ewts/logger.f90:277-300 | The regrown array is the old slots and one more |
| `NativeRegistry.FortranRegistry.InitLoggerState` | runtime/fortran/src/ewts/logger.f90:325-382 | Initialises one slot once, its level by the same rule, and touches no other |
| `NativeRegistry.FortranRegistry.GetLoggerIndex` | runtime/fortran/src/ewts/logger.f90:302-323 | The array takes the same step of the same table, a new slot's level comes from its own variable before the global one, and old indices still hold the same loggers |
| `NativeRegistry.RunIs` | runtime/c/src/ewts/logger.c:333-371 | After any requests a logger exists if and only if it was asked for, and its bridge flag is up if and only if some request raised it |
| `NativeRegistry.FirstRequestDecides` | runtime/fortran/src/ewts/logger.f90:331-332 | Level and switch are those of the first request, whatever the environment becomes |
| `NativeRegistry.RequestsAgreeIff` | runtime/fortran/src/ewts/logger.f90:262-269 | In every environment both runtimes make the same request of the table for an id, if and only if they file it under one key that leaves room for the suffix of its level variable |
| `NgenLogger.Logger.ReadConfigFromResultsDir` | integrations/ngen/src/ewts_ngen/logger.cpp:355-443 | True if and only if the nearest configuration file parses; then each key has the level that the last entry for it gives by a literal table of words, or by rounding its number up, or INFO, and the switches are those of the file |
| `NgenLogger.ConfiguredLevelIs` | integrations/ngen/src/ewts_ngen/logger.cpp:66-91 | A level text without its outer whitespace means what the table of words says in any case, a number the least level not below it, 60 above 60, anything else INFO |
| `Text.NumberOfDecimal` | integrations/ngen/src/ewts_ngen/logger.cpp:432 | Digits read as the number they print |
| `Text.DecimalOfNumber` | integrations/ngen/src/ewts_ngen/logger.cpp:432 | Every text of digits without leading zeros is the print of the number it reads as |
| `Text.LeadingZero` | integrations/ngen/src/ewts_ngen/logger.cpp:432 | A leading zero does not count |
| `Text.StripIs` | integrations/ngen/src/ewts_ngen/logger.cpp:58-64 | Trimming gives the one text that is left when the dropped characters at both ends are taken off |
| `Text.SpaceCodes` | integrations/ngen/src/ewts_ngen/logger.cpp:59 | Which characters are whitespace |
| `Text.CaseTable` | integrations/ngen/src/ewts_ngen/logger.cpp:44-56 | Changing case goes letter by letter through the alphabet |
| `NgenLogger.Logger.InitIfNeeded` | integrations/ngen/src/ewts_ngen/logger.cpp:244-327 | Initialises once; the fields are those of the nearest configuration, or without one all registered keys have the level EWTS_LOG_LEVEL stands for, or INFO, and directory and unified file follow; later it changes nothing |
| `NgenLogger.Logger.FindEffectiveLevel` | integrations/ngen/src/ewts_ngen/logger.cpp:676-699 | By position: if no entry has the id, the logger's own level for NGEN and 20 for any other; else the level of the first entry's key if that is set, and otherwise the same two |
| `NgenLogger.Logger.OpenPayloadFileIfNeeded` | integrations/ngen/src/ewts_ngen/logger.cpp:898-943 | Opens lazily, never while disabled or without directory, and reports whether the file is open |
| `NgenLogger.Logger.LogPayloadFields` | integrations/ngen/src/ewts_ngen/logger.cpp:1007-1080 | One record if the file is or gets open, nothing otherwise |
| `NgenLogger.Logger.LogPayloadJson` | integrations/ngen/src/ewts_ngen/logger.cpp:945-1005 | One record, of the fields or of the error, and whether the text was well-formed |
| `NgenLogger.PayloadOfIs` | integrations/ngen/src/ewts_ngen/logger.cpp:945-1005 | The fields recorded for a null message, a malformed one, one that boost rejects and one it reads |
| `NgenLogger.Logger.LogText` | integrations/ngen/src/ewts_ngen/logger.cpp:664-784 | The new state of a string call: status to the payload file, other lines filtered and routed |
| `NgenLogger.LinePrefixIs` | integrations/ngen/src/ewts_ngen/logger.cpp:703-708 | The prefix is stamp, padded id and a name of seven characters by a literal table |
| `NgenLogger.Logger.WriteMessage` | integrations/ngen/src/ewts_ngen/logger.cpp:710-783 | Lines go to the split file, else the unified file, else stdout, and to one of them only |
| `NgenLogger.Logger.LogFormat` | integrations/ngen/src/ewts_ngen/logger.cpp:578-631 | The new state of a varargs call for a module |
| `NgenLogger.Logger.LogFormatNgen` | integrations/ngen/src/ewts_ngen/logger.cpp:633-662 | The new state of a varargs call for the logger's own id |
| `NgenRuns.RunKeepsGood` | integrations/ngen/src/ewts_ngen/logger.cpp:244-443 | After any run every stored level is canonical, logLevel is the level of "ngen", split and unified files exclude each other; once set the configuration stays |
| `NgenRuns.OverloadsAgree` | integrations/ngen/src/ewts_ngen/logger.cpp:573-699 | Every varargs overload leaves exactly the state its string overload leaves |
| `NgenRuns.StatusIsNeverFiltered` | integrations/ngen/src/ewts_ngen/logger.cpp:608-674 | A STATUS call by any of the four overloads is the payload call, whatever the levels |
| `NgenRuns.FirstEnvironmentDecides` | integrations/ngen/src/ewts_ngen/logger.cpp:244-327 | Any run has the configuration of the environment of its first call with a format, and without such a call nothing happens |
| `NgenRuns.DestinationIsStable` | integrations/ngen/src/ewts_ngen/logger.cpp:710-770 | No call of any kind changes which sink a module's later lines go to |
| `NgenRuns.RunDelivers` | integrations/ngen/src/ewts_ngen/logger.cpp:664-784 | Over any run every sink gains exactly the non-blank lines of the admitted messages whose module's one destination it is, once each, in call order |
| `NgenRuns.AdmittedIs` | integrations/ngen/src/ewts_ngen/logger.cpp:676-699 | Which calls for lines get through, by position in the registry |
| `NgenRuns.UnregisteredDelivers` | integrations/ngen/src/ewts_ngen/logger.cpp:664-699 | Wherever a run has got to, a call for an unregistered id delivers its lines if and only if its level is at least 20 and not STATUS |
| `NgenRuns.DisabledWritesNothing` | integrations/ngen/src/ewts_ngen/logger.cpp:668 | A disabled logger stays as it is over any run |
| `NgenRuns.RunRecords` | integrations/ngen/src/ewts_ngen/logger.cpp:898-1080 | Over any run the payload file gains exactly one record per status call, well-formed or not, from the first on that finds it openable |
| `NgenRuns.EveryStatusRecorded` | integrations/ngen/src/ewts_ngen/logger.cpp:909-942 | If the file opens no status call is lost; without a directory all are |
| `NgenRuns.PayloadLogReadsBack` | runtime/python/ewts/src/ewts/data_payloads.py:129-153 | The text of a run's payload file, read back by Python line by line, gives status, progress and texts of its status calls in order, an exception standing for unreadable ones |
| `NgenRuns.RunFromStart` | integrations/ngen/src/ewts_ngen/logger.cpp:244-784 | The contents of every sink and of the payload file after any run of a fresh logger |
| `NgenModules.TableKnowsNgen` | integrations/ngen/include/ewts_ngen/ngen_module_keys.hpp:22-24 | The compiled table files NGEN under "ngen" first, as the run results need |
| `NgenModules.FirstKeyDecides` | integrations/ngen/src/ewts_ngen/logger.cpp:680-698 | Only the first key of an id counts for its filter |
| `NgenModules.CfeFollowsCfeS` | integrations/ngen/src/ewts_ngen/logger.cpp:589-600 | For CFE that is "cfe-s", whatever "cfe-x" and "cfe" are set to |
| `NgenModules.IdOfKeyIs` | integrations/ngen/src/ewts_ngen/logger.cpp:875-893 | The id whose variable a key sets, by position: the first entry with the key, else the first with it in lower case |
| `NgenModules.ExportsAlwaysIff` | integrations/ngen/src/ewts_ngen/logger.cpp:445-467 | The exported level is a given one in every order of the table walk if and only if the id has keys and all of them have that level |
| `NgenModules.ExportFollowsFilterIff` | integrations/ngen/src/ewts_ngen/logger.cpp:445-467 | The exported level is the filtering one in every order of the walk if and only if all the id's keys have the level of its first registry key, or, that one missing, the fallback level |
| `NgenModules.DefaultsExportAlike` | integrations/ngen/src/ewts_ngen/logger.cpp:300-327 | Without a configuration file they are always the same |
| `NgenModules.CfeOrderDecides` | integrations/ngen/src/ewts_ngen/logger.cpp:445-467 | With cfe-s at 10 and cfe at 50 one walk exports 50 and another 10, while CFE is filtered at 10 |
| `PythonLoggers.Runtime.LoadConfig` | runtime/python/ewts/src/ewts/config.py:109-140 | Field by field what the override sets and else what the environment has; the level is the id's own variable, else the global one, else 20 |
| `PythonLoggers.Runtime.NewEwtsLogger` | runtime/python/ewts/src/ewts/logger.py:135-161 | A new logger with this configuration, whose handler replaces earlier EWTS handlers and no others |
| `PythonLoggers.WithoutEwtsKeeps` | runtime/python/ewts/src/ewts/logger.py:152-154 | Only EWTS handlers are taken off; a user's stay in order |
| `PythonLoggers.Runtime.GetLogger` | runtime/python/ewts/src/ewts/logger.py:418-426 | For a registered key, with or without whitespace around it, the logger of the key's id; for a blank text that of UNKNOWN; for any other text that of its upper case: the cached one, or a new one with the configuration of the moment that is cached |
| `PythonLoggers.AskByKeyAndId` | runtime/python/ewts/src/ewts/logger.py:64-72 | Asking by key and then by id gives the same logger |
| `PythonLoggers.Runtime.ResetLogger` | runtime/python/ewts/src/ewts/logger.py:429-437 | Cache entry and all handlers of the two standard loggers of the id go, and nothing else changes |
| `PythonLoggers.Runtime.SetupLogger` | runtime/python/ewts/src/ewts/logger.py:440-468 | Records the override for the id that the key stands for, and caches a logger built anew with it |
| `PythonLoggers.Runtime.ConfigureExistingLogger` | runtime/python/ewts/src/ewts/logger.py:470-502 | Refuses unregistered names and changes nothing; otherwise the logger's one handler is of a logger built anew, which is not cached |
| `PythonLoggers.ResolveIdempotent` | runtime/python/ewts/src/ewts/logger.py:64-72 | A resolved id resolves to itself, so resolving again on the way is harmless |
| `PythonLoggers.RunKeepsAttached` | runtime/python/ewts/src/ewts/logger.py:148-158 | After any operations "ewts.ID" has at most one EWTS handler, of the latest logger built for the id |
| `PythonLoggers.OverridesAreLastSetups` | runtime/python/ewts/src/ewts/config.py:23-38 | The override in force is that of the last setup call for the id, resets notwithstanding |
| `PythonLoggers.FreshConfig` | runtime/python/ewts/src/ewts/config.py:109-140 | A logger just built has the environment of that moment overlaid with only the last setup call |
| `PythonLoggers.CachedIsLatestIff` | runtime/python/ewts/src/ewts/logger.py:404-502 | The cached logger is the one the handler writes to if and only if no takeover came since it was cached |
| `PythonLoggers.TakeOverLeavesCacheBehind` | runtime/python/ewts/src/ewts/logger.py:470-502 | Asking for an id and then taking its logger over leaves the two apart |
| `PythonLoggers.KeysWellFormed` | runtime/python/ewts/src/ewts/module_keys.py:10 | The shipped table has the keys and ids these results assume |

## Left out

- Machine integers: Fortran and C integers and `atoi` are modelled unbounded, so overflow for offsets or digit strings beyond 32 bits is not captured.
- PayloadCodec.ParseValue: reads texts, null and number tokens of a flat object without whitespace, as the writer emits them; `\u` escapes, true, false, arrays and nested objects are refused, though Python's json accepts them.
- PayloadCodec.RecordRoundTripIff: the progress is the token the stream printed; how a double becomes that token, and how boost reads JSON null, is not modelled.
- PayloadCodec.PayloadOfLogMsg: takes its JSON from `ParseValue` and so fails on texts with whitespace, `\u` escapes, true, false or nesting between sentinels, which the writer never emits and Python's json would load.
- NgenLogger.Logger.WriteMessage: a stream that opens stays good; write failures such as a full disk are not modelled, nor are the diagnostics the logger prints about itself.
- NgenRuns.RunDelivers: names sinks by the module id as passed; two ids that differ in case open one file twice, see `LogPaths.StandardPathsEqualIff`.
- Directories.MkdirP: `.` and `..` are components like others, there are no links, and stat never fails for lack of permission; which entries the system refuses to make is a parameter.
- NativeRegistry.CLogger.InitLoggerState: what the switch and a level variable parse to are parameters, since C and Fortran scan numbers by library rules.
- NativeRegistry.FortranRegistry.InitLoggerState: likewise.
- NgenLogger.Logger.InitIfNeeded: the variables it exports are not part of the logger's state; see `NgenModules.ExportsAlwaysIff` for what they hold.
- PythonLoggers.RunKeepsAttached: users add handlers of their own but neither add nor remove EWTS handlers by hand.
- `parts_of_log_line` and `LogParts`: splitting a line at whitespace and checking its date adds only easy members.
- `_load_registry` field checks, the padding helpers, printf formatting, exception texts and the generator's templates.
- Locks and threads: each call is one step, as the source holds a mutex around it.
- The bridge loading through dlsym, weak symbols and ctypes, and `runtime/cpp/src/ewts/logger.cpp`, whose registry is a library map.
- Case and whitespace beyond ASCII.
