# samp-log-core, modelled in Dafny

samp-log-core is the logging library of SA-MP servers and their plugins.
Plugins obtain named loggers through a reference-counted C API. A logger
checks the message's severity against its bit mask and queues the message.
A background writer formats each queued record and appends it to
`logs/<module>.log`. WARNING and ERROR records are also copied to the
aggregate files `logs/warnings.log` and `logs/errors.log`.

For native calls and scripted log calls, the library resolves the current
AMX (Pawn virtual machine) instruction and the frame-pointer chain into
`file:line` call information. It does this through debug tables it loads
ahead of time and binds to each running AMX by an exact comparison of
image headers.

Loggers are configured from a YAML file (`log-config.yml`) and from
`server.cfg`. Size-based log rotation shifts numbered backups `<file>.N`
and then moves the live file aside.

The repository keeps several historical revisions of the same components,
and they disagree with each other. Each revision is modelled in its own
module, one module per source file:

- `AmxDebugManagerModule`, `CAmxDebugManagerModule`, `CAmxManagerModule`: the three debug managers.
- `LogRotation`, `LogRotationTypes`: rotation.
- Configuration:
  - `LogConfigReader`: the parsers of src/LogConfigReader.cpp.
  - `LogConfigModule`: the registry of src/LogConfig.hpp.
  - `LegacyConfigReader`: the older src/LogConfigReader.hpp.
  - `ConfigTypes`, `Yaml`: the configuration records and an abstract YAML node tree.
- Records and writing:
  - `MessageModule`: the record type.
  - `LogFormat`: line layouts.
  - `LogManagerModule`: the writer.
  - `LoggerModule`: src/Logger.cpp.
  - `NativeFormat`: the native-call formatter of both revisions.
- Severity:
  - `LogLevels`: masks.
  - `LevelOperators`: src/loglevel.hpp.
  - `G2LogLevels`: the bundled g2log levels.
  - `LoggerHeader`: src/Logger.hpp.
  - `Utils`: src/utils.cpp.
- `CLoggerModule`, `CPluginLoggerModule`, `PluginLoggerHeader`: the older loggers and the plugin wrapper.
- `ApiModule`: the API.
- `SampConfigReaderModule`, `CSampConfigReaderModule`, `ServerCfg`: the two server.cfg readers and their shared splitting logic.
- `Common`, `Numerals`, `AmxTypes`: helpers.

Modelling choices:

- Severity masks are sets of bit positions. DEBUG is bit 0, INFO 1, WARNING 2, ERROR 3, FATAL 4 and VERBOSE 5. A test `(mask & l) == l` becomes `l <= mask`.
- Files are a map from path to content, and a directory is a listing.
- AMX data memory is a map from address to cell.
- The AMX debug library (`dbg_LoadInfo`, `dbg_Lookup*`) is finite maps stored in a `DebugInfo` value. A lookup that misses is the library's error return, after it has cleared its output: the line to 0, a name to NULL.
- Objects whose fields the source updates in place are classes with methods; pure code is functions.

Where the code disagrees with its own comments or declarations, the model
follows the code:

- Rotation sizes are kilobytes. src/LogRotationManager.hpp:28 says so, and the SIZE threshold multiplies by 1000. The older src/LogConfigReader.hpp:27 labels the same field "in megabytes".
- `CLogger::SetLogLevel` takes an `enabled` flag (src/CLogger.hpp:37) but ignores it, so it never clears a level.

Where the code is wrong (see Findings), each bug is modelled twice: as written, and corrected. The members built on top of a buggy helper use the corrected half. "## Left out" names each of them and says how the program as written differs.

## Model

| member | source | states |
|---|---|---|
| AmxDebugManagerModule.LeadingCount | src/AmxDebugManager.cpp:142-144 | the index the advancing loop stops at: the number of leading entries at or below the address, never more than the table |
| AmxDebugManagerModule.SearchLine | src/AmxDebugManager.cpp:138-152 | the line search fails when no entry or every entry is at or below the address; otherwise it gives the 1-based line of the last entry at or below it |
| AmxDebugManagerModule.SearchUsesEnclosingEntry | src/AmxDebugManager.cpp:142-152 | in a sorted table the entry used is the one whose address range holds the address |
| AmxDebugManagerModule.LastEntryUnreachable | src/AmxDebugManager.cpp:146-147 | the final line-table entry is never used: every address at or past it fails |
| AmxDebugManagerModule.FramesShape | src/AmxDebugManager.cpp:184-199 | every walked frame is a resolved call at some return address or the `<unknown>` record, and there are at most fuel of them |
| AmxDebugManagerModule.SelfLinkedFrameNeverStops | src/AmxDebugManager.cpp:184-199 | a frame whose saved frame pointer points at itself pushes a frame on every iteration: the uncapped loop does not end |
| AmxDebugManagerModule.DecrementLast | src/AmxDebugManager.cpp:203-204 | with more than one record only the last record's line drops by one; with one or none nothing changes |
| AmxDebugManagerModule.AmxDebugManager.constructor | src/AmxDebugManager.cpp:13-34 | disabled: nothing loaded; no gamemode: return before filterscripts; otherwise gamemodes, then filterscripts, are loaded in order |
| AmxDebugManagerModule.AmxDebugManager.InitDebugData | src/AmxDebugManager.cpp:66-96 | false for an unopenable or unloadable file; otherwise the (header, table) pair is appended |
| AmxDebugManagerModule.AmxDebugManager.RegisterAmx | src/AmxDebugManager.cpp:98-114 | no change when disabled or already bound; otherwise bound to the first table with an equal header, or left unbound |
| AmxDebugManagerModule.AmxDebugManager.EraseAmx | src/AmxDebugManager.cpp:116-122 | removes the binding when enabled, a no-op when disabled; tables untouched |
| AmxDebugManagerModule.AmxDebugManager.GetFunctionCall | src/AmxDebugManager.cpp:124-162 | false when disabled, unbound or the line search fails, with dest untouched; once the line is found it is written; a failed file lookup keeps the old function; the file is written once found; true exactly when the call resolves, with the resolved call |
| AmxDebugManagerModule.AmxDebugManager.GetFunctionCallTraceAsWritten | src/AmxDebugManager.cpp:164-175 | as written the trace never succeeds and dest is never changed |
| AmxDebugManagerModule.AmxDebugManager.WalkFrames | src/AmxDebugManager.cpp:184-199 | the loop appends exactly the frames of the frame-pointer chain, stopping at a zero return address or a zero saved frame pointer |
| AmxDebugManagerModule.AmxDebugManager.GetFunctionCallTrace | src/AmxDebugManager.cpp:164-206 | with the guard corrected: true exactly when the cip frame resolves; dest becomes old dest, the cip frame and the walked frames, with the HACK decrement applied |
| AmxDebugManagerModule.TraceKeepsExistingRecords | src/AmxDebugManager.cpp:177-204 | a successful trace keeps every earlier record and adds one more than the frames walked |
| AmxDebugManagerModule.HackHitsCipFrameWhenAppending | src/AmxDebugManager.cpp:177-204 | appending to a non-empty dest with no frame to walk decrements the cip frame's own line |
| AmxTypes.FirstMatch | src/AmxDebugManager.cpp:106-113 | the index of the first stored header equal to the image header, if any |
| AmxTypes.FindFirstMatch | src/AmxDebugManager.cpp:106-113 | the scan loop returns exactly FirstMatch |
| AmxTypes.FirstMatchIsFirst | src/AmxDebugManager.cpp:106-113 | when entry i is the first with an equal header, FirstMatch finds exactly i; when no entry has one, it finds nothing |
| AmxTypes.LoadedEntry | src/AmxDebugManager.cpp:66-96 | an entry is stored for a file exactly when it opens and its debug information loads, with that header and table |
| AmxTypes.LoadedEntries | src/AmxDebugManager.cpp:26-33 | never more stored entries than files |
| AmxTypes.AllLoadedKeepsOrder | src/AmxDebugManager.cpp:26-33 | when every file opens and loads, one entry per file, entry i holding file i's header and table |
| AmxTypes.NoneOpenedStoresNothing | src/AmxDebugManager.cpp:26-33 | when no file opens, nothing is stored |
| CAmxDebugManagerModule.DebugInfoDisabled | src/CAmxDebugManager.cpp:10-18 | disabled exactly when `logcore_debuginfo` exists, is non-empty and starts with '0' |
| CAmxDebugManagerModule.DisableRuleExamples | src/CAmxDebugManager.cpp:10-18 | "0" and "0ff" disable; "1", "no", an empty value and a missing variable do not |
| CAmxDebugManagerModule.GetNativeParamsPtr | src/CAmxDebugManager.cpp:160-168 | a 32-bit address congruent modulo 2^32 to the data segment (`data`, or `base + hdr.dat` when null) plus `stk`, and equal to that sum whenever the sum is an address |
| CAmxDebugManagerModule.ParamsPtrFollowsStack | src/CAmxDebugManager.cpp:160-168 | pushing m cells moves the parameter pointer down by m cells while the stack top stays inside the 32-bit address space |
| CAmxDebugManagerModule.CAmxDebugManager.constructor | src/CAmxDebugManager.cpp:8-33 | disabled or without gamemode nothing is loaded; otherwise gamemodes then filterscripts |
| CAmxDebugManagerModule.CAmxDebugManager.InitDebugData | src/CAmxDebugManager.cpp:65-95 | false for an unopenable or unloadable file; otherwise the pair is stored |
| CAmxDebugManagerModule.CAmxDebugManager.RegisterAmx | src/CAmxDebugManager.cpp:97-113 | no change when disabled or bound; otherwise bound to the first equal header, if any |
| CAmxDebugManagerModule.CAmxDebugManager.EraseAmx | src/CAmxDebugManager.cpp:115-121 | removes the binding; a no-op when disabled |
| CAmxDebugManagerModule.CAmxDebugManager.GetLastAmxLineAsWritten | src/CAmxDebugManager.cpp:124-134 | as written the result is true only for a successful lookup of a non-zero 0-based line, and line 0 yields false with the line set to 1; a missed lookup clears the line to 0; disabled or unbound leaves it unchanged |
| CAmxDebugManagerModule.CAmxDebugManager.GetLastAmxLine | src/CAmxDebugManager.cpp:124-134 | corrected: true exactly when the lookup succeeds, with the 1-based line; a missed lookup clears the line to 0; disabled or unbound leaves it unchanged |
| CAmxDebugManagerModule.CAmxDebugManager.GetLastAmxFile | src/CAmxDebugManager.cpp:136-146 | false when disabled or unbound, pointer unchanged; otherwise true exactly when the file lookup succeeds, with Some(name), and a miss leaves the NULL pointer (None) |
| CAmxDebugManagerModule.CAmxDebugManager.GetLastAmxFunction | src/CAmxDebugManager.cpp:148-158 | false when disabled or unbound, pointer unchanged; otherwise true exactly when the function lookup succeeds, with Some(name), and a miss leaves the NULL pointer (None) |
| CAmxManagerModule.CAmxManager.constructor | src/CAmxManager.cpp:8-23 | with no gamemode nothing is loaded; otherwise gamemodes then filterscripts |
| CAmxManagerModule.CAmxManager.InitDebugData | src/CAmxManager.cpp:55-85 | false for an unopenable file and for a failed load; the pair is stored only on success |
| CAmxManagerModule.CAmxManager.RegisterAmx | src/CAmxManager.cpp:87-100 | a bound AMX keeps its binding; otherwise the first equal header is taken; no disable flag |
| CAmxManagerModule.CAmxManager.EraseAmx | src/CAmxManager.cpp:102-105 | removes the binding if present |
| CAmxManagerModule.CAmxManager.GetLastAmxLine | src/CAmxManager.cpp:108-115 | true exactly when the lookup succeeds, with the raw 0-based line (no +1); a missed lookup clears the line to 0; an unbound AMX leaves it unchanged |
| CAmxManagerModule.CAmxManager.GetLastAmxFile | src/CAmxManager.cpp:117-132 | on success the name is assigned and true returned; unbound or failed lookup: false, string unchanged |
| CAmxManagerModule.CAmxManager.GetLastAmxFunction | src/CAmxManager.cpp:134-149 | as GetLastAmxFile with the function lookup |
| LogRotationTypes.TypeOf | src/LogRotationManager.hpp:9-30 | the `Type` of a tagged rotation: NONE, DATE and SIZE exactly for the three variants |
| LogRotationTypes.DefaultRotationConfig | src/LogRotationManager.hpp:23-32 | default: type NONE, ten backups |
| LogRotation.ThresholdAsWritten | src/LogRotationManager.cpp:26 | as written `FileSize * 1000` is computed in unsigned 32 bits, modulo 2^32 |
| LogRotation.ThresholdWrapsAboveFourGigabytes | src/LogRotationManager.cpp:26 | 5,000,000 kB wraps to a threshold of 705,032,704 bytes |
| LogRotation.Threshold | src/LogRotationManager.cpp:26-27 | corrected threshold: the size in kB times 1000, rotation inclusive at that size |
| LogRotation.ThresholdMonotone | src/LogRotationManager.cpp:26-27 | the corrected threshold grows with the setting and agrees with the as-written one below 2^32 bytes |
| LogRotation.LastIndexOf | src/LogRotationManager.cpp:29 | the position of the last occurrence, or none when the character is absent |
| LogRotation.SplitPath | src/LogRotationManager.cpp:29-32 | directory and file name split at the last '/', the name being what follows it |
| LogRotation.Extension | src/LogRotationManager.cpp:54 | no '.' in the result; it is a suffix of the name that a '.' directly precedes when the name has one, so what follows the last '.'; "" when the name has no '.' |
| LogRotation.DropSpaces | src/LogRotationManager.cpp:54 | a suffix of the input; everything dropped is white space and the result does not start with white space |
| LogRotation.ParseExtension | src/LogRotationManager.cpp:53-58 | the empty extension is accepted as 0; an all-digit extension is accepted with its decimal value; an extension without a digit is rejected, and every accepted non-empty extension ends in a digit |
| LogRotation.Candidates | src/LogRotationManager.cpp:40-61 | at most one number per listed entry; every number is the one some entry contributes; no contributing entry, no numbers |
| LogRotation.CandidatesAppend | src/LogRotationManager.cpp:40-61 | the scan keeps listing order: the numbers of two listings read in turn are the first's then the second's |
| LogRotation.CandidatesComplete | src/LogRotationManager.cpp:40-61 | every qualifying entry's number is pushed, after those of the entries listed before it and before those listed after it |
| LogRotation.ScanDirectory | src/LogRotationManager.cpp:40-61 | the scan loop produces exactly Candidates |
| LogRotation.NumberedBackupIsCandidate | src/LogRotationManager.cpp:46-60 | `app.log.3` next to `app.log` yields 3 |
| LogRotation.OtherEntriesAreNoCandidates | src/LogRotationManager.cpp:46-58 | a directory `app.log.3`, another file's `other.log.3` and the non-numeric `app.log.old` yield nothing |
| LogRotation.NonNumericExtensionIsNoCandidate | src/LogRotationManager.cpp:53-58 | any entry whose extension is non-empty and does not end in a digit yields nothing |
| LogRotation.InsertDescending | src/LogRotationManager.cpp:66 | insertion keeps descending order and adds exactly one occurrence |
| LogRotation.SortDescending | src/LogRotationManager.cpp:66 | the same multiset of numbers, largest first |
| LogRotation.BackupName | src/LogRotationManager.cpp:68-71 | `<path>.<n>` |
| LogRotation.BackupOps | src/LogRotationManager.cpp:73-89 | one call per number: the i-th is removed exactly when m - i >= BackupCount, otherwise renamed n to n+1 |
| LogRotation.Check | src/LogRotationManager.cpp:10-105 | NONE, DATE, an unreadable size and a size below the threshold change nothing; otherwise the file system is the rotation plan applied |
| LogRotation.Rotate | src/LogRotationManager.cpp:29-99 | the scan, sort, backup loop and live-file step together apply the rotation plan |
| LogRotation.ApplyOpsSnoc | src/LogRotationManager.cpp:73-89 | applying one more call is applying it to the result so far |
| LogRotation.ShiftBackups | src/LogRotationManager.cpp:73-89 | the backup loop with its decrementing count applies exactly BackupOps |
| LogRotation.ZeroBackupsOnlyTruncates | src/LogRotationManager.cpp:35-99 | with zero backups the only call truncates the live file |
| LogRotation.RemovesOldestFirst | src/LogRotationManager.cpp:73-89 | in the sorted plan a removal always comes before a rename, and removes a number no smaller than the renamed one |
| LogRotation.RenamesAreTheLastKept | src/LogRotationManager.cpp:73-89 | among the first k calls the renames are exactly those past the first kept position m - BackupCount + 1 (clamped to 0..m) |
| LogRotation.KeptBackups | src/LogRotationManager.cpp:73-94 | the number of renames in the plan is KeptCount, so at most BackupCount - 1 backups are shifted and kept |
| LogRotation.BackupNameInjective | src/LogRotationManager.cpp:68-71 | different numbers give different backup names |
| LogRotation.RenameNeverHitsPendingBackup | src/LogRotationManager.cpp:66-89 | a rename target is never a backup still waiting to be processed |
| LogRotation.LiveFileIsNoBackup | src/LogRotationManager.cpp:68-94 | the live path is not a backup name |
| LogConfigReader.GetAllLogLevel | src/LogConfigReader.cpp:10-14 | the six named levels and no other bit |
| LogConfigReader.LevelByName | src/LogConfigReader.cpp:18-26 | the seven case-sensitive names and their masks; anything else is unknown |
| LogConfigReader.LevelNamesRoundTrip | src/LogConfigReader.cpp:18-26 | every named level's name parses back to it, "All" is their union, and "DEBUG" is not accepted |
| LogConfigReader.ParseLogLevel | src/LogConfigReader.cpp:16-46 | a known name is OR-ed into dest without clearing bits; empty or unknown: false, dest unchanged |
| LogConfigReader.DurationOf | src/LogConfigReader.cpp:48-61 | daily, weekly and monthly name their periods |
| LogConfigReader.ParseDuration | src/LogConfigReader.cpp:48-61 | accepted in any case exactly for the three names; otherwise false, dest unchanged |
| LogConfigReader.LoweredIdempotent | src/LogConfigReader.cpp:50 | lower-casing twice is lower-casing once |
| LogConfigReader.DurationRoundTrip | src/LogConfigReader.cpp:48-61 | every period is accepted under its name in any capitalisation |
| LogConfigReader.SizeSettingDigits | src/LogConfigReader.cpp:65-70 | the leading digit run of an accepted setting is its number part |
| LogConfigReader.ParseFileSize | src/LogConfigReader.cpp:63-89 | accepted exactly for `<digits><k/m/g>b` in any case, giving n, n*1000 or n*1000*1000 kB as computed; otherwise false with dest unchanged, or an exception where `stoi` throws |
| LogConfigReader.FileSizeRoundTrip | src/LogConfigReader.cpp:65-79 | decimal(n)+"KB" reads back as n, decimal(n)+"mb" as n*1000, for n in range |
| LogConfigReader.FileSizeExamples | src/LogConfigReader.cpp:63-89 | "5GB" is five million kB; "5000GB" wraps |
| LogConfigReader.ValidateTimeFormat | src/LogConfigReader.cpp:99-152 | the index-advancing loop returns exactly the front-to-back reading: true, false, or the exception of a trailing '%' |
| LogConfigReader.NoPercentIsValid | src/LogConfigReader.cpp:99-152 | a format without '%' is valid |
| LogConfigReader.SpecifiedFormatIsValid | src/LogConfigReader.cpp:99-152 | a format where every '%' is followed by a listed specifier is valid |
| LogConfigReader.RejectionHasWitness | src/LogConfigReader.cpp:99-152 | a rejection points at a '%' followed by a non-specifier; an exception at a final '%' |
| LogConfigReader.TimeFormatExamples | src/LogConfigReader.cpp:99-152 | "%x %X" and "%%q" pass, "%q" fails |
| LogConfigReader.GetInternalLogConfig | src/LogConfigReader.cpp:91-97 | the log-core logger: every level, console echo, other fields default |
| LogConfigReader.LevelsOf | src/LogConfigReader.cpp:201-209 | every level a list item names is in the result, and every bit of the result comes from a level some item names |
| LogConfigReader.LevelSetting | src/LogConfigReader.cpp:195-210 | a missing key throws (its `IsSequence()`); a null key keeps the default; a list replaces the default by exactly the levels it names |
| LogConfigReader.LevelSettingCases | src/LogConfigReader.cpp:195-210 | a missing key throws and a null one keeps the default; one name gives that level; an unknown name leaves no level |
| LogConfigReader.LevelListCase | src/LogConfigReader.cpp:199-206 | the list [Error, Fatal] gives exactly ERROR and FATAL, whatever the default |
| LogConfigReader.RotationSetting | src/LogConfigReader.cpp:212-281 | a scalar `LogRotation` throws when subscripted; with no rotation key, or one that is null or a list, the rotation is unchanged; any other throw needs a `Trigger`, and with a scalar `Type` it happens only for "Size" with a trigger whose leading number overflows `stoi` |
| LogConfigReader.SizeFallback | src/LogConfigReader.cpp:247-256 | a size trigger that does not parse gives 100 kB, keeping the backup count |
| LogConfigReader.DateFallback | src/LogConfigReader.cpp:234-243 | an unknown date trigger gives DAILY, keeping the backup count |
| LogConfigReader.RotationTypeMustBeScalar | src/LogConfigReader.cpp:225 | a sequence as `Type` makes the reload throw |
| LogConfigReader.OversizedSizeTriggerThrows | src/LogConfigReader.cpp:62-69 | a size trigger decimal(n)+"KB" with n above INT_MAX throws instead of falling back to 100 kB |
| LogConfigReader.LoggerSetting | src/LogConfigReader.cpp:193-289 | an entry is read without an exception exactly when it is a mapping with a `LogLevel` key and its rotation does not throw; its level and rotation are then what LevelSetting and RotationSetting give |
| LogConfigReader.NullLevelKeepsDefaults | src/LogConfigReader.cpp:195-289 | an entry whose only key is a null `LogLevel` keeps every default |
| LogConfigReader.LoggerAccessThrows | src/LogConfigReader.cpp:195-217 | entries `yes`, null, `{}`, `{Append: true}` and one with `LogRotation: Size` all throw |
| LogConfigReader.LoggerConfigsFrom | src/LogConfigReader.cpp:176-292 | the internal "log-core" logger is always in the map, whatever the entries |
| LogConfigReader.LoggerConfigsOf | src/LogConfigReader.cpp:176-292 | the map is reset to "log-core" before `root["Logger"]` is read: a scalar root throws with only "log-core", a null or list root gives only "log-core", a mapping root gives the loop over its `Logger` entries |
| LogConfigReader.OversizedTriggerAbortsLoggers | src/LogConfigReader.cpp:176-292 | an entry with a level and an oversized size trigger ends the logger loop with an exception and leaves the map as the earlier entries made it |
| LogConfigReader.InternalLoggerCannotBeOverridden | src/LogConfigReader.cpp:176-190 | "log-core" always holds the internal configuration and "" never becomes a logger |
| LogConfigReader.FirstLoggerEntryWins | src/LogConfigReader.cpp:291 | for a duplicated name the first entry is kept |
| LogConfigReader.KeepsEarlierEntries | src/LogConfigReader.cpp:181-292 | later entries never change a stored one |
| LogConfigReader.LevelConfigKeysAreNamed | src/LogConfigReader.cpp:294-308 | every key of the per-level map is a level some entry names |
| LogConfigReader.ScalarLevelEntryThrows | src/LogConfigReader.cpp:299-303 | a level entry with a scalar value ends the per-level loop with an exception, keeping the earlier entries |
| LogConfigReader.GlobalConfigFrom | src/LogConfigReader.cpp:310-334 | an exception leaves the defaults; a time format that is not a scalar keeps the default one; the logs root is always "logs/" |
| LogConfigReader.InvalidTimeFormatKeepsDefault | src/LogConfigReader.cpp:312-326 | an invalid time format keeps "%x %X" |
| ConfigTypes.DefaultLogLevelConfig | src/LogConfig.hpp:19-22 | no console echo by default |
| ConfigTypes.DefaultGlobalConfig | src/LogConfig.hpp:24-30 | "%x %X", debug info on, no colours, "logs/" |
| LogConfigModule.ReadLoggerLevel | src/LogConfigReader.cpp:195-210 | the loop over the `LogLevel` node gives LevelSetting, and throws exactly where LevelSetting does |
| LogConfigModule.ThrowIsFinal | src/LogConfigReader.cpp:181-292 | after an exception later entries change nothing |
| LogConfigModule.LevelThrowIsFinal | src/LogConfigReader.cpp:296-308 | after an exception in the per-level loop later entries change nothing |
| LogConfigModule.LogConfig.constructor | src/LogConfig.hpp:19-30 | empty maps and default global settings |
| LogConfigModule.LogConfig.AddLoggerConfig | src/LogConfig.hpp:52-60 | emplace keeps an existing record; the subscriber is called with the stored record |
| LogConfigModule.LogConfig.SubscribeLogger | src/LogConfig.hpp:65-74 | the first callback per module is kept; with a record the stored callback is called once with it |
| LogConfigModule.LogConfig.UnsubscribeLogger | src/LogConfig.hpp:75-78 | removes the callback, records untouched |
| LogConfigModule.LogConfig.GetLogLevelConfig | src/LogConfig.hpp:80-84 | inserts a default record for an unseen level and returns the stored one |
| LogConfigModule.LogConfig.GetGlobalConfig | src/LogConfig.hpp:85-89 | the current global settings; no state changes |
| LogConfigModule.LogConfig.ParseConfigFile | src/LogConfigReader.cpp:155-335 | a failed load changes nothing; otherwise loggers, levels and globals are rebuilt in that order as LoggerConfigsOf, LevelConfigsFrom and GlobalConfigFrom say, and an exception in one leaves the later ones untouched |
| LogConfigModule.LogConfig.ReadLoggers | src/LogConfigReader.cpp:176-292 | the logger part gives LoggerConfigsOf, including the exception of a scalar root and the stop at the first throwing entry |
| LogConfigModule.LogConfig.ReadLevels | src/LogConfigReader.cpp:294-308 | the level loop gives LevelConfigsFrom, including its stop at the first throwing entry |
| LogConfigModule.LogConfig.ReadLevelEntry | src/LogConfigReader.cpp:298-307 | one round extends LevelConfigsFrom by one entry: a key naming a level adds its console flag unless the level is there; reading the flag throws exactly for a scalar value; nothing else changes |
| LogConfigModule.LogConfig.ReadGlobal | src/LogConfigReader.cpp:310-334 | the global settings give GlobalConfigFrom |
| LegacyConfigReader.DefaultLegacyLogConfig | src/LogConfigReader.hpp:23-24 | errors, warnings and fatal errors only, no rotation |
| LegacyConfigReader.LogConfigReader.GetLoggerConfig | src/LogConfigReader.hpp:48-57 | present module: its record and true; absent: false, dest unchanged |
| LogFormat.CallEntry | src/LogManager.cpp:56 | the entry starts with the file name followed by ':' |
| LogFormat.CallEntryLayout | src/LogManager.cpp:56 | an entry is the file name, then a ':' that is the last one in the entry, then the line in decimal that reads back as the line, after a '-' when it is negative |
| LogFormat.CallEntryInjective | src/LogManager.cpp:56 | equal entries come from frames with the same file and the same line |
| LogFormat.CallEntries | src/LogManager.cpp:52-58 | as many entries as frames |
| LogFormat.CallEntriesAreFrames | src/LogManager.cpp:52-58 | entry i is frame i's CallEntry: one entry per frame, in order |
| LogFormat.CallSuffix | src/LogManager.cpp:46-61 | empty exactly without call information; otherwise it opens with " (" and closes with ')' |
| LogFormat.SingleFrameSuffix | src/LogManager.cpp:46-61 | one frame gives " (file:line)" |
| LogFormat.CallSuffixSnoc | src/LogManager.cpp:52-58 | one more frame inserts " -> file:line" before ")" |
| LogFormat.ModuleLineInjective | src/LogManager.cpp:185-190 | for named levels and timestamps without ']', a module line identifies its timestamp, level and text |
| LogFormat.AggregateLineInjective | src/LogManager.cpp:202-205 | an aggregate line identifies its timestamp, module and text |
| LogManagerModule.GetLogLevelAsString | src/LogManager.cpp:26-44 | single levels get their names, all else "<unknown>"; agrees with utils |
| LogManagerModule.WriteCallInfoString | src/LogManager.cpp:46-61 | the loop appends exactly CallSuffix |
| LogManagerModule.FirstOf | src/LogManager.cpp:86 | the first position holding a listed character, or the length |
| LogManagerModule.StripBrackets | src/LogManager.cpp:84-88 | no bracket remains, the result is no longer than the input, and a bracket-free string is unchanged |
| LogManagerModule.StripBracketsAppend | src/LogManager.cpp:84-88 | stripping distributes over concatenation |
| LogManagerModule.StripBracketsIdempotent | src/LogManager.cpp:84-88 | stripping twice is stripping once |
| LogManagerModule.RemoveBrackets | src/LogManager.cpp:85-87 | the erase loop gives StripBrackets |
| LogManagerModule.DateTimeFormat | src/LogManager.cpp:77-90 | "{:%x %X}" without `logtimeformat`; otherwise "{:" + stripped value + "}" |
| LogManagerModule.SlashFoldersExtend | src/LogManager.cpp:163-167 | the folders of a longer prefix extend those of a shorter one |
| LogManagerModule.FolderPrefixes | src/LogManager.cpp:163-167 | "logs/" + the part before each '/', shortest first |
| LogManagerModule.FolderPrefixesComplete | src/LogManager.cpp:163-167 | every '/' of the name gives its folder |
| LogManagerModule.FolderPrefixesShortestFirst | src/LogManager.cpp:163-167 | each folder is longer than the one before |
| LogManagerModule.NoSlashAddsNoFolders | src/LogManager.cpp:163-167 | a name without '/' adds no folder |
| LogManagerModule.CreateModuleFolders | src/LogManager.cpp:163-167 | the find loop creates exactly FolderPrefixes |
| LogManagerModule.ModuleLogPath | src/LogManager.cpp:185 | "logs/" + module + ".log" |
| LogManagerModule.ModuleLogPathInjective | src/LogManager.cpp:185 | different modules write to different files |
| LogManagerModule.AggregatePathsAreModulePaths | src/LogManager.cpp:99-185 | only "warnings" and "errors" collide with the aggregate files |
| LogManagerModule.AggregateFile | src/LogManager.cpp:194-198 | exact equality: WARNING and ERROR only |
| LogManagerModule.AppendTo | src/LogManager.cpp:185-190 | appends to a file, creating it if missing, nothing else changes |
| LogManagerModule.Write | src/LogManager.cpp:159-206 | the module becomes known; a module already known creates no folders |
| LogManagerModule.WriteContent | src/LogManager.cpp:179-206 | a record touches only its module file and its level's aggregate file |
| LogManagerModule.ModuleFileStep | src/LogManager.cpp:185-190 | one record appends its module line, if any, to a module file |
| LogManagerModule.AggregateFileStep | src/LogManager.cpp:193-206 | one record's effect on an aggregate file |
| LogManagerModule.ModuleFileInQueueOrder | src/LogManager.cpp:131-190 | a module file receives exactly its module's lines in queue order |
| LogManagerModule.AggregateFileInQueueOrder | src/LogManager.cpp:148-206 | warnings.log and errors.log receive exactly their level's lines in queue order |
| LogManagerModule.WriteTouchesOnlyItsFiles | src/LogManager.cpp:179-206 | no other file is ever written |
| LogManagerModule.FoldersCreatedOncePerModule | src/LogManager.cpp:159-170 | a module's folders are created once |
| LogManagerModule.LogManager.constructor | src/LogManager.cpp:75-103 | the time format, a folder list of just "logs", both aggregate files emptied, an empty queue, no known module, running |
| LogManagerModule.LogManager.QueueLogMessage | src/LogManager.cpp:131-138 | the record goes to the back |
| LogManagerModule.LogManager.ProcessOne | src/LogManager.cpp:148-210 | the front record is popped and written |
| LogManagerModule.LogManager.RegisterModule | src/LogManager.cpp:159-170 | folders created and the module remembered |
| LogManagerModule.LogManager.WriteLines | src/LogManager.cpp:172-206 | module line, then aggregate line for WARNING and ERROR |
| LogManagerModule.LogManager.Drain | src/LogManager.cpp:148-210 | every queued record is written front first and the queue ends empty |
| LogManagerModule.LogManager.Shutdown | src/LogManager.cpp:105-211 | the flag is cleared and everything still queued is written first |
| MessageModule.NewMessage | src/Message.hpp:22-32 | type MESSAGE with the clock reading, module, level, text and call info |
| MessageModule.NewAction | src/Message.hpp:33-37 | module and type, level NONE, empty text and call info |
| MessageModule.NewMessageDeterminesArguments | src/Message.hpp:22-37 | equal records come from equal arguments |
| MessageModule.MessageIsNoAction | src/Message.hpp:15-37 | a message record is never a clear action |
| LoggerModule.LogFilePath | src/Logger.cpp:15 | root folder + module + ".log" |
| LoggerModule.LogFilePathInjective | src/Logger.cpp:15 | different modules write different files under one root |
| LoggerModule.Count | src/Logger.cpp:48-64 | never more than the number of actions |
| LoggerModule.CountSnoc | src/Logger.cpp:48-64 | queuing one more action counts for its owner only |
| LoggerModule.CountZero | src/Logger.cpp:48-64 | no action naming a logger means a count of zero |
| LoggerModule.FormatLogMessage | src/Logger.cpp:156-178 | the message followed by the call suffix |
| LoggerModule.PrintLogString | src/Logger.cpp:191-215 | the plain form exactly when colours are off |
| LoggerModule.Logger.constructor | src/Logger.cpp:13-28 | the path under the root, the subscription and the truncation unless appending |
| LoggerModule.Logger.OnConfigUpdate | src/Logger.cpp:143-147 | the new settings replace the old |
| LoggerModule.Logger.Log | src/Logger.cpp:41-66 | disabled: false, nothing queued; enabled: one action queued and the counter up by one |
| LoggerModule.Logger.LogPlain | src/Logger.cpp:68-72 | Log with no call information |
| LoggerModule.Logger.LogNativeCall | src/Logger.cpp:74-141 | the four early refusals, an unknown spec, otherwise the call text logged at DEBUG with the trace |
| LoggerModule.RunNext | src/Logger.cpp:48-62 | the action's file line, level-log record and console echo; the counter down by one |
| NativeFormat.Specs | src/Logger.cpp:100-131 | the current revision accepts d i f h x b s * r p; the older lacks r and p |
| NativeFormat.AltHex | src/Logger.cpp:126-129 | at least `width` characters, opening with "0x" (with "-0x" for a negative value) |
| NativeFormat.AltHexReadsBack | src/Logger.cpp:129 | the digits after "0x" read back as the value |
| NativeFormat.FormatArg | src/Logger.cpp:99-133 | an argument exactly for the revision's known characters; d/i decimal, h/x hex, b binary, * "*****" |
| NativeFormat.FormatArgs | src/Logger.cpp:94-134 | one argument per format character, or none |
| NativeFormat.FormatArgsMeaning | src/Logger.cpp:94-134 | success exactly when every character is known; argument i is spec i on params[i+1] |
| NativeFormat.FailurePersists | src/Logger.cpp:94-134 | once a prefix of the format fails, the whole format fails |
| NativeFormat.RevisionsAgree | src/CPluginLogger.cpp:41-72 | without floats, where the older succeeds the newer writes the same |
| NativeFormat.NativeCallText | src/Logger.cpp:90-135 | a text exactly when every argument formats; it opens with `name(` and closes with `)` |
| NativeFormat.FormatNativeCall | src/Logger.cpp:90-135 | the formatting loop gives NativeCallText |
| LogLevels.EnablesIsSubset | src/Logger.hpp:21-24 | `(mask & l) == l` exactly when l is inside mask |
| LogLevels.NoneAlwaysEnabled | src/Logger.hpp:21-24 | NONE is enabled by every mask |
| LoggerHeader.Logger.constructor | src/Logger.hpp:38-41 | the module name and the first mask |
| LoggerHeader.Logger.SetLogLevel | src/Logger.hpp:16-19 | the mask is replaced; exactly the levels inside it are enabled |
| LoggerHeader.Logger.IsLogLevel | src/Logger.hpp:21-24 | true exactly when every bit is set; NONE always |
| LevelOperators.ContainsAll | src/loglevel.hpp:15-19 | true exactly when every bit of rhs is in lhs |
| LevelOperators.OrAssign | src/loglevel.hpp:21-25 | by the enum's own `&`, the result contains both operands and is contained in every mask that contains both: the least upper bound |
| LevelOperators.NoneContainment | src/loglevel.hpp:15-19 | `x & NONE` always, `NONE & x` only for NONE |
| LevelOperators.OrAssignIsIdentityOnlyWhenContained | src/loglevel.hpp:21-25 | used as a statement `a` is unchanged; the union equals `a` only when b is inside a |
| G2LogLevels.LogLevelIsSubset | libs/g3log/src/g2loglevels.hpp:40-44 | logLevel holds exactly when every bit is set |
| G2LogLevels.SetLogLevel | libs/g3log/src/g2loglevels.hpp:51-55 | the target and every earlier bit, nothing else |
| G2LogLevels.UnsetLogLevel | libs/g3log/src/g2loglevels.hpp:57-61 | no target bit remains and the bits outside the target are unchanged |
| G2LogLevels.GetLevelName | libs/g3log/src/g2loglevels.cpp:18-34 | the five named levels their names; every other value "" |
| G2LogLevels.SignalLevelsNotFatal | libs/g3log/src/g2loglevels.hpp:23-49 | FATAL_SIGNAL and FATAL_EXCEPTION are not fatal; 1025 carries DEBUG |
| G2LogLevels.SetUnsetAlgebra | libs/g3log/src/g2loglevels.hpp:51-61 | set is idempotent; set then unset restores a mask where the flag was clear |
| G2LogLevels.LevelNamesDistinct | libs/g3log/src/g2loglevels.cpp:22-31 | the five names differ pairwise |
| CLoggerModule.SinkLineShowsLevel | src/CLogger.cpp:13-22 | lines of differently levelled messages differ when one level is named |
| CLoggerModule.CLogSink.constructor | src/CLogger.cpp:7-11 | the file is opened empty |
| CLoggerModule.CLogSink.OnReceive | src/CLogger.cpp:13-22 | "[ts] [level] message (file:line)\n" appended |
| CLoggerModule.CLogger.constructor | src/CLogger.cpp:25-30 | a sink for logs/<name>.log, nothing handed over yet |
| CLoggerModule.CLogger.SetLogLevel | src/CLogger.cpp:31-36 | the level is OR-ed in whatever `enabled` says; nothing is switched off |
| CLoggerModule.CLogger.LogLevel | src/CLogger.cpp:38-42 | true exactly when every bit is set |
| CLoggerModule.CLogger.Log | src/CLogger.cpp:44-62 | FATAL bit: fatal path; otherwise saved; mask unchanged |
| CPluginLoggerModule.PluginModule | src/CPluginLogger.cpp:9-13 | "plugins/" + name, which reads back |
| CPluginLoggerModule.PluginModuleInjective | src/CPluginLogger.cpp:9-13 | different plugins get different modules |
| CPluginLoggerModule.ParamCells | src/CPluginLogger.cpp:35-46 | cell k read at params + k cells |
| CPluginLoggerModule.CPluginLogger.constructor | src/CPluginLogger.cpp:9-13 | a logger writing logs/plugins/<name>.log |
| CPluginLoggerModule.CPluginLogger.Log | src/CPluginLogger.cpp:15-24 | the formatted text logged with no position |
| CPluginLoggerModule.CPluginLogger.LogEx | src/CPluginLogger.cpp:26-30 | forwarded unchanged |
| CPluginLoggerModule.CPluginLogger.LogNativeCall | src/CPluginLogger.cpp:32-84 | false on r, p or an unknown spec; otherwise the text at DEBUG with line, file, function or 0, "", ""; no level check |
| CPluginLoggerModule.CPluginLogger.SetLogLevel | src/CPluginLogger.cpp:86-89 | levels are only added |
| CPluginLoggerModule.OlderFormatterAgrees | src/CPluginLogger.cpp:41-73 | where the older succeeds the newer writes the same; r and p fail only in the older |
| PluginLoggerHeader.Log | include/samplog/PluginLogger.h:56-59 | one forwarded call without trace, its result returned |
| PluginLoggerHeader.LogWithAmx | include/samplog/PluginLogger.h:60-69 | true exactly when enabled, traced and logged; no trace when disabled; nothing logged when the trace fails |
| PluginLoggerHeader.TracedLogExtendsPlainLog | include/samplog/PluginLogger.h:56-69 | once traced, the same call as the plain overload with the trace |
| PluginLoggerHeader.LogNativeCall | include/samplog/PluginLogger.h:45-74 | one call, forwarded with `amx`, `params`, name and format unchanged, under the module the constructor built, `"plugins/" + pluginname`; the base's result returned |
| PluginLoggerHeader.NativeCallsKeepPluginsApart | include/samplog/PluginLogger.h:45-74 | two different plugins never forward a native call under the same module |
| ApiModule.UnknownVersionText | src/Api.cpp:64-66 | "unknown api version '<n>'" |
| ApiModule.UnknownVersionTextInjective | src/Api.cpp:64-66 | different versions give different texts |
| ApiModule.ApiState.constructor | src/Api.cpp:12 | no API object, nothing initialised |
| ApiModule.ApiState.GetApi | src/Api.cpp:49-71 | init only at zero; version 1: new handle, +1; else none, error, counter kept |
| ApiModule.ApiState.DestroyApi | src/Api.cpp:73-88 | null no-op; otherwise -1 and the teardown in order at zero |
| ApiModule.CreateLogger | src/Api.cpp:40-46 | none exactly for names containing "log-core" |
| ApiModule.LogCoreIsReserved | src/Api.cpp:42-45 | any name containing "log-core" is refused |
| ApiModule.GetLastAmxFunctionCall | src/Api.cpp:26-30 | true exactly when enabled, bound and resolved, with the resolved call; `dest` untouched when disabled, unbound or before the first line-table entry; otherwise the 1-based line written, and the file written when it resolves |
| ApiModule.GetAmxFunctionCallTrace | src/Api.cpp:31-38 | false exactly when the trace fails, with `dest` unchanged; otherwise true, with the current call and the walked frames appended to `dest` and the last record's line lowered by the HACK |
| SampConfigReaderModule.LineEnd | src/SampConfigReader.cpp:16 | the first '\r' or '\n', or the length |
| SampConfigReaderModule.ParseLine | src/SampConfigReader.cpp:16-22 | cut at the line end, split at the first space; no space, no setting |
| SampConfigReaderModule.FirstValueSnoc | src/SampConfigReader.cpp:22 | one more line keeps an earlier first value; without one, the new line gives the value when it names the variable |
| SampConfigReaderModule.SettingsHoldFirstValues | src/SampConfigReader.cpp:11-23 | the map holds exactly the named variables with their first values |
| SampConfigReaderModule.SampConfigReader.constructor | src/SampConfigReader.cpp:8-24 | the read loop gives the settings map |
| SampConfigReaderModule.SampConfigReader.GetVar | src/SampConfigReader.cpp:26-34 | present: value, true; missing: false, dest unchanged |
| SampConfigReaderModule.SampConfigReader.GetVarList | src/SampConfigReader.cpp:36-57 | missing: false, dest untouched; otherwise the tokens, which join back to the value |
| SampConfigReaderModule.SampConfigReader.GetGamemodeList | src/SampConfigReader.cpp:59-72 | dest cleared, first words of gamemode0.. up to the first gap; true iff one found |
| SampConfigReaderModule.ListedSnoc | src/SampConfigReader.cpp:66-70 | one more entry keeps the listing |
| SampConfigReaderModule.KeyNotBelow | src/SampConfigReader.cpp:66 | gamemode<n> is not among the earlier names |
| SampConfigReaderModule.KeysBelowCount | src/SampConfigReader.cpp:66 | there are n names below n |
| CSampConfigReaderModule.StripCR | src/CSampConfigReader.cpp:14 | corrected: every '\r' removed, the rest kept in order |
| CSampConfigReaderModule.StripCRAppend | src/CSampConfigReader.cpp:14 | stripping distributes over concatenation |
| CSampConfigReaderModule.RemoveWithoutErase | src/CSampConfigReader.cpp:14 | as written: the kept characters move to the front and the length is unchanged |
| CSampConfigReaderModule.TrailingCRKept | src/CSampConfigReader.cpp:14 | as written a line ending in its only '\r' stays unchanged |
| CSampConfigReaderModule.FirstLine | src/CSampConfigReader.cpp:22-28 | the first stored line starting with the prefix |
| CSampConfigReaderModule.ListedSnoc | src/CSampConfigReader.cpp:63-67 | one more entry keeps the listing |
| CSampConfigReaderModule.NewLineUnused | src/CSampConfigReader.cpp:63 | a new name's line matched no earlier name |
| CSampConfigReaderModule.CSampConfigReader.constructor | src/CSampConfigReader.cpp:7-17 | lines stored with '\r' removed |
| CSampConfigReaderModule.CSampConfigReader.GetVar | src/CSampConfigReader.cpp:19-31 | the rest of the first matching line; otherwise false, dest unchanged |
| CSampConfigReaderModule.CSampConfigReader.GetVarList | src/CSampConfigReader.cpp:33-54 | missing: false and dest emptied; present: the tokens, which join back to the value; true only for more than one token |
| CSampConfigReaderModule.CSampConfigReader.GetGamemodeList | src/CSampConfigReader.cpp:56-69 | appends without clearing up to the first gap; true iff one found |
| ServerCfg.FindFrom | src/SampConfigReader.cpp:52 | the first position at or after from holding c, or none |
| ServerCfg.SplitSpaces | src/SampConfigReader.cpp:44-55 | at least one token, none containing a space |
| ServerCfg.SplitThenJoin | src/SampConfigReader.cpp:44-55 | joining the tokens gives the value back |
| ServerCfg.JoinThenSplit | src/SampConfigReader.cpp:44-55 | splitting a join of space-free tokens gives them back |
| ServerCfg.ListStepAsWritten | src/SampConfigReader.cpp:47-55 | as written the cursor steps over a space only when last_pos != 0 |
| ServerCfg.LeadingSpaceNeverAdvances | src/SampConfigReader.cpp:47-55 | a leading space repeats the state: "" pushed, position 0 again |
| ServerCfg.AsWrittenAgreesAwayFromZero | src/SampConfigReader.cpp:49-50 | away from 0 the as-written step is the intended one |
| ServerCfg.StepSplits | src/SampConfigReader.cpp:52-54 | one step splits off one token |
| ServerCfg.AdvanceSplit | src/SampConfigReader.cpp:52-54 | one step keeps tokens-then-rest intact |
| ServerCfg.SplitInvariantStep | src/SampConfigReader.cpp:47-55 | the loop invariant is kept |
| ServerCfg.SplitList | src/SampConfigReader.cpp:44-56 | corrected loop: the list is SplitSpaces of the value |
| ServerCfg.GamemodeKey | src/SampConfigReader.cpp:66 | starts with "gamemode" and holds no space |
| ServerCfg.GamemodeKeyInjective | src/SampConfigReader.cpp:66 | different indexes name different variables |
| ServerCfg.GamemodePrefixUnique | src/CSampConfigReader.cpp:24-63 | a line starts with at most one gamemode<n> prefix |
| Utils.GetLogLevelAsString | src/utils.cpp:14-32 | single levels their names, all else "<unknown>" |
| Utils.LevelNamesIdentifyLevel | src/utils.cpp:14-32 | different named levels get different names |
| Utils.GetLogLevelColor | src/utils.cpp:34-52 | ERROR and FATAL red; non-single levels white |
| Utils.CreateFolder | src/utils.cpp:54-63 | every foreign separator replaced by the native one |
| Utils.TerminalColorSupport.constructor | src/utils.cpp:67 | the flag starts cleared |
| Utils.TerminalColorSupport.Ensure | src/utils.cpp:65-84 | set flag returns at once; non-Windows sets it; Windows only when the console calls succeed |

## Left out

- Threads: the writer thread, the condition variable, the mutexes and the busy-wait in the `Logger` destructor are left out. The queue is a sequential FIFO and `Shutdown` drains it in one call.
- Real I/O: `ofstream`, `tinydir`, `fopen`/`fread` of AMX headers and `mkdir` are left out. Files are a map from path to content, and a directory is a listing given as a parameter.
- AMX foreign calls:
  - `dbg_LoadInfo` and `dbg_Lookup*` are finite maps in a `DebugInfo` value.
  - `amx_GetCppString`, `amx_GetAddr` and `amx_ctof` are the functions of an `AmxEnv`.
  - Data-memory reads of unmapped addresses return 0.
- Floats, time and colour: `FormatTimestamp`/`fmt::localtime` rendering is a caller-supplied function, and the coloured console layout is recorded only as its parts.
- The 'f', 's' and 'r' formats are foreign results.
- yaml-cpp is replaced by an abstract node tree. Its access exceptions are modelled where the configuration code can reach them: subscripting a scalar (BadSubscript), and subscripting or asking the type of an undefined node (InvalidNode). Its conversions are simplified: `as<bool>` and `as<int>` accept the spellings listed in `Yaml`, and `as<std::string>` gives the fallback for any node that is not a scalar.
- `CPluginLoggerModule.CPluginLogger.LogNativeCall`: src/CPluginLogger.cpp:75-79 passes `long` and `std::string` outputs to `CAmxDebugManager::Get()->GetLastAmx*`. Those signatures belong to `CAmxManager` (src/CAmxManager.hpp:30-32), not to the `CAmxDebugManager` here (src/CAmxDebugManager.hpp:31-33 takes `int&` and `const char**`). The file also calls `CAmxDebugManager::GetNativeParamsPtr`, which `CAmxManager` lacks. So it was written against a revision of the manager that is not in the source. The model uses this `CAmxDebugManager`'s getters: the disable switch is honoured and the line is the corrected 1-based `GetLastAmxLine`. `CAmxManager`'s getters would log the raw 0-based line and ignore the switch.
- `CPluginLogger::Log`: the `vsprintf` into a 2048-byte buffer is not modelled; the formatted text is a parameter.
- `utils::EnsureFolders`, `LogManager::WriteLevelLogString` and `LogRotationManager::RegisterLogFile` are not part of this model. Their calls are recorded as what they receive: a level record, or nothing.
- `Logger::Config` is not part of this model: its default-constructed value is a parameter.
- The first value of `CLogger::m_LogLevel` is a parameter; the source never initialises the atomic.
- The `Logger` constructor of src/Logger.hpp's revision is not part of this model, so its first mask is a parameter.
- The g2log worker is left out: `CLogger` keeps the lists of messages handed to `save` and to the fatal path.
- The `g2::LogMessage` header is not part of this model: the sink's level text is `getLevelName` and the timestamp is a parameter.
- The base class `samplog::CLogger` of include/samplog/PluginLogger.h is not part of this model, so its answers are parameters of each member.
- `Api`: the singletons' own work is recorded as events. The API objects are natural-number handles. `RegisterAmx`/`EraseAmx` forwarding is not modelled separately.
- `LogManager::RegisterLogger`/`UnregisterLogger` and the `ACTION_CLEAR` handling are left out; `Process` does not look at the record type.
- A module named "warnings" or "errors" writes into an aggregate file. The model shows which names collide (`AggregatePathsAreModulePaths`), and the queue-order lemma for aggregate files assumes no module has such a name.
- The callbacks of src/LogConfig.hpp are identified by natural numbers, and their calls are recorded as events.
- Date-based rotation has an empty branch in the source and is a no-op.
- `LegacyConfigReader.LogConfigReader.constructor`: the older reader's constructor is declared but its definition is not part of this model, so it starts from a given map.
- `AmxDebugManagerModule.AmxDebugManager.GetFunctionCallTrace`: the source walk has no iteration cap, so a `fuel` bound limits the number of frames. `SelfLinkedFrameNeverStops` shows where the uncapped loop would not end.
- `SampConfigReaderModule.SampConfigReader.GetVarList` and `CSampConfigReaderModule.CSampConfigReader.GetVarList`: with a leading space the loop as written never ends. The methods use the corrected split, and the as-written step is modelled by `ServerCfg.ListStepAsWritten`.
- `SampConfigReaderModule.SampConfigReader.GetGamemodeList` and `CSampConfigReaderModule.CSampConfigReader.GetGamemodeList`: the wrap of the `unsigned int` counter after 2^32 variables is not modelled.
- `LogRotation.Check`: it compares the file size with the corrected `Threshold`. The program compares with the 32-bit `ThresholdAsWritten`, so for settings of 2^32 bytes or more it rotates at the wrapped size. The two agree below 2^32 bytes (`ThresholdMonotone`).
- `ApiModule.GetAmxFunctionCallTrace`: it forwards to the corrected `GetFunctionCallTrace`. The program calls the as-written trace, which never succeeds, so there it always returns false and adds nothing.
- `CSampConfigReaderModule.CSampConfigReader.constructor`: it stores lines through the corrected `StripCR`. The program keeps the trailing '\r' (`RemoveWithoutErase`, `TrailingCRKept`), so a value read from a CRLF file ends in '\r'.
- `AmxDebugManagerModule.AmxDebugManager.RegisterAmx`, `CAmxDebugManagerModule.CAmxDebugManager.RegisterAmx` and `CAmxManagerModule.CAmxManager.RegisterAmx`: the loaded tables are an `unordered_map` in the source and a sequence in load order here, so the model binds the first table with an equal header. The program binds whichever equal-header table its hash order reaches first; the two agree when at most one loaded table matches.
- `AmxDebugManagerModule.AmxDebugManager.GetFunctionCall`: after a failed file or function lookup the debug-info library has set that name to NULL. A `CallInfo` string cannot hold NULL, so the contract leaves the failed field open.
- `CAmxDebugManagerModule.CAmxDebugManager.GetLastAmxFile` and `CAmxDebugManagerModule.CAmxDebugManager.GetLastAmxFunction`: a name is an `Option<string>`, with `None` for NULL. The pointer into the debug table is modelled by the name it points to.
- `LogRotation.ParseExtension`: an extension beyond the range of `long` makes `strtol` return its clamped value, and `int num` narrows it. The model keeps the exact decimal value.
- `num_lines` is the length of the line table. The pointer-difference workaround it comes from is not modelled.

## Findings

| source | as written | input that shows it | evidently intended | confidence | as-written member | corrected member |
|---|---|---|---|---|---|---|
| src/AmxDebugManager.cpp:169 | the guard returns false when the AMX IS bound | any bound AMX whose cip resolves: the trace returns false and `dest` stays empty | return false when the AMX is not bound (`== end()`) | high, not executed | AmxDebugManagerModule.AmxDebugManager.GetFunctionCallTraceAsWritten | AmxDebugManagerModule.AmxDebugManager.GetFunctionCallTrace |
| src/CAmxDebugManager.cpp:131 | `lookup == AMX_ERR_NONE && line++` tests the 0-based line before the increment | an instruction on the first source line (0-based line 0): false with line set to 1 | true whenever the lookup succeeds, with the 1-based line | high, not executed | CAmxDebugManagerModule.CAmxDebugManager.GetLastAmxLineAsWritten | CAmxDebugManagerModule.CAmxDebugManager.GetLastAmxLine |
| src/SampConfigReader.cpp:47-55 | the cursor steps over a space only when `last_pos != 0` | a value " a" (leading space): every iteration pushes "" and lands on 0 again, forever | step over the separator on every iteration but the first | high, not executed | ServerCfg.ListStepAsWritten | ServerCfg.SplitList |
| src/LogRotationManager.cpp:26 | `FileSize * 1000` is computed in 32-bit unsigned arithmetic | FileSize 5,000,000 ("5GB"): the threshold wraps to 705,032,704 bytes | the size in bytes, FileSize times 1000, without wrap | medium, not executed | LogRotation.ThresholdAsWritten | LogRotation.Threshold |
| src/CSampConfigReader.cpp:14 | `std::remove` without `erase` keeps the line length | a line "gamemode0 lvdm\r": stored unchanged, so the value is "lvdm\r" | erase the moved-out tail so '\r' disappears | high, not executed | CSampConfigReaderModule.RemoveWithoutErase | CSampConfigReaderModule.StripCR |
