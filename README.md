# Logger-level overrides for JUL and Log4j2, in Dafny

This project models the override engine of igloo-logging. An operator asks at
run time for a logger to run at a given level; the engine applies the level to
Log4j2 and, when a JUL manager is registered, to java.util.logging (JUL) too.
`unsetLevel` and `reset` later take the overrides back.

- **JUL side** (`JulConfigurator`, `JulManager`):
  - `setLevel` parses the level. JUL's own names come first, then an upper-cased
    lookup in a fallback table, and anything else fails.
  - It then sets the level on the logger, removes every handler, attaches the
    SLF4J bridge, turns parent handlers off and records the logger as managed.
  - `doUnsetLevel` makes the logger inherit again: no handlers, parent handlers
    on, no level, no longer managed.
  - `reset` unsets each name of a snapshot of the managed set.
  - A set of known name prefixes is loaded line by line, merged or replaced. It
    gates `setLevelIfWellKnown` through a plain prefix test.
  - `getLoggerNames` and `getLoggerConfig` render the managed loggers in name
    order.
- **Log4j2 side** (`Log4j2Configurator`, `Log4j2Manager`):
  - `doSetLevel` with a level creates or updates the logger's configuration
    entry. It records, the first time only, the level the logger ran at before.
  - `doSetLevel` without a level pops that record. It then restores the
    recorded level, or removes the entry when there is nothing to restore.
  - The manager forwards set, unset and reset to the optional JUL manager, and
    renders `name=LEVEL (original: X)`.
- **`JulHolder`**: the last-writer-wins slot through which the JUL manager is
  registered.

The repository holds two versions of this engine:

- an older one, under `igloo-logging/`, with everything in one class per
  backend;
- a newer one, split into a `*Configurator` and a `*ManagerImpl`.

Both run the same algorithm, so it is modelled once. The table below cites
the newer files where they exist. The same operations sit in the older files
at these lines:

- `igloo-logging/jul-helper/src/main/java/igloo/julhelper/jmx/JulLoggingManagerImpl.java`:
  - constructors 53-55 (no resource path) and 65-88;
  - `getLoggerNames` 94-98, `getLoggerConfig` 104-108, `setLevel` 114-121,
    `setLevelIfWellKnown` 127-131, `unsetLevel` 137-139, `reset` 145-150;
  - `addJulKnownLoggers` 164-167, `updateJulKnownLoggers` 173-176;
  - `parseLevel` 178-188, `matchJulKnownLoggers` 193-195, the loading loop
    197-217, `doUnsetLevel` 225-231, `clearHandlers` 238-242, `getLogger`
    249-253.
- `igloo-logging/log4j2-jmx-helper/src/main/java/igloo/log4j2jmx/jmx/Log4j2LoggingManagerImpl.java`:
  - `getLoggerNames` 42-46, `getLoggerConfig` 52-66, `setLevel` 72-78,
    `unsetLevel` 84-87, `reset` 93-99;
  - `getJulKnownLoggers` 105-107, `getJulLoggingManagementEnabled` 129-131;
  - `doSetLevel` 133-164, `popOriginalLevel` 166-172, `doUnsetLevel`
    174-176, `LevelWrapper.name` 194-196.

Modelling choices:

- **Loggers are identified by name.** `getLogger` prefers a managed logger
  with the requested name, and each backend hands out one logger per name.
  The managed sets are therefore sets of names.
- **JUL's loggers are a map from names to logger states.** A name missing from
  the map is a fresh logger: no level, no handlers, parent handlers on.
- **Stateless configurators become values.** The Java configurators have no
  state of their own; they update the collections they are given. The model
  writes them as functions and methods from an old state value to a new one.
  The manager classes hold the state in fields, and their methods assign the
  new state.
- **The Log4j2 configuration is a map from names to optional levels.** The
  root is the name `""`. `getLoggerConfig(name)` returns the entry of the name
  or of its nearest configured ancestor. The ancestor of a name is the part
  before its last `.`, or the root when there is no `.` after the first
  character (Log4j2's `NameUtil.getSubName`).
- **Levels in the Log4j2 configuration.** `LoggerConfig.getLevel` answers the
  entry's own level, else its parent's, ending at ERROR. This is `LevelOf`.
  Consequently a recorded original level is never null.
  - `removeLogger` never removes the root.
- **Level parsing.** `Level.parse` (JUL) accepts exactly the standard level
  names. `Level.valueOf` (Log4j2) looks up the trimmed, upper-cased name among
  the standard levels.
- **Case and strings.** Upper-casing and `equalsIgnoreCase` are modelled on
  ASCII letters. `String.strip` uses `Character.isWhitespace`, and `trim` drops
  every character up to U+0020.
- **Failures.** A thrown exception becomes an `Err`/`Fail` value that carries
  the message.

## Model

| member | source | states |
|---|---|---|
| JulConfigurator.NativeParse | jul-helper/src/main/java/igloo/julhelper/jmx/JulLoggingConfigurator.java:31-32 | Level.parse succeeds exactly on a level's name and yields the level with that name |
| JulConfigurator.ParseLevel | jul-helper/src/main/java/igloo/julhelper/jmx/JulLoggingConfigurator.java:30-40 | success iff JUL parses the name or the upper-cased name is in the mapping; a native parse wins whatever the mapping holds; otherwise the mapped level; failure message "<level> cannot be mapped to a JUL level" |
| JulConfigurator.ParseLevelName | jul-helper/src/main/java/igloo/julhelper/jmx/JulLoggingConfigurator.java:30-32 | every JUL level name parses to that level, whatever the mapping |
| JulConfigurator.MatchesKnownFacts | jul-helper/src/main/java/igloo/julhelper/jmx/JulLoggingConfigurator.java:45-47 | an empty known set matches nothing; a known name matches every name it prefixes; adding known names never stops a match |
| JulConfigurator.MatchesKnown | jul-helper/src/main/java/igloo/julhelper/jmx/JulLoggingConfigurator.java:45-47 | a logger name matches iff one of its prefixes (the empty one and the whole name included) is a known name |
| JulConfigurator.BlankLineMatchesEverything | jul-helper/src/main/java/igloo/julhelper/jmx/JulLoggingConfigurator.java:59-63 | a blank line is not a comment, strips to "", and then every logger name matches the known set |
| JulConfigurator.KnownEntriesMembers | jul-helper/src/main/java/igloo/julhelper/jmx/JulLoggingConfigurator.java:56-66 | a name is loaded exactly when some line that does not start with "#" strips to it |
| JulConfigurator.KnownEntries | jul-helper/src/main/java/igloo/julhelper/jmx/JulLoggingConfigurator.java:56-66 | the loaded names are empty exactly when every line starts with "#" |
| JulConfigurator.KnownEntriesBound | jul-helper/src/main/java/igloo/julhelper/jmx/JulLoggingConfigurator.java:55-68 | the number of distinct names loaded is at most the count of non-comment lines |
| JulConfigurator.KnownEntriesExample | jul-helper/src/main/java/igloo/julhelper/jmx/JulLoggingConfigurator.java:56-66 | a "#" line adds nothing, an empty line adds "", other lines add themselves |
| JulConfigurator.CountEntries | jul-helper/src/main/java/igloo/julhelper/jmx/JulLoggingConfigurator.java:55-64 | the loaded count is at most the number of lines and is 0 exactly when every line is a comment |
| JulConfigurator.UpdateJulKnownLoggers | jul-helper/src/main/java/igloo/julhelper/jmx/JulLoggingConfigurator.java:49-69 | the loop leaves the old set (or, in replace mode, nothing) plus the stripped non-comment lines, and counts the non-comment lines |
| JulConfigurator.ClearHandlers | jul-helper/src/main/java/igloo/julhelper/jmx/JulLoggingConfigurator.java:90-94 | removing each handler of a snapshot leaves the logger with no handlers and nothing else changed |
| JulConfigurator.LoggerOf | jul-helper/src/main/java/igloo/julhelper/jmx/JulLoggingConfigurator.java:101-105 | a name JUL already holds a logger for yields that logger; any other name yields a fresh, inheriting logger |
| JulConfigurator.SetLevelSpec | jul-helper/src/main/java/igloo/julhelper/jmx/JulLoggingConfigurator.java:18-28 | fails iff the level does not parse, with the parse message and no state; otherwise the logger has the parsed level, only the bridge handler and parent handlers off, it joins the managed set (growing it by at most one), every other logger and the known set are unchanged, and the invariant holds |
| JulConfigurator.SetLevel | jul-helper/src/main/java/igloo/julhelper/jmx/JulLoggingConfigurator.java:18-28 | the step-by-step update (parse, set level, clear handlers, parent handlers off, add bridge, add to managed) gives exactly SetLevelSpec |
| JulConfigurator.SetLevelIfKnownSpec | jul-helper/src/main/java/igloo/julhelper/jmx/JulLoggingManagerImpl.java:121-125 | a name that matches the known set gets exactly `setLevel`'s result; it fails iff the name matches and the level does not parse; an unmatched name leaves the state as it is; the known set is kept, the managed set grows by at most this name, and the invariant holds |
| JulConfigurator.UnsetSpec | jul-helper/src/main/java/igloo/julhelper/jmx/JulLoggingConfigurator.java:77-83 | the logger has no level, no handlers and parent handlers on, it leaves the managed set, and every other logger and the known set are unchanged |
| JulConfigurator.DoUnsetLevel | jul-helper/src/main/java/igloo/julhelper/jmx/JulLoggingConfigurator.java:77-83 | the step-by-step update gives exactly UnsetSpec |
| JulConfigurator.LoadSpec | jul-helper/src/main/java/igloo/julhelper/jmx/JulLoggingConfigurator.java:49-53 | merge mode gives old set ∪ entries, replace mode only the entries; loggers untouched |
| JulConfigurator.SetThenUnset | jul-helper/src/main/java/igloo/julhelper/jmx/JulLoggingConfigurator.java:18-28 | set then unset of an unmanaged name restores the managed set; if the logger was inheriting before, every logger is as it was |
| JulConfigurator.ResetSpec | jul-helper/src/main/java/igloo/julhelper/jmx/JulLoggingManagerImpl.java:139-144 | unsetting the names of a trace in turn removes exactly those names from the managed set and keeps the known set |
| JulConfigurator.ResetEffect | jul-helper/src/main/java/igloo/julhelper/jmx/JulLoggingManagerImpl.java:139-144 | unsetting a list of names removes exactly those from the managed set, leaves exactly those loggers inheriting and all others untouched, keeps the invariant |
| JulConfigurator.ResetEmpties | jul-helper/src/main/java/igloo/julhelper/jmx/JulLoggingManagerImpl.java:139-144 | a reset over a snapshot of the managed names empties the managed set and leaves every previously managed logger inheriting |
| JulConfigurator.UnsetIdempotent | jul-helper/src/main/java/igloo/julhelper/jmx/JulLoggingConfigurator.java:77-83 | unsetting twice equals unsetting once |
| JulConfigurator.ConfigLines | jul-helper/src/main/java/igloo/julhelper/jmx/JulLoggingManagerImpl.java:103-106 | one "name=LEVEL" line per managed logger, in sorted name order, with the logger's level name |
| JulConfigurator.ConfigTextLines | jul-helper/src/main/java/igloo/julhelper/jmx/JulLoggingManagerImpl.java:103-107 | the joined text is "" iff nothing is managed, and, when no managed name holds a newline, splitting it at newlines gives the lines back |
| JulManager.ResolveResourcePath | jul-helper/src/main/java/igloo/julhelper/jmx/JulLoggingManagerImpl.java:78-82 | absent stays absent; blank, or "default" in any case, gives the default resource; any other path is used exactly as given; the result is never blank nor "default" |
| JulManager.ResolveIdempotent | jul-helper/src/main/java/igloo/julhelper/jmx/JulLoggingManagerImpl.java:79-81 | resolving a resolved path changes nothing |
| JulManager.FallbackUpperCase | jul-helper/src/main/java/igloo/julhelper/jmx/JulLoggingManagerImpl.java:66-72 | "ALL" parses natively to ALL although the table holds it; "TRACE" maps to FINEST and "ERROR" to SEVERE |
| JulManager.FallbackOtherCase | jul-helper/src/main/java/igloo/julhelper/jmx/JulLoggingManagerImpl.java:66-72 | names in other cases are upper-cased first: "all" maps to FINEST, "debug" to FINE, "Warn" to WARNING |
| JulManager.UnmappedLevelRejected | jul-helper/src/main/java/igloo/julhelper/jmx/JulLoggingConfigurator.java:34-37 | "FATAL" is neither a JUL name nor in the table and fails with "FATAL cannot be mapped to a JUL level" |
| JulManager.JulLoggingManager.constructor | jul-helper/src/main/java/igloo/julhelper/jmx/JulLoggingManagerImpl.java:62-87 | nothing managed; the known set is the entries of the resolved resource, or empty when the path is absent |
| JulManager.JulLoggingManager.LoggerNames | jul-helper/src/main/java/igloo/julhelper/jmx/JulLoggingManagerImpl.java:93-97 | strictly ascending, one entry per managed name and nothing else |
| JulManager.JulLoggingManager.LoggerConfig | jul-helper/src/main/java/igloo/julhelper/jmx/JulLoggingManagerImpl.java:103-107 | "" iff nothing is managed; when no managed name holds a newline, splitting it at newlines gives the sorted "name=LEVEL" lines |
| JulManager.JulLoggingManager.SetLevel | jul-helper/src/main/java/igloo/julhelper/jmx/JulLoggingManagerImpl.java:113-115 | the new state is SetLevelSpec's; on a parse failure the outcome carries the message and nothing changes |
| JulManager.JulLoggingManager.SetLevelIfWellKnown | jul-helper/src/main/java/igloo/julhelper/jmx/JulLoggingManagerImpl.java:121-125 | behaves as SetLevel when the name matches the known set, and changes nothing otherwise |
| JulManager.JulLoggingManager.UnsetLevel | jul-helper/src/main/java/igloo/julhelper/jmx/JulLoggingManagerImpl.java:131-133 | the new state is UnsetSpec's |
| JulManager.JulLoggingManager.Reset | jul-helper/src/main/java/igloo/julhelper/jmx/JulLoggingManagerImpl.java:139-144 | the trace of unsets holds each name of the snapshot exactly once (same names, same count); afterwards nothing is managed, exactly the previously managed loggers inherit, the rest and the known set are untouched |
| JulManager.JulLoggingManager.JulKnownLoggers | jul-helper/src/main/java/igloo/julhelper/jmx/JulLoggingManagerImpl.java:150-152 | the known set as the constructor and the add/update operations left it |
| JulManager.JulLoggingManager.AddJulKnownLoggers | jul-helper/src/main/java/igloo/julhelper/jmx/JulLoggingManagerImpl.java:158-161 | the lines' entries are merged into the known set |
| JulManager.JulLoggingManager.UpdateJulKnownLoggers | jul-helper/src/main/java/igloo/julhelper/jmx/JulLoggingManagerImpl.java:167-170 | the lines' entries replace the known set |
| JulManager.ResetSnoc | jul-helper/src/main/java/igloo/julhelper/jmx/JulLoggingManagerImpl.java:141-143 | one more loop iteration unsets one more name |
| Log4j2Configurator.ValueOf | igloo-logging/log4j2-jmx-helper/src/main/java/igloo/log4j2jmx/jmx/Log4j2LoggingConfigurator.java:29 | Level.valueOf yields the level whose name is the trimmed, upper-cased input, and fails iff there is none |
| Log4j2Configurator.ValueOfName | igloo-logging/log4j2-jmx-helper/src/main/java/igloo/log4j2jmx/jmx/Log4j2LoggingConfigurator.java:33 | every level name reads back as its level |
| Log4j2Configurator.ValueOfLowerPadded | igloo-logging/log4j2-jmx-helper/src/main/java/igloo/log4j2jmx/jmx/Log4j2LoggingConfigurator.java:33 | a lower-case level name with blanks around it reads back as its level |
| Log4j2Configurator.WrapperName | igloo-logging/log4j2-jmx-helper/src/main/java/igloo/log4j2jmx/jmx/Log4j2LoggingConfigurator.java:89-91 | "NONE" exactly for a null level, otherwise the level's own name, never with a newline |
| Log4j2Configurator.WrapperNameReadsBack | igloo-logging/log4j2-jmx-helper/src/main/java/igloo/log4j2jmx/jmx/Log4j2LoggingConfigurator.java:89-91 | the name shown for a recorded level reads back through `valueOf` as that level |
| Log4j2Configurator.Nearest | igloo-logging/log4j2-jmx-helper/src/main/java/igloo/log4j2jmx/jmx/Log4j2LoggingConfigurator.java:21 | getLoggerConfig's entry is the name's own entry when it has one, and otherwise configured or the root |
| Log4j2Configurator.NearestIsNearest | igloo-logging/log4j2-jmx-helper/src/main/java/igloo/log4j2jmx/jmx/Log4j2LoggingConfigurator.java:21-28 | what getLoggerConfig returns is the name or one of its ancestors by repeated last-dot truncation, and no ancestor nearer to the name has an entry |
| Log4j2Configurator.LevelOf | igloo-logging/log4j2-jmx-helper/src/main/java/igloo/log4j2jmx/jmx/Log4j2LoggingConfigurator.java:26 | a logger with a level in its own entry runs at that level |
| Log4j2Configurator.NoLevelMeansError | igloo-logging/log4j2-jmx-helper/src/main/java/igloo/log4j2jmx/jmx/Log4j2LoggingConfigurator.java:26 | a logger whose own entry and all of whose ancestors' entries carry no level runs at ERROR |
| Log4j2Configurator.RemoveEntry | igloo-logging/log4j2-jmx-helper/src/main/java/igloo/log4j2jmx/jmx/Log4j2LoggingConfigurator.java:41-42 | removeLogger drops the name's entry, never the root's, and keeps every other entry as it was |
| Log4j2Configurator.LevelOfNearest | igloo-logging/log4j2-jmx-helper/src/main/java/igloo/log4j2jmx/jmx/Log4j2LoggingConfigurator.java:21-26 | the level read off getLoggerConfig(name) is the level the logger runs at |
| Log4j2Configurator.PopOriginalLevel | igloo-logging/log4j2-jmx-helper/src/main/java/igloo/log4j2jmx/jmx/Log4j2LoggingConfigurator.java:67-73 | a present record is returned and removed; an absent one gives null and no change |
| Log4j2Configurator.DoSetLevel | igloo-logging/log4j2-jmx-helper/src/main/java/igloo/log4j2jmx/jmx/Log4j2LoggingConfigurator.java:15-59 | with a level: fails iff valueOf fails; the entry is set to the level; the prior level is recorded only if no record exists; managed. Without a level: record popped, the looked-up entry restored or the name's entry removed, unmanaged. Keeps the invariant |
| Log4j2Configurator.DoUnsetLevel | igloo-logging/log4j2-jmx-helper/src/main/java/igloo/log4j2jmx/jmx/Log4j2LoggingConfigurator.java:75-77 | doUnsetLevel(n) is exactly doSetLevel(n, null) |
| Log4j2Configurator.NewLoggerRecordsRootLevel | igloo-logging/log4j2-jmx-helper/src/main/java/igloo/log4j2jmx/jmx/Log4j2LoggingConfigurator.java:26-36 | a logger with no entry under a root at ERROR gets a new entry and records ERROR |
| Log4j2Configurator.OverrideWhileManagedIsForgotten | igloo-logging/log4j2-jmx-helper/src/main/java/igloo/log4j2jmx/jmx/Log4j2LoggingConfigurator.java:36-46 | the first override wins: a further set before the unset leaves no trace after the unset |
| Log4j2Configurator.SetThenUnset | igloo-logging/log4j2-jmx-helper/src/main/java/igloo/log4j2jmx/jmx/Log4j2LoggingConfigurator.java:26-46 | set then unset of an unmanaged name restores records and managed set and keeps an entry at the level the logger ran at |
| Log4j2Configurator.SetThenUnsetKeepsLevels | igloo-logging/log4j2-jmx-helper/src/main/java/igloo/log4j2jmx/jmx/Log4j2LoggingConfigurator.java:26-46 | after set then unset every logger runs at the level it ran at before |
| Log4j2Configurator.SetThenUnsetTwice | igloo-logging/log4j2-jmx-helper/src/main/java/igloo/log4j2jmx/jmx/Log4j2LoggingConfigurator.java:39-43 | a second unset removes the kept entry: a name that had no entry leaves the state exactly as before |
| Log4j2Configurator.UnsetWithoutRecordRemovesEntry | igloo-logging/log4j2-jmx-helper/src/main/java/igloo/log4j2jmx/jmx/Log4j2LoggingConfigurator.java:39-43 | with no record the name's entry is removed, even one set up elsewhere |
| Log4j2Configurator.UnsetWithRecordRestores | igloo-logging/log4j2-jmx-helper/src/main/java/igloo/log4j2jmx/jmx/Log4j2LoggingConfigurator.java:39-46 | with a record the entry stays, at the recorded level, and the record is gone |
| Log4j2Configurator.ResetSpec | log4j2-jmx-helper/src/main/java/igloo/log4j2jmx/jmx/Log4j2LoggingManagerImpl.java:93-99 | unsetting the names of a trace in turn removes exactly those names from the managed set and from the records |
| Log4j2Configurator.ResetEffect | log4j2-jmx-helper/src/main/java/igloo/log4j2jmx/jmx/Log4j2LoggingManagerImpl.java:93-99 | a reset keeps the invariant; over a snapshot of the managed names it leaves nothing managed and no record |
| Log4j2Configurator.ConfigLines | log4j2-jmx-helper/src/main/java/igloo/log4j2jmx/jmx/Log4j2LoggingManagerImpl.java:56-67 | one "name=LEVEL (original: X)" line per managed logger, sorted, X the record's name or "NONE" |
| Log4j2Configurator.ConfigLine | log4j2-jmx-helper/src/main/java/igloo/log4j2jmx/jmx/Log4j2LoggingManagerImpl.java:58-66 | a line starts with the logger name and "=", and holds no newline unless the name does |
| Log4j2Configurator.ConfigLineFormat | log4j2-jmx-helper/src/main/java/igloo/log4j2jmx/jmx/Log4j2LoggingManagerImpl.java:58-66 | with its own level L and a record O a line is "name=L (original: O)"; without a record it is "name=<level it runs at> (original: NONE)" |
| Log4j2Configurator.ConfigTextLines | log4j2-jmx-helper/src/main/java/igloo/log4j2jmx/jmx/Log4j2LoggingManagerImpl.java:55-69 | the joined text is "" iff nothing is managed, and, when no managed name holds a newline, splits back into its lines |
| Log4j2Configurator.TwoLoggersConfigText | igloo-logging/log4j2-jmx-helper/src/test/java/test/core/TestLog4j2LoggingManager.java:170-184 | two managed loggers without records under a root at ERROR render as "a=ERROR (original: NONE)\nb=ERROR (original: NONE)" |
| Log4j2Configurator.OverrideShowsOriginal | log4j2-jmx-helper/src/main/java/igloo/log4j2jmx/jmx/Log4j2LoggingManager.java:39-45 | overriding a logger configured at WARN with DEBUG renders as "name=DEBUG (original: WARN)" |
| Log4j2Configurator.TwoOverriddenLoggersConfigText | log4j2-jmx-helper/src/main/java/igloo/log4j2jmx/jmx/Log4j2LoggingManager.java:39-45 | two managed loggers with recorded originals render as "a=INFO (original: ERROR)\nb=DEBUG (original: WARN)" in name order, from a well-formed state |
| Log4j2Configurator.ExampleNamesSorted | igloo-logging/log4j2-jmx-helper/src/test/java/test/core/TestLog4j2LoggingManager.java:170-184 | "loggerExpected" sorts before "loggerOtherExpected" |
| Log4j2Manager.Log4j2LoggingManager.constructor | log4j2-jmx-helper/src/main/java/igloo/log4j2jmx/jmx/Log4j2LoggingManagerImpl.java:27-39 | the JUL manager is optional; nothing is managed or recorded |
| Log4j2Manager.Log4j2LoggingManager.LoggerNames | log4j2-jmx-helper/src/main/java/igloo/log4j2jmx/jmx/Log4j2LoggingManagerImpl.java:45-49 | strictly ascending, exactly the managed names |
| Log4j2Manager.Log4j2LoggingManager.LoggerConfig | log4j2-jmx-helper/src/main/java/igloo/log4j2jmx/jmx/Log4j2LoggingManagerImpl.java:55-69 | "" iff nothing is managed; when no managed name holds a newline, it splits into the sorted "name=LEVEL (original: X)" lines |
| Log4j2Manager.Log4j2LoggingManager.SetLevel | log4j2-jmx-helper/src/main/java/igloo/log4j2jmx/jmx/Log4j2LoggingManagerImpl.java:75-78 | an unknown level fails with nothing changed on either side; otherwise the state is doSetLevel's and, iff JUL is present, JUL gets setLevelIfWellKnown, whose failure is reported without undoing the Log4j2 change |
| Log4j2Manager.JulParsesLevelName | jul-helper/src/main/java/igloo/julhelper/jmx/JulLoggingManagerImpl.java:66-72 | JUL accepts the name of every Log4j2 level except FATAL, natively or through the table |
| Log4j2Manager.JulAcceptsLog4jLevels | log4j2-jmx-helper/src/main/java/igloo/log4j2jmx/jmx/Log4j2LoggingManagerImpl.java:75-78 | the JUL step of setLevel with a Log4j2 level name fails iff the level is FATAL and the name matches a known JUL name |
| Log4j2Manager.Log4j2LoggingManager.UnsetLevel | log4j2-jmx-helper/src/main/java/igloo/log4j2jmx/jmx/Log4j2LoggingManagerImpl.java:84-87 | doUnsetLevel, then an ungated JUL unset when JUL is present |
| Log4j2Manager.Log4j2LoggingManager.Reset | log4j2-jmx-helper/src/main/java/igloo/log4j2jmx/jmx/Log4j2LoggingManagerImpl.java:93-99 | the trace holds each snapshot name exactly once, and each is unset once on both sides; afterwards no logger is managed and no record is left |
| Log4j2Manager.Log4j2LoggingManager.JulKnownLoggers | log4j2-jmx-helper/src/main/java/igloo/log4j2jmx/jmx/Log4j2LoggingManagerImpl.java:105-107 | JUL's known set, or empty without JUL |
| Log4j2Manager.Log4j2LoggingManager.AddJulKnownLoggers | log4j2-jmx-helper/src/main/java/igloo/log4j2jmx/jmx/Log4j2LoggingManagerImpl.java:113-115 | merged into JUL's known set when JUL is present |
| Log4j2Manager.Log4j2LoggingManager.UpdateJulKnownLoggers | log4j2-jmx-helper/src/main/java/igloo/log4j2jmx/jmx/Log4j2LoggingManagerImpl.java:121-123 | replaces JUL's known set when JUL is present |
| Log4j2Manager.Log4j2LoggingManager.JulLoggingManagementEnabled | log4j2-jmx-helper/src/main/java/igloo/log4j2jmx/jmx/Log4j2LoggingManagerImpl.java:129-131 | true iff JUL is present |
| JulHolder.JulLoggingManagerHolder.constructor | igloo-logging/jul-helper-api/src/main/java/igloo/julhelper/api/JulLoggingManagerHolder.java:10 | the slot starts empty, so getInstance is null before any register |
| JulHolder.JulLoggingManagerHolder.Register | igloo-logging/jul-helper-api/src/main/java/igloo/julhelper/api/JulLoggingManagerHolder.java:12-20 | returns the previous instance (null when empty) and installs the new one |
| JulHolder.JulLoggingManagerHolder.GetInstance | igloo-logging/jul-helper-api/src/main/java/igloo/julhelper/api/JulLoggingManagerHolder.java:22-24 | returns the manager the slot holds, null before any registration |
| JulHolder.RegisterTwice | igloo-logging/jul-helper-api/src/main/java/igloo/julhelper/api/JulLoggingManagerHolder.java:12-24 | the second register returns the first manager and getInstance returns the last one registered |

## Left out

- JMX registration (`*MBean` interfaces, `ObjectName`, `MBeanServer`) and the servlet listeners and context wrappers: container plumbing around the engine.
- Reading the known-name resource and the `Scanner` over it: the operations take the text already split into lines. A resource path that names no resource makes the Java code fail with a null stream; the constructor instead requires the resolved resource to be present.
- The global JUL reset and the installation of the SLF4J bridge at start-up; the bridge handler is an opaque token (`BridgeHandler`).
- `synchronized` and the concurrent collections: the model is single-threaded. The known-name mutators are not synchronized in the source, and races between them and `setLevelIfWellKnown` are not modelled.
- Logging calls (`LOGGER.info`, `trace`, `warn`), including the warning on a replaced holder registration.
- Garbage collection and weak references of JUL loggers.
- `Level.parse` on numeric values and localized names, and custom Log4j2 levels: only the standard names are parsed.
- Non-ASCII case mapping in `toUpperCase`/`equalsIgnoreCase`.
- `getLogger` creating a logger in JUL's or Log4j2's registry: the model treats a name without a logger as a fresh logger, so that creation leaves no trace in the state.
- A null level string passed to `setLevel`: the public operations take a level string. A null `name` is not modelled either.
- The additivity and appenders of a newly added `LoggerConfig`, and `LoggerContext.updateLoggers`: a logger's level is always the one `LevelOf` reads off the current configuration.
- In the older Log4j2 manager, `setLevel` also sets the logger's own level to `Level.valueOf(level)` and calls `updateLoggers()`. After a successful `doSetLevel` that is the level the configuration already gives the logger, so the model has no separate step for it.
- Log4j2Manager.Log4j2LoggingManager.SetLevel: the JUL manager and the Log4j2 manager are separate objects; the case where the JUL manager is shared by several Log4j2 managers is not modelled.
- The `JulLevelMappingException` type: the code throws a plain `RuntimeException`, modelled as a failure message.
- `JulLoggingManagerHolder` is a static field in the source; the model holds it in an object, `JulHolder.JulLoggingManagerHolder`.
- Strings.Le: orders names by code point, while `String.compareTo` compares UTF-16 code units. The two disagree when a character above U+FFFF is compared with one in U+E000..U+FFFF, so such names may be listed in a different order by `getLoggerNames` and `getLoggerConfig`.
- JulManager.JulLoggingManager.JulKnownLoggers: `getJulKnownLoggers` hands out the live `TreeSet` field, which a caller may change and which iterates in sorted order; the model returns the set as a value, so neither that aliasing nor the order is captured.
- Other writers to the Log4j2 configuration: the model assumes the Log4j2 configuration changes only through this manager. A reconfiguration that installs a new `Configuration`, or another writer on the same logger context, is not modelled, and the invariant that every managed logger has an entry in the configuration rests on that assumption.
- JulConfigurator.ParseLevel: `toUpperCase()` uses the default locale. Under a Turkish locale "info" upper-cases to "İNFO", which is not in the table, so the code rejects it where the model accepts it. The model upper-cases as in a locale without such rules.
- The interfaces describe the known-name text as "separated by any whitespace", but the code reads it line by line; the model follows the code.
