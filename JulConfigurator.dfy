/** The java.util.logging (JUL) side of the override engine: level parsing with a
    fallback table, the known-name prefix set, and what `setLevel`, `unsetLevel`
    and `reset` do to the JUL loggers and to the set of managed loggers.

    A JUL logger is identified by its name (the managed set keeps one logger per
    name, since `getLogger` prefers a managed logger with the requested name and
    `Logger.getLogger` hands out one logger per name). JUL's own registry of
    loggers is a map from names to logger states; a name it does not hold yet is
    a fresh logger. */
module JulConfigurator {
  import opened Wrappers
  import opened Strings

  // ---------------------------------------------------------------------------
  // Levels
  // ---------------------------------------------------------------------------

  /** The standard java.util.logging.Level constants. */
  datatype Level = OFF | SEVERE | WARNING | INFO | CONFIG | FINE | FINER | FINEST | ALL

  /** Level.getName */
  function LevelName(l: Level): string {
    match l
    case OFF => "OFF"
    case SEVERE => "SEVERE"
    case WARNING => "WARNING"
    case INFO => "INFO"
    case CONFIG => "CONFIG"
    case FINE => "FINE"
    case FINER => "FINER"
    case FINEST => "FINEST"
    case ALL => "ALL"
  }

  /** Level.parse on the standard level names: it accepts exactly the name of a
      level (case-sensitive) and fails on anything else. */
  function NativeParse(s: string): (r: Option<Level>)
    ensures r.None? ==> forall l :: LevelName(l) != s
    ensures r.Some? ==> LevelName(r.value) == s
  {
    if s == "OFF" then Some(OFF)
    else if s == "SEVERE" then Some(SEVERE)
    else if s == "WARNING" then Some(WARNING)
    else if s == "INFO" then Some(INFO)
    else if s == "CONFIG" then Some(CONFIG)
    else if s == "FINE" then Some(FINE)
    else if s == "FINER" then Some(FINER)
    else if s == "FINEST" then Some(FINEST)
    else if s == "ALL" then Some(ALL)
    else None
  }

  /** `parseLevel`: the native parse wins whenever it succeeds, whatever the
      mapping holds; otherwise the upper-cased name is looked up in the mapping;
      otherwise a RuntimeException is thrown. */
  function ParseLevel(level: string, mapping: map<string, Level>): (r: Result<Level>)
    ensures r.Ok? <==> NativeParse(level).Some? || ToUpper(level) in mapping
    ensures NativeParse(level).Some? ==> r == Ok(NativeParse(level).value)
    ensures NativeParse(level).None? && ToUpper(level) in mapping ==> r == Ok(mapping[ToUpper(level)])
    ensures r.Err? ==> r.message == level + " cannot be mapped to a JUL level"
  {
    match NativeParse(level)
    case Some(l) => Ok(l)
    case None =>
      if ToUpper(level) in mapping then Ok(mapping[ToUpper(level)])
      else Err(level + " cannot be mapped to a JUL level")
  }

  /** Every level name parses back to its level, whatever the mapping. */
  lemma ParseLevelName(l: Level, mapping: map<string, Level>)
    ensures ParseLevel(LevelName(l), mapping) == Ok(l)
  {
    assert NativeParse(LevelName(l)).Some?;
  }

  // ---------------------------------------------------------------------------
  // Known logger names
  // ---------------------------------------------------------------------------

  /** A line of a known-name source that starts with "#" is a comment. The test
      is made on the raw line, before it is stripped. */
  predicate IsComment(line: string) {
    "#" <= line
  }

  /** The names `updateJulKnownLoggers` adds for the given lines: every line that
      is not a comment, stripped. Blank lines are not skipped: they add "". */
  function KnownEntries(lines: seq<string>): (entries: set<string>)
    ensures entries == {} <==> forall k :: 0 <= k < |lines| ==> IsComment(lines[k])
  {
    if lines == [] then {}
    else
      var last := lines[|lines| - 1];
      KnownEntries(lines[..|lines| - 1]) + (if IsComment(last) then {} else {Strip(last)})
  }

  /** The entries are exactly the stripped non-comment lines. */
  lemma {:induction false} KnownEntriesMembers(lines: seq<string>, x: string)
    ensures x in KnownEntries(lines) <==>
              exists k :: 0 <= k < |lines| && !IsComment(lines[k]) && Strip(lines[k]) == x
    decreases |lines|
  {
    if lines != [] {
      var init, last := lines[..|lines| - 1], lines[|lines| - 1];
      assert lines == init + [last];
      KnownEntriesMembers(init, x);
      LoadedLineSnoc(init, last, x);
    }
  }

  /** A line that loads `x` in `init + [last]` is one in `init` or `last`. */
  lemma LoadedLineSnoc(init: seq<string>, last: string, x: string)
    ensures (exists k :: 0 <= k < |init + [last]| && !IsComment((init + [last])[k]) && Strip((init + [last])[k]) == x)
            <==> (exists k :: 0 <= k < |init| && !IsComment(init[k]) && Strip(init[k]) == x)
                 || (!IsComment(last) && Strip(last) == x)
  {
    var lines := init + [last];
    if exists k :: 0 <= k < |init| && !IsComment(init[k]) && Strip(init[k]) == x {
      var k :| 0 <= k < |init| && !IsComment(init[k]) && Strip(init[k]) == x;
      assert lines[k] == init[k];
    }
    if !IsComment(last) && Strip(last) == x {
      assert lines[|init|] == last;
    }
    if exists k :: 0 <= k < |lines| && !IsComment(lines[k]) && Strip(lines[k]) == x {
      var k :| 0 <= k < |lines| && !IsComment(lines[k]) && Strip(lines[k]) == x;
      if k < |init| {
        assert init[k] == lines[k];
      }
    }
  }

  /** How many lines `updateJulKnownLoggers` reports as loaded: the number of
      non-comment lines, duplicates included. */
  function CountEntries(lines: seq<string>): (n: nat)
    ensures n <= |lines|
    ensures n == 0 <==> forall k :: 0 <= k < |lines| ==> IsComment(lines[k])
  {
    if lines == [] then 0
    else CountEntries(lines[..|lines| - 1]) + (if IsComment(lines[|lines| - 1]) then 0 else 1)
  }

  /** The count reported is at least the number of distinct names loaded: it
      counts duplicate lines twice. */
  lemma {:induction false} KnownEntriesBound(lines: seq<string>)
    ensures |KnownEntries(lines)| <= CountEntries(lines)
    decreases |lines|
  {
    if lines != [] {
      var init := lines[..|lines| - 1];
      KnownEntriesBound(init);
      var last := lines[|lines| - 1];
      if !IsComment(last) {
        var e := KnownEntries(init);
        assert |e + {Strip(last)}| <= |e| + 1 by {
          if Strip(last) in e {
            assert e + {Strip(last)} == e;
          }
        }
      }
    }
  }

  lemma KnownEntriesSnoc(lines: seq<string>, line: string)
    ensures KnownEntries(lines + [line]) ==
            KnownEntries(lines) + (if IsComment(line) then {} else {Strip(line)})
    ensures CountEntries(lines + [line]) == CountEntries(lines) + (if IsComment(line) then 0 else 1)
  {
    assert (lines + [line])[..|lines|] == lines;
  }

  /** `updateJulKnownLoggers`: in replace mode the set is cleared first; then
      each line that is not a comment is stripped and added, and counted. The
      result is the old set (or nothing) together with the entries of the
      lines, and the count is the number of non-comment lines. */
  method UpdateJulKnownLoggers(known: set<string>, lines: seq<string>, reset: bool)
    returns (updated: set<string>, loaded: nat)
    ensures updated == (if reset then {} else known) + KnownEntries(lines)
    ensures loaded == CountEntries(lines)
  {
    updated := known;
    if reset {
      updated := {};
    }
    ghost var base := updated;
    ghost var seen: seq<string> := [];
    loaded := 0;
    var i := 0;
    while i < |lines|
      invariant i <= |lines| && seen == lines[..i]
      invariant updated == base + KnownEntries(seen)
      invariant loaded == CountEntries(seen)
    {
      var line := lines[i];
      assert lines[..i + 1] == seen + [line];
      KnownEntriesSnoc(seen, line);
      if !IsComment(line) {
        updated := updated + {Strip(line)};
        loaded := loaded + 1;
      }
      assert updated == base + KnownEntries(seen + [line]);
      seen := seen + [line];
      i := i + 1;
    }
    assert seen == lines;
  }

  /** `matchJulKnownLoggers`: some known name is a prefix of the logger name
      (`loggerName.startsWith(k)`). */
  function MatchesKnown(name: string, known: set<string>): (b: bool)
    ensures b <==> exists i :: 0 <= i <= |name| && name[..i] in known
  {
    if exists k :: k in known && k <= name then
      var k :| k in known && k <= name;
      assert name[..|k|] == k;
      true
    else
      assert forall i :: 0 <= i <= |name| ==> name[..i] <= name;
      false
  }

  /** An empty known set matches no name; a known name matches itself and every
      name it is a prefix of; adding names never stops a name from matching. */
  lemma MatchesKnownFacts(name: string, k: string, suffix: string, known: set<string>, more: set<string>)
    ensures !MatchesKnown(name, {})
    ensures k in known ==> MatchesKnown(k + suffix, known)
    ensures MatchesKnown(name, known) ==> MatchesKnown(name, known + more)
  {
    if k in known {
      assert k <= k + suffix;
    }
  }

  /** A blank line in a known-name source adds "", and from then on every
      logger name matches the known set. */
  lemma BlankLineMatchesEverything(lines: seq<string>, i: nat, name: string)
    requires i < |lines| && IsBlank(lines[i])
    ensures "" in KnownEntries(lines)
    ensures MatchesKnown(name, KnownEntries(lines))
  {
    StripIsEmptyIffBlank(lines[i]);
    assert lines[i] == [] || IsWhitespace(lines[i][0]);
    assert !IsComment(lines[i]);
    KnownEntriesMembers(lines, "");
    assert "" <= name;
  }

  /** A text with a comment line and an empty line loads the comment as nothing
      and the empty line as "", next to the two names. */
  lemma KnownEntriesExample()
    ensures KnownEntries(["x.y", "# comment", "", "z.w"]) == {"x.y", "", "z.w"}
  {
    var lines := ["x.y", "# comment", "", "z.w"];
    StripEndsKeeps("x.y", false);
    StripEndsKeeps("z.w", false);
    assert Strip("") == "";
    assert IsComment(lines[1]);
    assert lines[..1] == ["x.y"] && lines[..1][..0] == [];
    assert KnownEntries(lines[..1]) == {"x.y"};
    assert lines[..2][..1] == lines[..1];
    assert KnownEntries(lines[..2]) == {"x.y"};
    assert lines[..3][..2] == lines[..2];
    assert KnownEntries(lines[..3]) == {"x.y", ""};
    assert lines[..3] == lines[..|lines| - 1];
  }

  // ---------------------------------------------------------------------------
  // JUL loggers
  // ---------------------------------------------------------------------------

  /** A handler attached to a JUL logger: the SLF4J bridge, or any other. */
  datatype Handler = BridgeHandler | OtherHandler(id: nat)

  /** What the engine reads and writes on a java.util.logging.Logger. */
  datatype LoggerState = LoggerState(level: Option<Level>, handlers: seq<Handler>, useParentHandlers: bool)

  /** A logger that inherits everything: no level of its own, no handlers, its
      parent's handlers in use. Fresh loggers are like this, and `doUnsetLevel`
      leaves loggers like this. */
  const Inheriting := LoggerState(None, [], true)

  /** What `setLevel` leaves on a logger: the parsed level, the bridge as its
      only handler, and parent handlers off. */
  function Overridden(l: Level): LoggerState {
    LoggerState(Some(l), [BridgeHandler], false)
  }

  predicate IsOverridden(s: LoggerState) {
    s.level.Some? && s == Overridden(s.level.value)
  }

  /** Logger.removeHandler: removes the first occurrence of the handler. */
  function RemoveHandler(hs: seq<Handler>, h: Handler): seq<Handler> {
    if hs == [] then []
    else if hs[0] == h then hs[1..]
    else [hs[0]] + RemoveHandler(hs[1..], h)
  }

  /** `clearHandlers`: removes, one by one, every handler of a snapshot of the
      logger's handlers; the logger is left with none and nothing else changes. */
  method ClearHandlers(logger: LoggerState) returns (cleared: LoggerState)
    ensures cleared == logger.(handlers := [])
  {
    var snapshot := logger.handlers;
    cleared := logger;
    var i := 0;
    while i < |snapshot|
      invariant i <= |snapshot|
      invariant cleared == logger.(handlers := snapshot[i..])
    {
      cleared := cleared.(handlers := RemoveHandler(cleared.handlers, snapshot[i]));
      i := i + 1;
    }
  }

  // ---------------------------------------------------------------------------
  // The JUL engine's state and its transitions
  // ---------------------------------------------------------------------------

  /** The known-name set, the names of the managed loggers, and JUL's loggers. */
  datatype JulState = JulState(known: set<string>, managed: set<string>, registry: map<string, LoggerState>)

  /** `getLogger`: the logger with that name, a fresh one if JUL has none yet. */
  function LoggerOf(st: JulState, name: string): (r: LoggerState)
    ensures name !in st.registry ==> r == Inheriting
    ensures name in st.registry ==> r == st.registry[name]
  {
    if name in st.registry then st.registry[name] else Inheriting
  }

  /** Every managed logger carries an override. */
  predicate Wf(st: JulState) {
    forall n :: n in st.managed ==> n in st.registry && IsOverridden(st.registry[n])
  }

  /** `setLevel`: parse first, and fail with nothing changed; otherwise override
      the named logger and add it to the managed set. */
  function SetLevelSpec(st: JulState, mapping: map<string, Level>, name: string, level: string): (r: Result<JulState>)
    ensures r.Ok? <==> ParseLevel(level, mapping).Ok?
    ensures r.Err? ==> r.message == ParseLevel(level, mapping).message
    ensures r.Ok? ==> && r.value.managed == st.managed + {name}
                      && r.value.known == st.known
                      && LoggerOf(r.value, name) == Overridden(ParseLevel(level, mapping).value)
                      && (forall m :: m != name ==> LoggerOf(r.value, m) == LoggerOf(st, m))
    ensures r.Ok? ==> |r.value.managed| <= |st.managed| + 1
    ensures r.Ok? && Wf(st) ==> Wf(r.value)
  {
    match ParseLevel(level, mapping)
    case Err(e) => Err(e)
    case Ok(l) => Ok(st.(managed := st.managed + {name}, registry := st.registry[name := Overridden(l)]))
  }

  /** `setLevelIfWellKnown`: `setLevel` when the name matches the known set,
      nothing otherwise. */
  function SetLevelIfKnownSpec(st: JulState, mapping: map<string, Level>, name: string, level: string): (r: Result<JulState>)
    ensures r.Err? <==> MatchesKnown(name, st.known) && ParseLevel(level, mapping).Err?
    ensures MatchesKnown(name, st.known) ==> r == SetLevelSpec(st, mapping, name, level)
    ensures r.Ok? && !MatchesKnown(name, st.known) ==> r.value == st
    ensures r.Ok? ==> r.value.known == st.known && st.managed <= r.value.managed <= st.managed + {name}
    ensures r.Ok? && Wf(st) ==> Wf(r.value)
  {
    if MatchesKnown(name, st.known) then SetLevelSpec(st, mapping, name, level) else Ok(st)
  }

  /** `doUnsetLevel`: the named logger inherits again and is no longer managed;
      no other logger changes. */
  function UnsetSpec(st: JulState, name: string): (r: JulState)
    ensures r.managed == st.managed - {name} && r.known == st.known
    ensures LoggerOf(r, name) == Inheriting
    ensures forall m :: m != name ==> LoggerOf(r, m) == LoggerOf(st, m)
    ensures Wf(st) ==> Wf(r)
  {
    st.(managed := st.managed - {name}, registry := st.registry[name := Inheriting])
  }

  /** `reset`: `doUnsetLevel` on each name of a snapshot, in the given order. */
  function ResetSpec(st: JulState, order: seq<string>): (r: JulState)
    ensures r.managed == st.managed - set n | n in order
    ensures r.known == st.known
    decreases |order|
  {
    if order == [] then st
    else
      assert forall n :: n in order <==> n == order[0] || n in order[1..];
      ResetSpec(UnsetSpec(st, order[0]), order[1..])
  }

  /** `updateJulKnownLoggers`: replace mode clears the set first; then the
      entries of the lines are added. */
  function LoadSpec(st: JulState, lines: seq<string>, reset: bool): (r: JulState)
    ensures r.known == (if reset then {} else st.known) + KnownEntries(lines)
    ensures r.managed == st.managed && r.registry == st.registry
  {
    st.(known := (if reset then {} else st.known) + KnownEntries(lines))
  }

  /** `JulLoggingConfigurator.setLevel`, step by step on the logger that
      `getLogger` returns: set the parsed level (a failed parse throws before
      anything is touched), clear the handlers, turn parent handlers off, attach
      the bridge, and record the logger as managed. */
  method SetLevel(st: JulState, mapping: map<string, Level>, name: string, level: string)
    returns (r: Result<JulState>)
    ensures r == SetLevelSpec(st, mapping, name, level)
  {
    var logger := LoggerOf(st, name);
    var parsed := ParseLevel(level, mapping);
    if parsed.Err? {
      r := Err(parsed.message);
      return;
    }
    logger := logger.(level := Some(parsed.value));
    logger := ClearHandlers(logger);
    logger := logger.(useParentHandlers := false);
    logger := logger.(handlers := logger.handlers + [BridgeHandler]);
    assert logger == Overridden(parsed.value);
    r := Ok(st.(managed := st.managed + {name}, registry := st.registry[name := logger]));
  }

  /** `JulLoggingConfigurator.doUnsetLevel`, step by step: clear the handlers,
      turn parent handlers on, drop the level, and stop managing the logger. */
  method DoUnsetLevel(st: JulState, name: string) returns (r: JulState)
    ensures r == UnsetSpec(st, name)
  {
    var logger := LoggerOf(st, name);
    logger := ClearHandlers(logger);
    logger := logger.(useParentHandlers := true);
    logger := logger.(level := None);
    r := st.(managed := st.managed - {name}, registry := st.registry[name := logger]);
  }

  // ---------------------------------------------------------------------------
  // Properties of the transitions
  // ---------------------------------------------------------------------------

  /** Overriding a logger nobody manages and then unsetting it leaves the
      managed set as it was and the logger inheriting; if the logger was
      inheriting before, every logger is as it was. */
  lemma SetThenUnset(st: JulState, mapping: map<string, Level>, name: string, level: string)
    requires name !in st.managed
    requires ParseLevel(level, mapping).Ok?
    ensures var after := UnsetSpec(SetLevelSpec(st, mapping, name, level).value, name);
            && after.managed == st.managed
            && LoggerOf(after, name) == Inheriting
            && (LoggerOf(st, name) == Inheriting ==> forall m :: LoggerOf(after, m) == LoggerOf(st, m))
  {
    var after := UnsetSpec(SetLevelSpec(st, mapping, name, level).value, name);
    assert after.managed == st.managed + {name} - {name};
  }

  /** A reset over an order that lists the managed names leaves no logger
      managed; exactly the listed loggers inherit afterwards, and every other
      logger is untouched. */
  lemma {:induction false} ResetEffect(st: JulState, order: seq<string>)
    ensures forall m :: LoggerOf(ResetSpec(st, order), m) == if m in order then Inheriting else LoggerOf(st, m)
    ensures Wf(st) ==> Wf(ResetSpec(st, order))
    decreases |order|
  {
    if order != [] {
      ResetEffect(UnsetSpec(st, order[0]), order[1..]);
    }
  }

  /** A reset over the snapshot of the managed names empties the managed set
      and leaves every logger that was managed inheriting. */
  lemma ResetEmpties(st: JulState, order: seq<string>)
    requires forall n :: n in st.managed <==> n in order
    ensures ResetSpec(st, order).managed == {}
    ensures forall m :: m in st.managed ==> LoggerOf(ResetSpec(st, order), m) == Inheriting
  {
    ResetEffect(st, order);
  }

  /** Unsetting twice is unsetting once. */
  lemma UnsetIdempotent(st: JulState, name: string)
    ensures UnsetSpec(UnsetSpec(st, name), name) == UnsetSpec(st, name)
  {
    var once := UnsetSpec(st, name);
    assert once.registry[name := Inheriting] == once.registry;
  }

  // ---------------------------------------------------------------------------
  // getLoggerNames, getLoggerConfig
  // ---------------------------------------------------------------------------

  /** Every managed logger has a level of its own, which is all that
      `getLoggerConfig` reads. */
  predicate Leveled(st: JulState) {
    forall n :: n in st.managed ==> n in st.registry && st.registry[n].level.Some?
  }

  /** One "name=LEVEL" line per managed logger, sorted by name. */
  function ConfigLines(st: JulState): (lines: seq<string>)
    requires Leveled(st)
    ensures |lines| == |st.managed|
    ensures forall i :: 0 <= i < |lines| ==>
              var n := SortedStrings(st.managed)[i];
              lines[i] == n + "=" + LevelName(st.registry[n].level.value)
  {
    var names := SortedStrings(st.managed);
    seq(|names|, i requires 0 <= i < |names| => names[i] + "=" + LevelName(st.registry[names[i]].level.value))
  }

  /** `getLoggerConfig`: the lines joined by newlines. */
  function ConfigText(st: JulState): (text: string)
    requires Leveled(st)
  {
    JoinLines(ConfigLines(st))
  }

  /** The configuration text is empty exactly when nothing is managed, and
      splitting it at newlines gives back one line per managed logger, in name
      order, when no managed name holds a newline. */
  lemma ConfigTextLines(st: JulState)
    requires Leveled(st)
    ensures ConfigText(st) == "" <==> st.managed == {}
    ensures st.managed != {} && (forall n :: n in st.managed ==> '\n' !in n) ==>
              SplitLines(ConfigText(st)) == ConfigLines(st)
  {
    var lines := ConfigLines(st);
    var names := SortedStrings(st.managed);
    if st.managed != {} {
      assert |lines| > 0;
      var t := JoinLines(lines);
      LevelNameHasNoNewline(st.registry[names[0]].level.value);
      assert '=' in lines[0] by { assert lines[0][|names[0]|] == '='; }
      JoinLinesStartsWithFirst(lines);
      assert t != "";
      if forall n :: n in st.managed ==> '\n' !in n {
        forall k | 0 <= k < |lines| ensures '\n' !in lines[k] {
          assert names[k] in st.managed;
          LevelNameHasNoNewline(st.registry[names[k]].level.value);
        }
        SplitJoinLines(lines);
      }
    }
  }

  lemma LevelNameHasNoNewline(l: Level)
    ensures '\n' !in LevelName(l)
  {
  }
}
