/** The Log4j2 side of the override engine: the logger configuration tree, the
    record of original levels, and what `doSetLevel` does with a level (create
    or update an entry and record the level it replaces, once) and without one
    (pop the record, then restore the recorded level or delete the entry).

    The configuration is a map from logger names to the level their entry
    carries (an entry may carry none and inherit); the root entry is "". A
    logger's entry is looked up as Log4j2 does: the logger's own entry, else
    that of the nearest configured ancestor, where the ancestor of a name is the
    part before its last '.', and the root for a name without a '.' there. */
module Log4j2Configurator {
  import opened Wrappers
  import opened Strings

  // ---------------------------------------------------------------------------
  // Levels
  // ---------------------------------------------------------------------------

  /** The standard org.apache.logging.log4j.Level constants. */
  datatype Level = OFF | FATAL | ERROR | WARN | INFO | DEBUG | TRACE | ALL

  /** Level.name */
  function LevelName(l: Level): string {
    match l
    case OFF => "OFF"
    case FATAL => "FATAL"
    case ERROR => "ERROR"
    case WARN => "WARN"
    case INFO => "INFO"
    case DEBUG => "DEBUG"
    case TRACE => "TRACE"
    case ALL => "ALL"
  }

  /** Level.valueOf on the standard levels: the trimmed, upper-cased name is
      looked up, and an unknown name throws. */
  function ValueOf(s: string): (r: Result<Level>)
    ensures r.Ok? ==> LevelName(r.value) == ToUpper(Trim(s))
    ensures r.Err? ==> forall l :: LevelName(l) != ToUpper(Trim(s))
  {
    var n := ToUpper(Trim(s));
    if n == "OFF" then Ok(OFF)
    else if n == "FATAL" then Ok(FATAL)
    else if n == "ERROR" then Ok(ERROR)
    else if n == "WARN" then Ok(WARN)
    else if n == "INFO" then Ok(INFO)
    else if n == "DEBUG" then Ok(DEBUG)
    else if n == "TRACE" then Ok(TRACE)
    else if n == "ALL" then Ok(ALL)
    else Err("Unknown level constant [" + n + "].")
  }

  /** Every level name reads back as that level. */
  lemma ValueOfName(l: Level)
    ensures ValueOf(LevelName(l)) == Ok(l)
  {
    TrimKeeps(LevelName(l));
    ToUpperOfUpper(LevelName(l));
    ValueOfByName(LevelName(l), l);
  }

  /** `valueOf` answers the level whose name the trimmed, upper-cased input
      is. */
  lemma ValueOfByName(s: string, l: Level)
    requires ToUpper(Trim(s)) == LevelName(l)
    ensures ValueOf(s) == Ok(l)
  {
    var r := ValueOf(s);
    assert r.Ok?;
    LevelNameInjective(r.value, l);
  }

  lemma LevelNameInjective(a: Level, b: Level)
    requires LevelName(a) == LevelName(b)
    ensures a == b
  {
    match a {
      case OFF =>
      case FATAL =>
      case ERROR =>
      case WARN =>
      case INFO =>
      case DEBUG =>
      case TRACE =>
      case ALL =>
    }
  }

  /** A level name in lower case, with a blank on either side, reads back as
      that level too. */
  lemma ValueOfLowerPadded(l: Level)
    ensures ValueOf(" " + LowerName(l) + "\t") == Ok(l)
  {
    TrimPadded(LowerName(l));
    UpperLower(l);
    ValueOfByName(" " + LowerName(l) + "\t", l);
  }

  lemma UpperLower(l: Level)
    ensures ToUpper(LowerName(l)) == LevelName(l)
  {
    match l {
      case OFF => assert ToUpper("off") == "OFF";
      case FATAL => assert ToUpper("fatal") == "FATAL";
      case ERROR => assert ToUpper("error") == "ERROR";
      case WARN => assert ToUpper("warn") == "WARN";
      case INFO => assert ToUpper("info") == "INFO";
      case DEBUG => assert ToUpper("debug") == "DEBUG";
      case TRACE => assert ToUpper("trace") == "TRACE";
      case ALL => assert ToUpper("all") == "ALL";
    }
  }

  /** A string whose two ends are not trimmable trims to itself. */
  lemma TrimKeeps(s: string)
    requires s != [] && !IsTrimmable(s[0]) && !IsTrimmable(s[|s| - 1])
    ensures Trim(s) == s
  {
    StripEndsKeeps(s, true);
  }

  /** A space in front and a tab behind are trimmed away. */
  lemma TrimPadded(s: string)
    requires s != [] && !IsTrimmable(s[0]) && !IsTrimmable(s[|s| - 1])
    ensures Trim(" " + s + "\t") == s
  {
    StripEndsPadded(s, true, ' ', '\t');
    assert " " + s + "\t" == [' '] + s + ['\t'];
  }

  function LowerName(l: Level): string {
    match l
    case OFF => "off"
    case FATAL => "fatal"
    case ERROR => "error"
    case WARN => "warn"
    case INFO => "info"
    case DEBUG => "debug"
    case TRACE => "trace"
    case ALL => "all"
  }

  /** LevelWrapper.name: the recorded level's name, "NONE" for a null level. */
  function WrapperName(recorded: Option<Level>): (r: string)
    ensures r == "NONE" <==> recorded.None?
    ensures recorded.Some? ==> r == LevelName(recorded.value)
    ensures '\n' !in r
  {
    match recorded
    case None => "NONE"
    case Some(l) => NameHasNoNewline(l); LevelName(l)
  }

  /** The name a record is shown under reads back, through `valueOf`, as the
      recorded level. */
  lemma WrapperNameReadsBack(l: Level)
    ensures ValueOf(WrapperName(Some(l))) == Ok(l)
  {
    ValueOfName(l);
  }

  // ---------------------------------------------------------------------------
  // The configuration tree
  // ---------------------------------------------------------------------------

  type Config = map<string, Option<Level>>

  /** The root logger's name. */
  const Root: string := ""

  /** String.lastIndexOf('.'), -1 when there is none. */
  function LastDot(s: string): (i: int)
    ensures -1 <= i < |s|
    ensures i >= 0 ==> s[i] == '.'
    ensures forall k :: i < k < |s| ==> s[k] != '.'
  {
    if s == [] then -1
    else if s[|s| - 1] == '.' then |s| - 1
    else LastDot(s[..|s| - 1])
  }

  /** The ancestor a configuration lookup moves on to: the part of the name
      before its last '.', or the root when there is no '.' past the first
      character. */
  function Parent(name: string): (r: string)
    requires name != Root
    ensures |r| < |name| && r <= name
  {
    var i := LastDot(name);
    if i > 0 then name[..i] else Root
  }

  /** `a` is met on the way up from `name` by repeated `Parent` steps. */
  predicate IsAncestor(a: string, name: string)
    decreases |name|
  {
    name != Root && (Parent(name) == a || IsAncestor(a, Parent(name)))
  }

  lemma {:induction false} AncestorShorter(a: string, name: string)
    requires IsAncestor(a, name)
    ensures |a| < |name|
    decreases |name|
  {
    if Parent(name) != a {
      AncestorShorter(a, Parent(name));
    }
  }

  /** Configuration.getLoggerConfig, by name: the logger's own entry if it has
      one, else the nearest configured ancestor's, else the root. */
  function Nearest(config: Config, name: string): (r: string)
    ensures r <= name
    ensures r == Root || r in config
    ensures name in config ==> r == name
    decreases |name|
  {
    if name in config || name == Root then name else Nearest(config, Parent(name))
  }

  /** What `Nearest` finds is the name itself or one of its ancestors, and no
      ancestor nearer to the name than it has an entry. */
  lemma {:induction false} NearestIsNearest(config: Config, name: string, a: string)
    ensures Nearest(config, name) == name || IsAncestor(Nearest(config, name), name)
    ensures IsAncestor(a, name) && |a| > |Nearest(config, name)| ==> a !in config
    decreases |name|
  {
    if name in config || name == Root {
      if IsAncestor(a, name) {
        AncestorShorter(a, name);
      }
    } else {
      var p := Parent(name);
      NearestIsNearest(config, p, a);
      var r := Nearest(config, p);
      if r != p {
        AncestorShorter(r, p);
      }
    }
  }

  /** The level a logger named `name` runs at (LoggerConfig.getLevel): the level
      of the first entry on the way up from the name that carries one, ERROR
      when none does. */
  function LevelOf(config: Config, name: string): (l: Level)
    ensures name in config && config[name].Some? ==> l == config[name].value
    decreases |name|
  {
    if name in config && config[name].Some? then config[name].value
    else if name == Root then ERROR
    else LevelOf(config, Parent(name))
  }

  /** A logger for which neither its own entry nor any ancestor's carries a
      level runs at ERROR. */
  lemma {:induction false} NoLevelMeansError(config: Config, name: string)
    requires name !in config || config[name].None?
    requires forall a :: IsAncestor(a, name) ==> a !in config || config[a].None?
    ensures LevelOf(config, name) == ERROR
    decreases |name|
  {
    if name != Root {
      var p := Parent(name);
      forall a | IsAncestor(a, p) ensures a !in config || config[a].None? {
        assert IsAncestor(a, name);
      }
      NoLevelMeansError(config, p);
    }
  }

  /** The level of a logger is the level of the entry `getLoggerConfig`
      returns for it. */
  lemma {:induction false} LevelOfNearest(config: Config, name: string)
    ensures LevelOf(config, name) == LevelOf(config, Nearest(config, name))
    decreases |name|
  {
    if name !in config && name != Root {
      LevelOfNearest(config, Parent(name));
    }
  }

  /** Configuration.removeLogger: the entry goes; the root is kept. */
  function RemoveEntry(config: Config, name: string): (r: Config)
    ensures name != Root ==> name !in r
    ensures forall n :: n != name ==> (n in r <==> n in config) && (n in r ==> r[n] == config[n])
    ensures Root in config ==> Root in r
  {
    if name == Root then config else config - {name}
  }

  /** Giving a name the level it already runs at changes no logger's level. */
  lemma {:induction false} PinLevel(config: Config, pinned: string, name: string)
    ensures LevelOf(config[pinned := Some(LevelOf(config, pinned))], name) == LevelOf(config, name)
    decreases |name|
  {
    var pinnedConfig := config[pinned := Some(LevelOf(config, pinned))];
    if name != pinned && name != Root && !(name in config && config[name].Some?) {
      PinLevel(config, pinned, Parent(name));
    }
  }

  // ---------------------------------------------------------------------------
  // The engine's state and doSetLevel
  // ---------------------------------------------------------------------------

  /** The configuration, the recorded original levels (`originalLevels`, a
      LevelWrapper being an optional level), and the managed logger names. */
  datatype Log4jState = Log4jState(config: Config, originals: map<string, Option<Level>>, managed: set<string>)

  /** The root is configured, every managed logger has a recorded original
      level and an entry of its own, and only managed loggers have a record. */
  predicate Wf(st: Log4jState) {
    && Root in st.config
    && st.originals.Keys == st.managed
    && st.managed <= st.config.Keys
    && forall n :: n in st.originals ==> st.originals[n].Some?
  }

  /** `popOriginalLevel`: a present record is removed and its level returned;
      for an absent name the result is null and the records are unchanged. */
  function PopOriginalLevel(originals: map<string, Option<Level>>, name: string)
    : (r: (Option<Level>, map<string, Option<Level>>))
    ensures name in originals ==> r.0 == originals[name] && r.1 == originals - {name}
    ensures name !in originals ==> r.0.None? && r.1 == originals
    ensures name !in r.1
  {
    if name in originals then (originals[name], originals - {name}) else (None, originals)
  }

  /** `doSetLevel`. With a level: the level read off `getLoggerConfig(name)`
      before anything changes, the name's entry created or updated to the new
      level (an unknown level throws first), the old level recorded if the name
      has no record yet, and the logger managed. Without a level: the record
      popped, the entry `getLoggerConfig(name)` returned set back to the
      recorded level, or the name's entry removed when there is no level to
      restore, and the logger no longer managed. */
  function DoSetLevel(st: Log4jState, name: string, level: Option<string>): (r: Result<Log4jState>)
    ensures level.None? ==> r.Ok?
    ensures level.Some? ==> (r.Ok? <==> ValueOf(level.value).Ok?)
    ensures level.Some? && r.Err? ==> r == Err(ValueOf(level.value).message)
    ensures level.Some? && r.Ok? ==>
              var l := ValueOf(level.value).value;
              && r.value.config == st.config[name := Some(l)]
              && LevelOf(r.value.config, name) == l
              && r.value.originals ==
                   (if name in st.originals then st.originals
                    else st.originals[name := Some(LevelOf(st.config, name))])
              && r.value.managed == st.managed + {name}
    ensures level.None? ==>
              && r.value.originals == st.originals - {name}
              && r.value.managed == st.managed - {name}
              && (name in st.originals && st.originals[name].Some? ==>
                    r.value.config == st.config[Nearest(st.config, name) := st.originals[name]])
              && (name !in st.originals || st.originals[name].None? ==>
                    r.value.config == RemoveEntry(st.config, name))
    ensures r.Ok? && Wf(st) ==> Wf(r.value)
  {
    var lconf := Nearest(st.config, name);
    if level.Some? then
      var originalLevel := LevelOf(st.config, lconf);
      LevelOfNearest(st.config, name);
      match ValueOf(level.value)
      case Err(e) => Err(e)
      case Ok(l) =>
        var config := st.config[name := Some(l)];
        var originals := if name in st.originals then st.originals else st.originals[name := Some(originalLevel)];
        Ok(Log4jState(config, originals, st.managed + {name}))
    else
      var (targetLevel, originals) := PopOriginalLevel(st.originals, name);
      var config := if targetLevel.None? then RemoveEntry(st.config, name) else st.config[lconf := targetLevel];
      Ok(Log4jState(config, originals, st.managed - {name}))
  }

  /** `doUnsetLevel` is `doSetLevel` without a level. */
  function DoUnsetLevel(st: Log4jState, name: string): (r: Log4jState)
    ensures Ok(r) == DoSetLevel(st, name, None)
  {
    DoSetLevel(st, name, None).value
  }

  // ---------------------------------------------------------------------------
  // Properties of doSetLevel
  // ---------------------------------------------------------------------------

  /** The first override wins: overriding a logger that is already managed and
      then unsetting it ends exactly where unsetting it right away would have,
      so the level from before the first override comes back. */
  lemma OverrideWhileManagedIsForgotten(st: Log4jState, name: string, level: string)
    requires Wf(st) && name in st.managed
    requires ValueOf(level).Ok?
    ensures DoUnsetLevel(DoSetLevel(st, name, Some(level)).value, name) == DoUnsetLevel(st, name)
  {
    var l := ValueOf(level).value;
    var mid := DoSetLevel(st, name, Some(level)).value;
    assert Nearest(mid.config, name) == name;
    assert Nearest(st.config, name) == name;
    assert mid.config[name := st.originals[name]] == st.config[name := st.originals[name]];
  }

  /** Overriding a logger nobody manages and then unsetting it leaves the
      records and the managed set as they were; the logger keeps an entry of
      its own, at the level it ran at before. */
  lemma SetThenUnset(st: Log4jState, name: string, level: string)
    requires Wf(st) && name !in st.managed
    requires ValueOf(level).Ok?
    ensures var once := DoUnsetLevel(DoSetLevel(st, name, Some(level)).value, name);
            && once.originals == st.originals
            && once.managed == st.managed
            && once.config == st.config[name := Some(LevelOf(st.config, name))]
  {
    var mid := DoSetLevel(st, name, Some(level)).value;
    assert name in mid.config;
    assert Nearest(mid.config, name) == name;
    assert mid.originals - {name} == st.originals;
  }

  /** ... and every logger runs at the level it ran at before. */
  lemma SetThenUnsetKeepsLevels(st: Log4jState, name: string, level: string, m: string)
    requires Wf(st) && name !in st.managed
    requires ValueOf(level).Ok?
    ensures LevelOf(DoUnsetLevel(DoSetLevel(st, name, Some(level)).value, name).config, m) == LevelOf(st.config, m)
  {
    SetThenUnset(st, name, level);
    PinLevel(st.config, name, m);
  }

  /** A second unset removes the entry the first one kept, so a logger that
      had no entry of its own before the override is left with none: the
      configuration is back where it started. */
  lemma SetThenUnsetTwice(st: Log4jState, name: string, level: string)
    requires Wf(st) && name !in st.managed && name !in st.config
    requires ValueOf(level).Ok?
    ensures var once := DoUnsetLevel(DoSetLevel(st, name, Some(level)).value, name);
            DoUnsetLevel(once, name) == st
  {
    SetThenUnset(st, name, level);
    var once := DoUnsetLevel(DoSetLevel(st, name, Some(level)).value, name);
    assert name != Root;
    assert name !in once.originals;
    assert RemoveEntry(once.config, name) == st.config;
  }

  /** Overriding a logger that has no entry, under a root at ERROR, adds an
      entry at the new level and records ERROR as its original level. */
  lemma NewLoggerRecordsRootLevel(name: string)
    requires name != Root
    ensures var r := DoSetLevel(Log4jState(map[Root := Some(ERROR)], map[], {}), name, Some("DEBUG"));
            && r.Ok?
            && r.value.config == map[Root := Some(ERROR), name := Some(DEBUG)]
            && r.value.originals == map[name := Some(ERROR)]
            && r.value.managed == {name}
  {
    var st := Log4jState(map[Root := Some(ERROR)], map[], {});
    ValueOfName(DEBUG);
    assert ValueOf("DEBUG") == Ok(DEBUG) by { assert LevelName(DEBUG) == "DEBUG"; }
    RootOnlyLevel(ERROR, name);
    var r := DoSetLevel(st, name, Some("DEBUG"));
    assert r.value.config == st.config[name := Some(DEBUG)];
    assert r.value.originals == st.originals[name := Some(ERROR)];
  }

  /** Unsetting a logger that has no record removes its entry, even one this
      engine never created, and leaves the records alone. */
  lemma UnsetWithoutRecordRemovesEntry(st: Log4jState, name: string)
    requires name !in st.originals
    ensures DoUnsetLevel(st, name).config == RemoveEntry(st.config, name)
    ensures DoUnsetLevel(st, name).originals == st.originals
    ensures name != Root ==> name !in DoUnsetLevel(st, name).config
  {
  }

  /** Unsetting a logger whose record holds a level sets its entry back to that
      level and keeps the entry. */
  lemma UnsetWithRecordRestores(st: Log4jState, name: string)
    requires Wf(st) && name in st.originals
    ensures name in DoUnsetLevel(st, name).config
    ensures DoUnsetLevel(st, name).config[name] == st.originals[name]
    ensures LevelOf(DoUnsetLevel(st, name).config, name) == st.originals[name].value
    ensures name !in DoUnsetLevel(st, name).originals
  {
    assert Nearest(st.config, name) == name;
  }

  // ---------------------------------------------------------------------------
  // reset
  // ---------------------------------------------------------------------------

  /** `doUnsetLevel` on each name of a snapshot, in the given order. */
  function ResetSpec(st: Log4jState, order: seq<string>): (r: Log4jState)
    ensures r.managed == st.managed - (set n | n in order)
    ensures r.originals.Keys == st.originals.Keys - (set n | n in order)
    decreases |order|
  {
    if order == [] then st
    else
      assert forall n :: n in order <==> n == order[0] || n in order[1..];
      ResetSpec(DoUnsetLevel(st, order[0]), order[1..])
  }

  /** A reset keeps the invariant; over a snapshot of the managed names it
      leaves no logger managed and no record behind. */
  lemma {:induction false} ResetEffect(st: Log4jState, order: seq<string>)
    ensures Wf(st) ==> Wf(ResetSpec(st, order))
    ensures Wf(st) && (forall n :: n in st.managed ==> n in order) ==>
              ResetSpec(st, order).managed == {} && ResetSpec(st, order).originals == map[]
    decreases |order|
  {
    if order != [] {
      var next := DoUnsetLevel(st, order[0]);
      ResetEffect(next, order[1..]);
    }
  }

  lemma {:induction false} ResetSnoc(st: Log4jState, order: seq<string>, n: string)
    ensures ResetSpec(st, order + [n]) == DoUnsetLevel(ResetSpec(st, order), n)
    decreases |order|
  {
    if order == [] {
      assert ResetSpec(DoUnsetLevel(st, n), []) == DoUnsetLevel(st, n);
    } else {
      assert (order + [n])[1..] == order[1..] + [n];
      ResetSnoc(DoUnsetLevel(st, order[0]), order[1..], n);
    }
  }

  // ---------------------------------------------------------------------------
  // getLoggerNames, getLoggerConfig
  // ---------------------------------------------------------------------------

  /** "name=LEVEL (original: X)": the level the logger runs at, and the name of
      its recorded original level, "NONE" when there is no record. */
  function ConfigLine(st: Log4jState, name: string): (line: string)
    ensures name + "=" <= line
    ensures '\n' !in name ==> '\n' !in line
  {
    var original := if name in st.originals then WrapperName(st.originals[name]) else "NONE";
    NameHasNoNewline(LevelOf(st.config, name));
    name + "=" + LevelName(LevelOf(st.config, name)) + " (original: " + original + ")"
  }

  /** What follows "name=" in a line: the logger's own level when it has one
      configured, and the recorded original level's name, or "NONE" when there
      is no record. */
  lemma ConfigLineFormat(st: Log4jState, name: string)
    ensures name in st.config && st.config[name].Some? && name in st.originals && st.originals[name].Some? ==>
              ConfigLine(st, name)
              == name + "=" + LevelName(st.config[name].value)
                 + " (original: " + LevelName(st.originals[name].value) + ")"
    ensures name !in st.originals || st.originals[name].None? ==>
              ConfigLine(st, name)
              == name + "=" + LevelName(LevelOf(st.config, name)) + " (original: " + "NONE" + ")"
  {
  }

  /** One line per managed logger, sorted by name. */
  function ConfigLines(st: Log4jState): (lines: seq<string>)
    ensures |lines| == |st.managed|
    ensures forall i :: 0 <= i < |lines| ==> lines[i] == ConfigLine(st, SortedStrings(st.managed)[i])
  {
    var names := SortedStrings(st.managed);
    seq(|names|, i requires 0 <= i < |names| => ConfigLine(st, names[i]))
  }

  /** `getLoggerConfig`: the lines joined by newlines. */
  function ConfigText(st: Log4jState): (text: string) {
    JoinLines(ConfigLines(st))
  }

  /** The configuration text is empty exactly when nothing is managed, and
      splitting it at newlines gives back one line per managed logger, in name
      order, when no managed name holds a newline. */
  lemma ConfigTextLines(st: Log4jState)
    ensures ConfigText(st) == "" <==> st.managed == {}
    ensures st.managed != {} && (forall n :: n in st.managed ==> '\n' !in n) ==>
              SplitLines(ConfigText(st)) == ConfigLines(st)
  {
    var lines := ConfigLines(st);
    var names := SortedStrings(st.managed);
    if st.managed != {} {
      assert lines[0] == ConfigLine(st, names[0]);
      assert |lines[0]| > 0;
      JoinLinesStartsWithFirst(lines);
      if forall n :: n in st.managed ==> '\n' !in n {
        forall k | 0 <= k < |lines| ensures '\n' !in lines[k] {
          assert names[k] in st.managed;
          assert lines[k] == ConfigLine(st, names[k]);
        }
        SplitJoinLines(lines);
      }
    }
  }

  lemma NameHasNoNewline(l: Level)
    ensures '\n' !in LevelName(l)
  {
    match l
    case OFF => case FATAL => case ERROR => case WARN =>
    case INFO => case DEBUG => case TRACE => case ALL =>
  }

  /** Under a configuration holding only the root, every logger runs at the
      root's level. */
  lemma {:induction false} RootOnlyLevel(rootLevel: Level, name: string)
    ensures LevelOf(map[Root := Some(rootLevel)], name) == rootLevel
    decreases |name|
  {
    if name != Root {
      RootOnlyLevel(rootLevel, Parent(name));
    }
  }

  /** Two managed loggers without records under a root at ERROR render as two
      lines in name order, each with the root's level and no original. */
  lemma TwoLoggersConfigText(a: string, b: string)
    requires a != b && Le(a, b)
    ensures ConfigText(Log4jState(map[Root := Some(ERROR)], map[], {a, b}))
            == (a + "=" + "ERROR" + " (original: " + "NONE" + ")") + "\n"
               + (b + "=" + "ERROR" + " (original: " + "NONE" + ")")
  {
    var st := Log4jState(map[Root := Some(ERROR)], map[], {a, b});
    SortedPair(a, b);
    RootOnlyLine(st, a);
    RootOnlyLine(st, b);
    assert ConfigLines(st) == [ConfigLine(st, a), ConfigLine(st, b)];
    JoinTwo(ConfigLine(st, a), ConfigLine(st, b));
  }

  /** Overriding a configured logger at WARN with DEBUG shows the new level
      and the WARN it had before as its original. */
  lemma OverrideShowsOriginal(name: string)
    requires name != Root
    ensures var st := Log4jState(map[Root := Some(ERROR), name := Some(WARN)], map[], {});
            && DoSetLevel(st, name, Some("DEBUG")).Ok?
            && ConfigText(DoSetLevel(st, name, Some("DEBUG")).value)
               == name + "=" + "DEBUG" + " (original: " + "WARN" + ")"
  {
    var st := Log4jState(map[Root := Some(ERROR), name := Some(WARN)], map[], {});
    var after := Log4jState(map[Root := Some(ERROR), name := Some(DEBUG)], map[name := Some(WARN)], {name});
    OverrideStep(name);
    assert SortedStrings(after.managed) == [name];
    RecordedLine(after, name, DEBUG, WARN);
    assert ConfigLines(after) == [ConfigLine(after, name)];
  }

  lemma OverrideStep(name: string)
    requires name != Root
    ensures DoSetLevel(Log4jState(map[Root := Some(ERROR), name := Some(WARN)], map[], {}), name, Some("DEBUG"))
            == Ok(Log4jState(map[Root := Some(ERROR), name := Some(DEBUG)], map[name := Some(WARN)], {name}))
  {
    var config := map[Root := Some(ERROR), name := Some(WARN)];
    assert ValueOf("DEBUG") == Ok(DEBUG) by {
      ValueOfName(DEBUG);
      assert LevelName(DEBUG) == "DEBUG";
    }
    assert LevelOf(config, name) == WARN;
    var r := DoSetLevel(Log4jState(config, map[], {}), name, Some("DEBUG"));
    assert r.Ok?;
    assert r.value.config == map[Root := Some(ERROR), name := Some(DEBUG)];
    assert r.value.originals == map[name := Some(WARN)];
    assert r.value.managed == {name};
  }

  /** A logger with its own level `l` and a record `o` shows both. */
  lemma RecordedLine(st: Log4jState, name: string, l: Level, o: Level)
    requires name in st.config && st.config[name] == Some(l)
    requires name in st.originals && st.originals[name] == Some(o)
    ensures ConfigLine(st, name) == name + "=" + LevelName(l) + " (original: " + LevelName(o) + ")"
  {
    ConfigLineFormat(st, name);
  }

  /** Two managed loggers with their own levels and recorded originals render
      as two lines in name order, each with its level and its original. */
  lemma TwoOverriddenLoggersConfigText(a: string, b: string)
    requires a != b && Le(a, b) && a != Root && b != Root
    ensures var st := Log4jState(map[Root := Some(ERROR), a := Some(INFO), b := Some(DEBUG)],
                                 map[a := Some(ERROR), b := Some(WARN)], {a, b});
            && Wf(st)
            && ConfigText(st)
               == (a + "=" + "INFO" + " (original: " + "ERROR" + ")") + "\n"
                  + (b + "=" + "DEBUG" + " (original: " + "WARN" + ")")
  {
    var st := Log4jState(map[Root := Some(ERROR), a := Some(INFO), b := Some(DEBUG)],
                         map[a := Some(ERROR), b := Some(WARN)], {a, b});
    SortedPair(a, b);
    RecordedPairText(st, a, INFO, ERROR, b, DEBUG, WARN);
    assert Wf(st) by {
      assert st.originals.Keys == {a, b};
      assert forall n :: n in st.originals ==> n == a || n == b;
    }
  }

  /** The text for two managed loggers, each with its own level and a record,
      is their two lines joined by a newline. */
  lemma RecordedPairText(st: Log4jState, a: string, la: Level, oa: Level, b: string, lb: Level, ob: Level)
    requires SortedStrings(st.managed) == [a, b]
    requires a in st.config && st.config[a] == Some(la) && a in st.originals && st.originals[a] == Some(oa)
    requires b in st.config && st.config[b] == Some(lb) && b in st.originals && st.originals[b] == Some(ob)
    ensures ConfigText(st)
            == (a + "=" + LevelName(la) + " (original: " + LevelName(oa) + ")") + "\n"
               + (b + "=" + LevelName(lb) + " (original: " + LevelName(ob) + ")")
  {
    assert ConfigLines(st) == [ConfigLine(st, a), ConfigLine(st, b)];
    JoinTwo(ConfigLine(st, a), ConfigLine(st, b));
    RecordedLine(st, a, la, oa);
    RecordedLine(st, b, lb, ob);
  }

  lemma RootOnlyLine(st: Log4jState, name: string)
    requires st.config == map[Root := Some(ERROR)] && st.originals == map[]
    ensures ConfigLine(st, name) == name + "=" + "ERROR" + " (original: " + "NONE" + ")"
  {
    RootOnlyLevel(ERROR, name);
  }

  /** The two loggers of the rendering example, in the order they sort. */
  lemma ExampleNamesSorted()
    ensures Le("loggerExpected", "loggerOtherExpected")
  {
    var a, b := "loggerExpected", "loggerOtherExpected";
    assert a[..6] == b[..6] && a[6] < b[6];
    LePrefixThenLess(a, b, 6);
  }

  lemma {:induction false} LePrefixThenLess(a: string, b: string, k: nat)
    requires k < |a| && k < |b| && a[..k] == b[..k] && a[k] < b[k]
    ensures Le(a, b)
    decreases k
  {
    if k > 0 {
      assert a[0] == a[..k][0] && b[0] == b[..k][0];
      assert a[1..][..k - 1] == a[..k][1..] && b[1..][..k - 1] == b[..k][1..];
      LePrefixThenLess(a[1..], b[1..], k - 1);
    }
  }

  /** Two different strings, the first one first, sort into that order. */
  lemma SortedPair(a: string, b: string)
    requires a != b && Le(a, b)
    ensures SortedStrings({a, b}) == [a, b]
  {
    var r := SortedStrings({a, b});
    assert |r| == 2;
    assert r[0] in {a, b} && r[1] in {a, b} && r[0] != r[1];
    if r[0] == b {
      assert Le(b, a);
      LeAntisymmetric(a, b);
    }
  }
}
