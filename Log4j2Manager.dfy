/** The Log4j2 logging manager: it drives `doSetLevel` on the Log4j2
    configuration, keeps the managed loggers and their original levels, and
    forwards each change to a JUL manager when it was given one. */
module Log4j2Manager {
  import opened Wrappers
  import opened Strings
  import opened Log4j2Configurator
  import J = JulConfigurator
  import JM = JulManager

  class Log4j2LoggingManager {
    /** The JUL manager changes are forwarded to, if any. */
    const jul: JM.JulLoggingManager?
    /** The names of the managed loggers. */
    var loggers: set<string>
    /** The original level recorded for each managed logger. */
    var originalLevels: map<string, Option<Level>>
    /** The configuration of the Log4j2 logger context. */
    var config: Config

    function State(): Log4jState
      reads this
    {
      Log4jState(config, originalLevels, loggers)
    }

    predicate Valid()
      reads this, jul
    {
      Wf(State()) && (jul != null ==> jul.Valid())
    }

    /** A manager with nothing managed, on the context's configuration. */
    constructor (julManager: JM.JulLoggingManager?, contextConfig: Config)
      requires Root in contextConfig
      requires julManager != null ==> julManager.Valid()
      ensures Valid()
      ensures jul == julManager && config == contextConfig
      ensures loggers == {} && originalLevels == map[]
    {
      jul := julManager;
      config := contextConfig;
      loggers := {};
      originalLevels := map[];
    }

    /** `getLoggerNames`: the managed names in ascending order, each once. */
    function LoggerNames(): (names: seq<string>)
      reads this
      ensures StrictlySorted(names)
      ensures |names| == |loggers|
      ensures forall n :: n in names <==> n in loggers
    {
      SortedStrings(loggers)
    }

    /** `getLoggerConfig`: one "name=LEVEL (original: X)" line per managed
        logger in name order, joined by newlines; "" when nothing is managed. */
    function LoggerConfig(): (text: string)
      reads this
      ensures text == "" <==> loggers == {}
      ensures loggers != {} && (forall n :: n in loggers ==> '\n' !in n) ==>
                SplitLines(text) == ConfigLines(State())
    {
      ConfigTextLines(State());
      ConfigText(State())
    }

    /** `setLevel`: `doSetLevel` with the level; an unknown level fails before
        anything changes. Then, when a JUL manager is present, the same change
        is offered to it through `setLevelIfWellKnown`; a level JUL cannot
        parse fails there, after the Log4j2 change has been made. */
    method SetLevel(name: string, level: string) returns (outcome: Outcome)
      requires Valid()
      modifies this, jul
      ensures Valid()
      ensures DoSetLevel(old(State()), name, Some(level)).Err? ==>
                && outcome == Fail(DoSetLevel(old(State()), name, Some(level)).message)
                && State() == old(State())
                && (jul != null ==> jul.State() == old(jul.State()))
      ensures DoSetLevel(old(State()), name, Some(level)).Ok? ==>
                && State() == DoSetLevel(old(State()), name, Some(level)).value
                && (jul == null ==> outcome == Pass)
                && (jul != null ==>
                      match J.SetLevelIfKnownSpec(old(jul.State()), jul.levelMapping, name, level)
                      case Ok(js) => outcome == Pass && jul.State() == js
                      case Err(e) => outcome == Fail(e) && jul.State() == old(jul.State()))
    {
      var r := DoSetLevel(State(), name, Some(level));
      if r.Err? {
        return Fail(r.message);
      }
      config, originalLevels, loggers := r.value.config, r.value.originals, r.value.managed;
      outcome := Pass;
      if jul != null {
        outcome := jul.SetLevelIfWellKnown(name, level);
      }
    }

    /** `unsetLevel`: `doUnsetLevel`, then `unsetLevel` on the JUL manager when
        one is present, whether or not the name is a known one. */
    method UnsetLevel(name: string)
      requires Valid()
      modifies this, jul
      ensures Valid()
      ensures State() == DoUnsetLevel(old(State()), name)
      ensures jul != null ==> jul.State() == J.UnsetSpec(old(jul.State()), name)
    {
      var st := DoUnsetLevel(State(), name);
      config, originalLevels, loggers := st.config, st.originals, st.managed;
      if jul != null {
        jul.UnsetLevel(name);
      }
    }

    /** `reset`: for each name of a snapshot of the managed set, once, in some
        order, `doUnsetLevel` and the JUL unset; afterwards nothing is managed
        and no original level is recorded. */
    method Reset() returns (ghost order: seq<string>)
      requires Valid()
      modifies this, jul
      ensures Valid()
      ensures forall n :: n in order <==> n in old(loggers)
      ensures |order| == |old(loggers)|
      ensures State() == ResetSpec(old(State()), order)
      ensures jul != null ==> jul.State() == J.ResetSpec(old(jul.State()), order)
      ensures loggers == {} && originalLevels == map[]
    {
      var snapshot := loggers;
      var pending := snapshot;
      order := [];
      while pending != {}
        invariant Valid()
        invariant pending <= snapshot
        invariant forall n :: n in order <==> n in snapshot && n !in pending
        invariant |order| + |pending| == |snapshot|
        invariant State() == ResetSpec(old(State()), order)
        invariant jul != null ==> jul.State() == J.ResetSpec(old(jul.State()), order)
        invariant loggers == pending
        decreases pending
      {
        var n :| n in pending;
        ResetSnoc(old(State()), order, n);
        if jul != null {
          JM.ResetSnoc(old(jul.State()), order, n);
        }
        UnsetLevel(n);
        pending := pending - {n};
        order := order + [n];
      }
      ResetEffect(old(State()), order);
    }

    /** `getJulKnownLoggers`: the JUL manager's known names, none without one. */
    function JulKnownLoggers(): (known: set<string>)
      reads this, jul
      ensures jul == null ==> known == {}
      ensures jul != null ==> known == jul.State().known
    {
      if jul == null then {} else jul.JulKnownLoggers()
    }

    /** `getJulLoggingManagementEnabled` */
    function JulLoggingManagementEnabled(): (enabled: bool)
      reads this
      ensures enabled <==> jul != null
    {
      jul != null
    }

    /** `addJulKnownLoggers`: merged into the JUL manager's known names when
        there is one; nothing otherwise. */
    method AddJulKnownLoggers(lines: seq<string>)
      requires Valid()
      modifies jul
      ensures Valid()
      ensures jul != null ==> jul.State() == J.LoadSpec(old(jul.State()), lines, false)
    {
      if jul != null {
        jul.AddJulKnownLoggers(lines);
      }
    }

    /** `updateJulKnownLoggers`: replaces the JUL manager's known names when
        there is one; nothing otherwise. */
    method UpdateJulKnownLoggers(lines: seq<string>)
      requires Valid()
      modifies jul
      ensures Valid()
      ensures jul != null ==> jul.State() == J.LoadSpec(old(jul.State()), lines, true)
    {
      if jul != null {
        jul.UpdateJulKnownLoggers(lines);
      }
    }
  }

  /** `setLevel` with "FATAL" on a logger whose name matches a known JUL name
      changes the Log4j2 configuration and then fails on the JUL side; with any
      other Log4j2 level name the JUL step succeeds. */
  lemma JulAcceptsLog4jLevels(l: Level, js: J.JulState, name: string)
    ensures J.SetLevelIfKnownSpec(js, JM.FallbackTable, name, LevelName(l)).Err? <==>
              l == FATAL && J.MatchesKnown(name, js.known)
  {
    JulParsesLevelName(l);
  }

  /** Which Log4j2 level names the JUL side accepts: every one but FATAL,
      which is neither a JUL name nor in the fallback table. */
  lemma JulParsesLevelName(l: Level)
    ensures J.ParseLevel(LevelName(l), JM.FallbackTable).Ok? <==> l != FATAL
  {
    match l
    case OFF => assert J.NativeParse("OFF") == Some(J.OFF);
    case FATAL => assert ToUpper("FATAL") == "FATAL";
    case ERROR => assert ToUpper("ERROR") == "ERROR";
    case WARN => assert ToUpper("WARN") == "WARN";
    case INFO => assert J.NativeParse("INFO") == Some(J.INFO);
    case DEBUG => assert ToUpper("DEBUG") == "DEBUG";
    case TRACE => assert ToUpper("TRACE") == "TRACE";
    case ALL => assert J.NativeParse("ALL") == Some(J.ALL);
  }
}
