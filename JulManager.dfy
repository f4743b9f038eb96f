/** The JUL logging manager: the object that holds the known-name set, the
    level fallback table and the managed loggers, and exposes the operations of
    the JUL engine. */
module JulManager {
  import opened Wrappers
  import opened Strings
  import opened JulConfigurator

  /** The resource loaded when the known-name path is blank or "default". */
  const DefaultResourcePath: string := "jul-helper/well-known-jul-loggers.txt"

  /** The table `parseLevel` falls back on for names JUL does not know,
      keyed by upper-case Log4j-style level names. */
  const FallbackTable: map<string, Level> :=
    map["ALL" := FINEST, "TRACE" := FINEST, "DEBUG" := FINE, "INFO" := INFO,
        "WARN" := WARNING, "ERROR" := SEVERE, "OFF" := OFF]

  /** The constructor's resource-path resolution: no path means no loading; a
      blank path, or "default" in any case, means the default resource; any
      other path is used as given. The resolved path is never blank and never
      "default". */
  function ResolveResourcePath(path: Option<string>): (r: Option<string>)
    ensures r.None? <==> path.None?
    ensures r.Some? ==> !IsBlank(r.value) && !EqualsIgnoreCase(r.value, "default")
    ensures path.Some? && !IsBlank(path.value) && !EqualsIgnoreCase(path.value, "default") ==> r == path
    ensures path.Some? && (IsBlank(path.value) || EqualsIgnoreCase(path.value, "default")) ==>
              r == Some(DefaultResourcePath)
  {
    match path
    case None => None
    case Some(p) =>
      var p1 := if IsBlank(p) then DefaultResourcePath else p;
      var p2 := if EqualsIgnoreCase(p1, "default") then DefaultResourcePath else p1;
      assert DefaultResourcePath[0] == 'j';
      assert |ToUpper(DefaultResourcePath)| != |ToUpper("default")|;
      Some(p2)
  }

  /** Resolving a resolved path changes nothing. */
  lemma ResolveIdempotent(path: Option<string>)
    ensures ResolveResourcePath(ResolveResourcePath(path)) == ResolveResourcePath(path)
  {
  }

  /** Upper-case names: "ALL" is JUL's own name and parses natively, although
      the table also holds it; "TRACE" and "ERROR" are not JUL names and resolve
      through the table. */
  lemma FallbackUpperCase()
    ensures ParseLevel("ALL", FallbackTable) == Ok(ALL)
    ensures ParseLevel("TRACE", FallbackTable) == Ok(FINEST)
    ensures ParseLevel("ERROR", FallbackTable) == Ok(SEVERE)
  {
    assert ParseLevel("ALL", FallbackTable) == Ok(ALL) by {
      ParseLevelName(ALL, FallbackTable);
      assert LevelName(ALL) == "ALL";
    }
    FallbackOne("TRACE", "TRACE");
    FallbackOne("ERROR", "ERROR");
  }

  /** Names in other cases are upper-cased before the table lookup: "all" maps
      to FINEST, not to JUL's ALL. */
  lemma FallbackOtherCase()
    ensures ParseLevel("all", FallbackTable) == Ok(FINEST)
    ensures ParseLevel("debug", FallbackTable) == Ok(FINE)
    ensures ParseLevel("Warn", FallbackTable) == Ok(WARNING)
  {
    FallbackOne("all", "ALL");
    FallbackOne("debug", "DEBUG");
    FallbackOne("Warn", "WARN");
  }

  /** A Log4j level the table does not hold is rejected with its message. */
  lemma UnmappedLevelRejected()
    ensures ParseLevel("FATAL", FallbackTable) == Err("FATAL" + " cannot be mapped to a JUL level")
  {
    assert ToUpper("FATAL") == "FATAL";
  }

  lemma FallbackOne(level: string, upper: string)
    requires ToUpper(level) == upper && upper in FallbackTable
    requires NativeParse(level).None?
    ensures ParseLevel(level, FallbackTable) == Ok(FallbackTable[upper])
  {
  }

  class JulLoggingManager {
    /** The known logger-name prefixes. */
    var knownLoggers: set<string>
    /** The fallback table handed to `parseLevel`. */
    const levelMapping: map<string, Level>
    /** The names of the managed loggers. */
    var loggers: set<string>
    /** JUL's loggers, by name. */
    var registry: map<string, LoggerState>

    function State(): JulState
      reads this
    {
      JulState(knownLoggers, loggers, registry)
    }

    predicate Valid()
      reads this
    {
      Wf(State()) && levelMapping == FallbackTable
    }

    /** Builds the manager on JUL's current loggers; the known names are loaded
        from the resolved resource, which must exist, or not at all. */
    constructor (resourcePath: Option<string>, resources: map<string, seq<string>>,
                 julLoggers: map<string, LoggerState>)
      requires ResolveResourcePath(resourcePath).Some? ==> ResolveResourcePath(resourcePath).value in resources
      ensures Valid()
      ensures loggers == {} && registry == julLoggers
      ensures knownLoggers == match ResolveResourcePath(resourcePath)
                              case None => {}
                              case Some(p) => KnownEntries(resources[p])
    {
      var known := {};
      var resolved := ResolveResourcePath(resourcePath);
      if resolved.Some? {
        var loaded;
        known, loaded := JulConfigurator.UpdateJulKnownLoggers({}, resources[resolved.value], false);
      }
      levelMapping := FallbackTable;
      loggers := {};
      registry := julLoggers;
      knownLoggers := known;
    }

    /** `getLoggerNames`: the managed names in ascending order, each once. */
    function LoggerNames(): (names: seq<string>)
      reads this
      ensures StrictlySorted(names)
      ensures |names| == |loggers|
      ensures forall n :: n in names <==> n in loggers
    {
      SortedStrings(loggers)
    }

    /** `getLoggerConfig`: one "name=LEVEL" line per managed logger in name
        order, joined by newlines; "" when nothing is managed. */
    function LoggerConfig(): (text: string)
      requires Valid()
      reads this
      ensures text == "" <==> loggers == {}
      ensures loggers != {} && (forall n :: n in loggers ==> '\n' !in n) ==>
                SplitLines(text) == ConfigLines(State())
    {
      ConfigTextLines(State());
      ConfigText(State())
    }

    /** `setLevel`: a level that cannot be parsed fails and changes nothing. */
    method SetLevel(name: string, level: string) returns (outcome: Outcome)
      requires Valid()
      modifies this
      ensures Valid()
      ensures match SetLevelSpec(old(State()), levelMapping, name, level)
              case Ok(st) => outcome == Pass && State() == st
              case Err(e) => outcome == Fail(e) && State() == old(State())
    {
      var r := JulConfigurator.SetLevel(State(), levelMapping, name, level);
      match r
      case Ok(st) =>
        loggers, registry := st.managed, st.registry;
        outcome := Pass;
      case Err(e) =>
        outcome := Fail(e);
    }

    /** `setLevelIfWellKnown`: `setLevel` when a known name is a prefix of the
        logger name; otherwise nothing happens. */
    method SetLevelIfWellKnown(name: string, level: string) returns (outcome: Outcome)
      requires Valid()
      modifies this
      ensures Valid()
      ensures match SetLevelIfKnownSpec(old(State()), levelMapping, name, level)
              case Ok(st) => outcome == Pass && State() == st
              case Err(e) => outcome == Fail(e) && State() == old(State())
      ensures !MatchesKnown(name, old(knownLoggers)) ==> outcome == Pass && State() == old(State())
    {
      if MatchesKnown(name, knownLoggers) {
        outcome := SetLevel(name, level);
      } else {
        outcome := Pass;
      }
    }

    /** `unsetLevel`: the logger inherits again and is no longer managed. */
    method UnsetLevel(name: string)
      requires Valid()
      modifies this
      ensures Valid()
      ensures State() == UnsetSpec(old(State()), name)
    {
      var st := DoUnsetLevel(State(), name);
      loggers, registry := st.managed, st.registry;
    }

    /** `reset`: unsets each name of a snapshot of the managed set, once, in
        some order; afterwards nothing is managed and exactly the loggers that
        were managed have been released. */
    method Reset() returns (ghost order: seq<string>)
      requires Valid()
      modifies this
      ensures Valid()
      ensures State() == ResetSpec(old(State()), order)
      ensures forall n :: n in order <==> n in old(loggers)
      ensures |order| == |old(loggers)|
      ensures loggers == {} && knownLoggers == old(knownLoggers)
      ensures forall m :: LoggerOf(State(), m) == if m in old(loggers) then Inheriting else LoggerOf(old(State()), m)
    {
      var snapshot := loggers;
      var pending := snapshot;
      order := [];
      while pending != {}
        invariant Valid()
        invariant pending <= snapshot
        invariant forall n :: n in order <==> n in snapshot && n !in pending
        invariant |order| + |pending| == |snapshot|
        invariant State() == ResetSpec(old(State()), order)
        invariant loggers == pending
        decreases pending
      {
        var n :| n in pending;
        ResetSnoc(old(State()), order, n);
        UnsetLevel(n);
        pending := pending - {n};
        order := order + [n];
      }
      ResetEffect(old(State()), order);
    }

    /** `getJulKnownLoggers` */
    function JulKnownLoggers(): (known: set<string>)
      reads this
      ensures known == State().known
    {
      knownLoggers
    }

    /** `addJulKnownLoggers`: the entries of the lines join the known set. */
    method AddJulKnownLoggers(lines: seq<string>)
      requires Valid()
      modifies this
      ensures Valid()
      ensures State() == LoadSpec(old(State()), lines, false)
    {
      var loaded;
      knownLoggers, loaded := JulConfigurator.UpdateJulKnownLoggers(knownLoggers, lines, false);
    }

    /** `updateJulKnownLoggers`: the entries of the lines replace the known
        set. */
    method UpdateJulKnownLoggers(lines: seq<string>)
      requires Valid()
      modifies this
      ensures Valid()
      ensures State() == LoadSpec(old(State()), lines, true)
    {
      var loaded;
      knownLoggers, loaded := JulConfigurator.UpdateJulKnownLoggers(knownLoggers, lines, true);
    }
  }

  /** A reset that has handled `order` and then handles `n` has handled
      `order + [n]`. */
  lemma {:induction false} ResetSnoc(st: JulState, order: seq<string>, n: string)
    ensures ResetSpec(st, order + [n]) == UnsetSpec(ResetSpec(st, order), n)
    decreases |order|
  {
    if order == [] {
      assert ResetSpec(UnsetSpec(st, n), []) == UnsetSpec(st, n);
    } else {
      assert (order + [n])[1..] == order[1..] + [n];
      ResetSnoc(UnsetSpec(st, order[0]), order[1..], n);
    }
  }
}
