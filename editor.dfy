/** The editor window (Assets/Editor/DebugEditorWindow.cs): a bounded list of the logs the editor
    receives, the type toggles and search filter that decide which of them are drawn, and the
    button that runs a snippet on the agent in the scene. */
module Editor {

  import opened Text
  import opened JsValues
  import Agent

  /** Unity's `LogType`. */
  datatype LogType = Error | Assert | Warning | Log | Exception

  /** A received log; `stackTrace` is `None` when null. The timestamp is a parameter. */
  datatype LogEntry = LogEntry(message: string, stackTrace: Option<string>, kind: LogType, timestamp: int)

  /** The four styles the window draws messages with. */
  datatype Style = LogStyle | WarningStyle | ErrorStyle | ExceptionStyle

  /** `HandleLog` drops the oldest entry once the list holds more than this many. */
  const MaxLogs: nat := 1000

  // ---------------------------------------------------------------------------------------
  // The bounded list.

  /** The list after `HandleLog` adds `e`. */
  function Appended(logs: seq<LogEntry>, e: LogEntry): seq<LogEntry>
  {
    (if |logs| > MaxLogs then logs[1..] else logs) + [e]
  }

  /** The new entry is last; what precedes it is the newest part of the old list, in order,
      with at most the oldest entry dropped, and only when the list was over the bound. */
  lemma AppendedSpec(logs: seq<LogEntry>, e: LogEntry)
    ensures var r := Appended(logs, e);
      && |r| == (if |logs| > MaxLogs then |logs| else |logs| + 1)
      && r[|r| - 1] == e
      && r[..|r| - 1] == logs[|logs| - (|r| - 1)..]
  {
    var r := Appended(logs, e);
    assert r[..|r| - 1] == if |logs| > MaxLogs then logs[1..] else logs;
  }

  /** The list never grows past `MaxLogs + 1`. */
  lemma AppendedBounded(logs: seq<LogEntry>, e: LogEntry)
    requires |logs| <= MaxLogs + 1
    ensures |Appended(logs, e)| <= MaxLogs + 1
  {
    AppendedSpec(logs, e);
  }

  /** The list after a sequence of `HandleLog` calls. */
  function AppendedAll(logs: seq<LogEntry>, es: seq<LogEntry>): seq<LogEntry>
    decreases |es|
  {
    if es == [] then logs else Appended(AppendedAll(logs, es[..|es| - 1]), es[|es| - 1])
  }

  function Min(a: int, b: int): int
  {
    if a <= b then a else b
  }

  /** From a list within the bound, any sequence of logs leaves exactly the newest
      `MaxLogs + 1` of everything seen (or all of it, if there is less), in arrival order. */
  lemma {:induction false} KeepsNewest(logs: seq<LogEntry>, es: seq<LogEntry>)
    requires |logs| <= MaxLogs + 1
    ensures var all := logs + es;
      var r := AppendedAll(logs, es);
      |r| == Min(|all|, MaxLogs + 1) && r == all[|all| - |r|..]
    decreases |es|
  {
    if es != [] {
      var init, e := es[..|es| - 1], es[|es| - 1];
      KeepsNewest(logs, init);
      var prev := AppendedAll(logs, init);
      AppendedSpec(prev, e);
      var all, all' := logs + es, logs + init;
      assert all == all' + [e];
      var r := Appended(prev, e);
      assert r == r[..|r| - 1] + [e];
      assert r[..|r| - 1] == prev[|prev| - (|r| - 1)..];
      assert prev[|prev| - (|r| - 1)..] == all'[|all'| - (|r| - 1)..];
      assert all[|all| - |r|..] == all'[|all'| - (|r| - 1)..] + [e];
    }
  }

  // ---------------------------------------------------------------------------------------
  // Which logs are drawn, and how.

  /** The type check of `ShouldShowLog`: the toggles are Log, Warning, Error, Exception in that
      order; every other type passes. */
  function TypeEnabled(kind: LogType, enabled: seq<bool>): bool
    requires |enabled| == 4
  {
    match kind
    case Log => enabled[0]
    case Warning => enabled[1]
    case Error => enabled[2]
    case Exception => enabled[3]
    case Assert => true
  }

  /** `ShouldShowLog`: the type check, then, with a non-empty filter, a case-insensitive search
      of the message and, when stack traces are shown, of a non-null stack trace. */
  function ShouldShowLog(log: LogEntry, enabled: seq<bool>, filter: string, showStackTrace: bool): bool
    requires |enabled| == 4
  {
    if !TypeEnabled(log.kind, enabled) then false
    else if filter != "" then
      Contains(Lower(log.message), Lower(filter))
      || (showStackTrace && log.stackTrace.Some? && Contains(Lower(log.stackTrace.value), Lower(filter)))
    else true
  }

  /** A log whose type is switched off is never drawn, an assert is never hidden by the type
      toggles, and with an empty filter the toggles alone decide. */
  lemma TypeGate(log: LogEntry, enabled: seq<bool>, filter: string, showStackTrace: bool)
    requires |enabled| == 4
    ensures !TypeEnabled(log.kind, enabled) ==> !ShouldShowLog(log, enabled, filter, showStackTrace)
    ensures log.kind == Assert ==> TypeEnabled(log.kind, enabled)
    ensures filter == "" ==> (ShouldShowLog(log, enabled, filter, showStackTrace) <==> TypeEnabled(log.kind, enabled))
  {
  }

  /** `needle` occurs somewhere in `hay`, ignoring ASCII case. */
  ghost predicate Mentions(hay: string, needle: string)
  {
    exists i :: OccursAt(Lower(hay), Lower(needle), i)
  }

  /** With a non-empty filter a log is drawn exactly when its type is enabled and the filter
      occurs in its message, or in its stack trace while stack traces are shown. */
  lemma FilterMatch(log: LogEntry, enabled: seq<bool>, filter: string, showStackTrace: bool)
    requires |enabled| == 4 && filter != ""
    ensures ShouldShowLog(log, enabled, filter, showStackTrace) <==>
      TypeEnabled(log.kind, enabled)
      && (Mentions(log.message, filter) || (showStackTrace && log.stackTrace.Some? && Mentions(log.stackTrace.value, filter)))
  {
    ContainsIffOccurs(Lower(log.message), Lower(filter));
    if log.stackTrace.Some? {
      ContainsIffOccurs(Lower(log.stackTrace.value), Lower(filter));
    }
  }

  /** The search ignores case on both sides: lower-casing the message or the filter first
      changes nothing. */
  lemma FilterIgnoresCase(log: LogEntry, enabled: seq<bool>, filter: string, showStackTrace: bool)
    requires |enabled| == 4
    ensures ShouldShowLog(log.(message := Lower(log.message)), enabled, filter, showStackTrace)
      == ShouldShowLog(log, enabled, filter, showStackTrace)
    ensures filter != "" ==>
      (ShouldShowLog(log, enabled, Lower(filter), showStackTrace) == ShouldShowLog(log, enabled, filter, showStackTrace))
  {
    LowerIdempotent(log.message);
    LowerIdempotent(filter);
    if filter != "" {
      assert Lower(filter) != "" by {
        assert |Lower(filter)| == |filter|;
      }
    }
  }

  /** `GetLogStyle`. */
  function GetLogStyle(kind: LogType): (r: Style)
    ensures r == LogStyle <==> !(kind.Warning? || kind.Error? || kind.Exception?)
  {
    match kind
    case Warning => WarningStyle
    case Error => ErrorStyle
    case Exception => ExceptionStyle
    case _ => LogStyle
  }

  /** Warnings, errors and exceptions each have a style of their own. */
  lemma StylesDistinct(a: LogType, b: LogType)
    requires a.Warning? || a.Error? || a.Exception?
    ensures GetLogStyle(a) == GetLogStyle(b) <==> a == b
  {
  }

  /** One drawn log: its entry, its style, and whether its stack trace line is drawn. */
  datatype Row = Row(entry: LogEntry, style: Style, traceShown: bool)

  /** The rows `DrawLogView` draws, in list order. */
  function Rows(logs: seq<LogEntry>, enabled: seq<bool>, filter: string, showStackTrace: bool): seq<Row>
    requires |enabled| == 4
  {
    if logs == [] then []
    else
      var last := logs[|logs| - 1];
      var rows := Rows(logs[..|logs| - 1], enabled, filter, showStackTrace);
      if ShouldShowLog(last, enabled, filter, showStackTrace)
      then rows + [Row(last, GetLogStyle(last.kind), showStackTrace && last.stackTrace.Some? && last.stackTrace.value != "")]
      else rows
  }

  /** Every drawn row is a visible log of the list in its style, and every visible log is
      drawn; the stack trace line appears only while stack traces are shown. */
  lemma {:induction false} RowsSpec(logs: seq<LogEntry>, enabled: seq<bool>, filter: string, showStackTrace: bool)
    requires |enabled| == 4
    ensures var rows := Rows(logs, enabled, filter, showStackTrace);
      && |rows| <= |logs|
      && (forall r :: r in rows ==>
            (r.entry in logs && ShouldShowLog(r.entry, enabled, filter, showStackTrace)
             && r.style == GetLogStyle(r.entry.kind) && (r.traceShown ==> showStackTrace)))
      && (forall e :: e in logs && ShouldShowLog(e, enabled, filter, showStackTrace) ==>
            exists r :: r in rows && r.entry == e)
    decreases |logs|
  {
    if logs != [] {
      var init, last := logs[..|logs| - 1], logs[|logs| - 1];
      RowsSpec(init, enabled, filter, showStackTrace);
      assert logs == init + [last];
      var rows := Rows(logs, enabled, filter, showStackTrace);
      forall e | e in logs && ShouldShowLog(e, enabled, filter, showStackTrace)
        ensures exists r :: r in rows && r.entry == e
      {
        if e == last {
          assert rows[|rows| - 1].entry == e;
        } else {
          assert e in init;
        }
      }
    }
  }

  // ---------------------------------------------------------------------------------------
  // The window.

  class DebugWindow {
    var logs: seq<LogEntry>
    /** The Log, Warning, Error and Exception toggles. */
    const logTypeEnabled: array<bool>
    var showStackTrace: bool
    var autoScroll: bool
    var searchFilter: string
    var codeToExecute: string
    var isExecuting: bool
    var logger: Agent.RemoteLogger?

    /** Four toggles, a bounded list, and no execution in progress between calls. */
    ghost predicate Valid()
      reads this
    {
      logTypeEnabled.Length == 4 && |logs| <= MaxLogs + 1 && !isExecuting
    }

    constructor ()
      ensures Valid() && fresh(logTypeEnabled)
      ensures logs == [] && logTypeEnabled[..] == [true, true, true, true]
      ensures showStackTrace && autoScroll && searchFilter == "" && codeToExecute == ""
      ensures logger == null
    {
      logs := [];
      logTypeEnabled := new bool[4] [true, true, true, true];
      showStackTrace, autoScroll, searchFilter, codeToExecute := true, true, "", "";
      isExecuting := false;
      logger := null;
    }

    /** `HandleLog`: drop the oldest entry when the list is over the bound, then append. */
    method HandleLog(logString: string, stackTrace: Option<string>, kind: LogType, now: int)
      requires Valid()
      modifies this
      ensures Valid()
      ensures logs == Appended(old(logs), LogEntry(logString, stackTrace, kind, now))
      ensures logger == old(logger) && searchFilter == old(searchFilter) && showStackTrace == old(showStackTrace)
      ensures autoScroll == old(autoScroll) && codeToExecute == old(codeToExecute)
    {
      if |logs| > MaxLogs {
        logs := logs[1..];
      }
      logs := logs + [LogEntry(logString, stackTrace, kind, now)];
      AppendedBounded(old(logs), LogEntry(logString, stackTrace, kind, now));
    }

    /** The Clear button. */
    method Clear()
      requires Valid()
      modifies this
      ensures Valid() && logs == []
      ensures logger == old(logger) && searchFilter == old(searchFilter) && showStackTrace == old(showStackTrace)
      ensures autoScroll == old(autoScroll) && codeToExecute == old(codeToExecute)
    {
      logs := [];
    }

    /** The toolbar's toggles and the search field. */
    method SetFilters(log: bool, warning: bool, error: bool, exception: bool, stack: bool, scroll: bool, filter: string)
      requires Valid()
      modifies this, logTypeEnabled
      ensures Valid() && logTypeEnabled[..] == [log, warning, error, exception]
      ensures showStackTrace == stack && autoScroll == scroll && searchFilter == filter
      ensures logs == old(logs) && logger == old(logger) && codeToExecute == old(codeToExecute)
    {
      logTypeEnabled[0] := log;
      logTypeEnabled[1] := warning;
      logTypeEnabled[2] := error;
      logTypeEnabled[3] := exception;
      showStackTrace, autoScroll, searchFilter := stack, scroll, filter;
    }

    /** `DrawLogView`: the rows drawn for the current list and settings. */
    method DrawLogView() returns (rows: seq<Row>)
      requires Valid()
      ensures rows == Rows(logs, logTypeEnabled[..], searchFilter, showStackTrace)
    {
      rows := [];
      for i := 0 to |logs|
        invariant rows == Rows(logs[..i], logTypeEnabled[..], searchFilter, showStackTrace)
      {
        assert logs[..i + 1][..i] == logs[..i];
        var log := logs[i];
        if ShouldShowLog(log, logTypeEnabled[..], searchFilter, showStackTrace) {
          var style := GetLogStyle(log.kind);
          rows := rows + [Row(log, style, showStackTrace && log.stackTrace.Some? && log.stackTrace.value != "")];
        }
      }
      assert logs[..|logs|] == logs;
    }

    /** The log records the engine hands to `HandleLog` through `Application.logMessageReceived`,
        one after another. */
    method HandleLogs(es: seq<LogEntry>)
      requires Valid()
      modifies this
      ensures Valid() && logs == AppendedAll(old(logs), es)
      ensures logger == old(logger) && searchFilter == old(searchFilter) && showStackTrace == old(showStackTrace)
      ensures autoScroll == old(autoScroll) && codeToExecute == old(codeToExecute)
    {
      for i := 0 to |es|
        invariant Valid() && logs == AppendedAll(old(logs), es[..i])
        invariant logger == old(logger) && searchFilter == old(searchFilter) && showStackTrace == old(showStackTrace)
        invariant autoScroll == old(autoScroll) && codeToExecute == old(codeToExecute)
      {
        assert es[..i + 1][..i] == es[..i];
        HandleLog(es[i].message, es[i].stackTrace, es[i].kind, es[i].timestamp);
      }
      assert es[..|es|] == es;
    }

    /** `TryGenerateUnityRemoteLogger`: keep the logger already found; in play mode otherwise
        use the one in the scene (`found`) or create one. */
    method TryGenerateLogger(isPlaying: bool, found: Agent.RemoteLogger?)
      requires Valid()
      modifies this
      ensures Valid() && logs == old(logs) && codeToExecute == old(codeToExecute)
      ensures searchFilter == old(searchFilter) && showStackTrace == old(showStackTrace) && autoScroll == old(autoScroll)
      ensures old(logger) != null ==> logger == old(logger)
      ensures old(logger) == null && !isPlaying ==> logger == null
      ensures old(logger) == null && isPlaying && found != null ==> logger == found
      ensures old(logger) == null && isPlaying && found == null ==>
        logger != null && fresh(logger) && logger.compiledAssemblies == map[]
        && logger.runtimeContext == map[] && logger.Conn() == Agent.Link(false, false, 0, [])
    {
      if logger != null {
        return;
      }
      if isPlaying {
        logger := found;
        if logger == null {
          logger := new Agent.RemoteLogger();
        }
      }
    }

    /** `ExecuteCode`: with a logger at hand, run `codeToExecute` on it with `isExecuting` set for
        the duration and cleared afterwards; without one, log an error and run nothing. `raised`
        are the log records the window's own callback receives meanwhile (that error, and the
        agent's logs while it compiles and runs the snippet). */
    method ExecuteCode(isPlaying: bool, found: Agent.RemoteLogger?, host: Agent.Host, raised: seq<LogEntry>)
      returns (outcome: Option<Agent.Outcome>)
      requires Valid()
      modifies this, logger, found
      ensures Valid() && !isExecuting && logs == AppendedAll(old(logs), raised)
      ensures searchFilter == old(searchFilter) && showStackTrace == old(showStackTrace) && autoScroll == old(autoScroll)
      ensures codeToExecute == old(codeToExecute)
      ensures outcome.Some? <==> logger != null
      ensures found != null && found != logger ==> unchanged(found)
      ensures old(logger) == null && !isPlaying ==> logger == null
      ensures old(logger) != null ==>
        logger == old(logger)
        && logger.Conn() == old(logger.Conn()) && logger.runtimeContext == old(logger.runtimeContext)
        && var r := Agent.Execute(host, old(logger.compiledAssemblies), Some(old(codeToExecute)));
        outcome == Some(r.outcome) && logger.compiledAssemblies == r.cache
      ensures old(logger) == null && isPlaying && found != null ==>
        logger == found
        && found.Conn() == old(found.Conn()) && found.runtimeContext == old(found.runtimeContext)
        && var r := Agent.Execute(host, old(found.compiledAssemblies), Some(old(codeToExecute)));
        outcome == Some(r.outcome) && found.compiledAssemblies == r.cache
      ensures old(logger) == null && isPlaying && found == null ==>
        logger != null && fresh(logger)
        && logger.Conn() == Agent.Link(false, false, 0, []) && logger.runtimeContext == map[]
        && var r := Agent.Execute(host, map[], Some(old(codeToExecute)));
        outcome == Some(r.outcome) && logger.compiledAssemblies == r.cache
    {
      TryGenerateLogger(isPlaying, found);
      if logger == null {
        outcome := None;
      } else {
        isExecuting := true;
        var r := logger.ExecuteCodeLocally(Some(codeToExecute), host);
        isExecuting := false;
        outcome := Some(r);
      }
      HandleLogs(raised);
    }
  }
}
