/**
 * The build evaluator: before the interactive session it runs the build
 * of the changeset and logs its output lines to `logdir/build_<n>.log`,
 * numbering builds from 1.  The build's output lines and its timeout are
 * events delivered in order to the callbacks; a user interrupt may follow
 * them.  The step functions model each callback as written and, where the
 * source is evidently mistaken, as corrected; the class runs the program
 * as written.
 */
module Build {
  import opened Wrappers
  import opened Strings
  import opened Exceptions
  import opened BuildEnv
  import opened Evaluator
  import opened Interactive

  /** `self.build_log`: never assigned, or a file object on `path`, open or closed. */
  datatype Handle = Unassigned | LogFile(path: string, closed: bool)

  /** What the build process reports: an output line, or that it ran past its timeout. */
  datatype Event = Line(text: string) | TimedOut

  /** The evaluator's fields and the filesystem. */
  datatype BuildState = BuildState(number: nat, logOpen: bool, log: Handle, files: map<string, string>, dirs: set<string>)

  /** The state after a step, and the exception the step raised, if any. */
  datatype After = After(state: BuildState, raised: Option<Exc>)

  /** A new evaluator on the given filesystem. */
  function Fresh(files: map<string, string>, dirs: set<string>): BuildState
  {
    BuildState(0, false, Unassigned, files, dirs)
  }

  /** `os.path.join(logdir, 'build_%d.log' % n)`. */
  function LogPath(logdir: string, n: nat): string
  {
    JoinPath(logdir, "build_" + Decimal(n) + ".log")
  }

  function Contents(files: map<string, string>, path: string): string
  {
    if path in files then files[path] else ""
  }

  /** `self.build_log.write(text)`: appends to an open log; a closed one raises `ValueError`. */
  function Write(st: BuildState, text: string): (a: After)
    ensures a.state.number == st.number && a.state.logOpen == st.logOpen && a.state.log == st.log
    ensures a.state.dirs == st.dirs
    ensures a.raised.None? <==> st.log.LogFile? && !st.log.closed
    ensures a.raised.None? ==> a.state.files == st.files[st.log.path := Contents(st.files, st.log.path) + text]
    ensures a.raised.Some? ==> a.state == st
  {
    match st.log
    case Unassigned => After(st, Some(AttributeError("build_log")))
    case LogFile(path, closed) =>
      if closed then After(st, Some(ValueError))
      else After(st.(files := st.files[path := Contents(st.files, path) + text]), None)
  }

  /** Opening the log of build `n`: `logdir` is created when missing and the file is truncated. */
  function OpenLog(logdir: string, st: BuildState): (s: BuildState)
  {
    var path := LogPath(logdir, st.number);
    st.(dirs := st.dirs + {logdir}, files := st.files[path := ""], log := LogFile(path, false), logOpen := true)
  }

  /**
   * `notify_status(line)`: the first line opens the log in `logdir`, which
   * must be a path (a missing key raises `KeyError`, `None` makes
   * `os.path.exists` raise `TypeError`); every line is appended with a newline.
   */
  function AfterStatus(logdir: PathSetting, st: BuildState, line: string): (a: After)
    ensures a.state.number == st.number
    ensures !st.logOpen && logdir.Missing? ==> a == After(st, Some(KeyError("logdir")))
    ensures !st.logOpen && logdir.NoPath? ==> a == After(st, Some(TypeError))
    ensures !st.logOpen && logdir.Dir? ==>
      var path := LogPath(logdir.path, st.number);
      a.raised.None? && a.state.logOpen && a.state.log == LogFile(path, false) &&
      a.state.dirs == st.dirs + {logdir.path} && a.state.files == st.files[path := line + "\n"]
    ensures st.logOpen ==> (a.raised.None? <==> st.log.LogFile? && !st.log.closed)
    ensures st.logOpen && a.raised.None? ==>
      a.state == st.(files := st.files[st.log.path := Contents(st.files, st.log.path) + (line + "\n")])
  {
    if st.logOpen then Write(st, line + "\n")
    else match logdir
      case Missing => After(st, Some(KeyError("logdir")))
      case NoPath => After(st, Some(TypeError))
      case Dir(d) =>
        var openLog := OpenLog(d, st);
        assert Contents(openLog.files, openLog.log.path) + (line + "\n") == line + "\n";
        Write(openLog, line + "\n")
  }

  /**
   * `notify_timeout()`: the marker goes to the log only when it is open.
   * As written, the method then uses a `self.log` that does not exist.
   */
  function AfterTimeout(v: Variant, st: BuildState): (a: After)
    ensures a.state.number == st.number
    ensures !st.logOpen ==> a.state == st && a.raised == (if v == AsWritten then Some(AttributeError("log")) else None)
    ensures st.logOpen && st.log.LogFile? && !st.log.closed ==>
      a.state == st.(files := st.files[st.log.path := Contents(st.files, st.log.path) + "BUILD TIMED OUT\n"]) &&
      a.raised == (if v == AsWritten then Some(AttributeError("log")) else None)
    ensures st.logOpen && st.log.LogFile? && st.log.closed ==> a == After(st, Some(ValueError))
    ensures st.logOpen && st.log.Unassigned? ==> a == After(st, Some(AttributeError("build_log")))
  {
    var w := if st.logOpen then Write(st, "BUILD TIMED OUT\n") else After(st, None);
    if w.raised.None? && v == AsWritten then After(w.state, Some(AttributeError("log"))) else w
  }

  function AfterEvent(v: Variant, logdir: PathSetting, st: BuildState, e: Event): (a: After)
    ensures a.state.number == st.number
  {
    match e
    case Line(text) => AfterStatus(logdir, st, text)
    case TimedOut => AfterTimeout(v, st)
  }

  /**
   * The callbacks run on the events in order; the first exception ends the
   * build.  They never remove a file or a directory and never reset
   * `log_open`, and they raise only what a missing or `None` log directory,
   * an unusable log or, as written, the timeout callback raises.
   */
  function AfterEvents(v: Variant, logdir: PathSetting, st: BuildState, events: seq<Event>): (a: After)
    decreases |events|
    ensures a.state.number == st.number
    ensures st.files.Keys <= a.state.files.Keys && st.dirs <= a.state.dirs
    ensures st.logOpen ==> a.state.logOpen
    ensures a.raised.Some? ==>
      a.raised.value in {KeyError("logdir"), TypeError, AttributeError("build_log"), ValueError, AttributeError("log")}
    ensures v == Corrected && a.raised.Some? ==> a.raised.value != AttributeError("log")
    ensures events == [] ==> a == After(st, None)
  {
    if events == [] then After(st, None)
    else
      var a := AfterEvent(v, logdir, st, events[0]);
      if a.raised.Some? then a else AfterEvents(v, logdir, a.state, events[1..])
  }

  /**
   * The `finally` clause, `self.build_log.close()`.  As written it raises
   * `AttributeError` when no line ever opened a log, and it leaves
   * `log_open` set; corrected, it closes a log that exists and resets the flag.
   */
  function AfterClose(v: Variant, st: BuildState): (a: After)
    ensures a.state.number == st.number && a.state.files == st.files && a.state.dirs == st.dirs
    ensures a.state.log.Unassigned? || a.state.log.closed
    ensures a.raised.Some? <==> v == AsWritten && st.log.Unassigned?
    ensures v == AsWritten ==> a.state.logOpen == st.logOpen
    ensures v == Corrected ==> !a.state.logOpen || st.log.Unassigned?
  {
    match st.log
    case Unassigned => if v == AsWritten then After(st, Some(AttributeError("build_log"))) else After(st, None)
    case LogFile(path, _) =>
      if v == AsWritten then After(st.(log := LogFile(path, true)), None)
      else After(st.(log := LogFile(path, true), logOpen := false), None)
  }

  /**
   * Whether `perform_build` gets as far as the `try`: constructing the
   * process handler reads the `workdir` and `env` keys, either of which may
   * hold `None` (`cwd=None` runs the build in the current directory).
   */
  predicate Starts(info: BuildInfo)
  {
    !info.workdir.Missing? && info.env.Some?
  }

  /**
   * `perform_build`: the counter goes up, the build runs with its callbacks,
   * an interrupt may follow, and the log is closed whatever happened; an
   * exception of the `finally` clause replaces the pending one.
   */
  function AfterBuild(v: Variant, info: BuildInfo, st: BuildState, events: seq<Event>, interrupted: bool): (a: After)
    ensures a.state.number == st.number + 1
    ensures info.workdir.Missing? ==> a == After(st.(number := st.number + 1), Some(KeyError("workdir")))
    ensures !info.workdir.Missing? && info.env.None? ==> a == After(st.(number := st.number + 1), Some(KeyError("env")))
    ensures Starts(info) ==> a.state.log.Unassigned? || a.state.log.closed
    ensures Starts(info) && a.raised.None? ==> !interrupted
  {
    var started := st.(number := st.number + 1);
    if info.workdir.Missing? then After(started, Some(KeyError("workdir")))
    else if info.env.None? then After(started, Some(KeyError("env")))
    else
      var run := AfterEvents(v, info.logdir, started, events);
      var pending := if run.raised.Some? then run.raised else if interrupted then Some(KeyboardInterrupt) else None;
      var closed := AfterClose(v, run.state);
      After(closed.state, if closed.raised.Some? then closed.raised else pending)
  }

  /** `eval`: the build, then the interactive session; as written the verdict is dropped and `None` returned. */
  function EvalOutcome(v: Variant, buildRaised: Option<Exc>, session: Outcome<bool>): (r: Outcome<Option<bool>>)
    ensures v == AsWritten && r.Normal? ==> r.value == None
    ensures v == Corrected && r.Normal? ==> r.value.Some? && session == Normal(r.value.value)
    ensures r.Normal? <==> buildRaised.None? && session.Normal?
  {
    if buildRaised.Some? then Raised(buildRaised.value)
    else match session
      case Raised(e) => Raised(e)
      case Normal(good) => Normal(if v == AsWritten then None else Some(good))
  }

  /** What one event writes to an open log. */
  function EventText(e: Event): string
  {
    match e
    case Line(text) => text + "\n"
    case TimedOut => "BUILD TIMED OUT\n"
  }

  /** What a sequence of events writes to an open log. */
  function LogText(events: seq<Event>): string
  {
    if events == [] then "" else EventText(events[0]) + LogText(events[1..])
  }

  predicate OnlyLines(events: seq<Event>)
  {
    forall i :: 0 <= i < |events| ==> events[i].Line?
  }

  /**
   * With the log open, every event is appended to it in order and nothing
   * else changes; as written this holds only while no timeout is reported.
   */
  lemma {:induction false} EventsAppend(v: Variant, logdir: PathSetting, st: BuildState, events: seq<Event>)
    requires st.logOpen && st.log.LogFile? && !st.log.closed && st.log.path in st.files
    requires v == Corrected || OnlyLines(events)
    decreases |events|
    ensures AfterEvents(v, logdir, st, events) ==
      After(st.(files := st.files[st.log.path := Contents(st.files, st.log.path) + LogText(events)]), None)
  {
    if events == [] {
      var p := st.log.path;
      assert Contents(st.files, p) + "" == Contents(st.files, p);
      assert st.files[p := Contents(st.files, p)] == st.files;
    } else {
      var a := AfterEvent(v, logdir, st, events[0]);
      EventAppends(v, logdir, st, events[0]);
      TailOnlyLines(v, events);
      EventsAppend(v, logdir, a.state, events[1..]);
      AppendTwice(st, EventText(events[0]), LogText(events[1..]));
    }
  }

  /** Appending to the open log twice is appending the two texts at once. */
  lemma AppendTwice(st: BuildState, text: string, more: string)
    requires st.log.LogFile?
    ensures var p := st.log.path;
      var once := st.(files := st.files[p := Contents(st.files, p) + text]);
      once.(files := once.files[p := Contents(once.files, p) + more]) ==
      st.(files := st.files[p := Contents(st.files, p) + (text + more)])
  {
    var p := st.log.path;
    assert Contents(st.files, p) + text + more == Contents(st.files, p) + (text + more);
  }

  /** One event delivered with the log open is appended to it. */
  lemma EventAppends(v: Variant, logdir: PathSetting, st: BuildState, e: Event)
    requires st.logOpen && st.log.LogFile? && !st.log.closed
    requires v == Corrected || e.Line?
    ensures AfterEvent(v, logdir, st, e) ==
      After(st.(files := st.files[st.log.path := Contents(st.files, st.log.path) + EventText(e)]), None)
  {
  }

  /**
   * A build that starts with its log closed and whose first event is an
   * output line writes all its events to `logdir/build_<n>.log`, `n` being
   * the new build number, and closes that log; it raises only the user's
   * interrupt.  As written this needs a build without timeouts.
   */
  lemma BuildLogsEvents(v: Variant, info: BuildInfo, st: BuildState, events: seq<Event>, interrupted: bool)
    requires Starts(info) && info.logdir.Dir?
    requires !st.logOpen
    requires |events| > 0 && events[0].Line?
    requires v == Corrected || OnlyLines(events)
    ensures var path := LogPath(info.logdir.path, st.number + 1);
      var a := AfterBuild(v, info, st, events, interrupted);
      a.state.files == st.files[path := LogText(events)] &&
      a.state.dirs == st.dirs + {info.logdir.path} &&
      a.state.log == LogFile(path, true) &&
      a.state.logOpen == (v == AsWritten) &&
      a.raised == (if interrupted then Some(KeyboardInterrupt) else None)
  {
    var started := st.(number := st.number + 1);
    var path := LogPath(info.logdir.path, st.number + 1);
    RunLogsEvents(v, info.logdir, started, events);
    BuildAfterRun(v, info, st, events, interrupted, AfterEvents(v, info.logdir, started, events).state);
  }

  /** A build whose events raised nothing, ending with a log assigned, closes that log and raises only the interrupt. */
  lemma BuildAfterRun(v: Variant, info: BuildInfo, st: BuildState, events: seq<Event>, interrupted: bool, ran: BuildState)
    requires Starts(info)
    requires AfterEvents(v, info.logdir, st.(number := st.number + 1), events) == After(ran, None)
    requires ran.log.LogFile?
    ensures var a := AfterBuild(v, info, st, events, interrupted);
      a.state.files == ran.files && a.state.dirs == ran.dirs && a.state.log == LogFile(ran.log.path, true) &&
      a.state.logOpen == (v == AsWritten && ran.logOpen) &&
      a.raised == (if interrupted then Some(KeyboardInterrupt) else None)
  {
  }

  /** Delivering the events of such a build, from the state after the counter went up. */
  lemma RunLogsEvents(v: Variant, logdir: PathSetting, st: BuildState, events: seq<Event>)
    requires logdir.Dir? && !st.logOpen
    requires |events| > 0 && events[0].Line?
    requires v == Corrected || OnlyLines(events)
    ensures var path := LogPath(logdir.path, st.number);
      AfterEvents(v, logdir, st, events) ==
      After(st.(files := st.files[path := LogText(events)], dirs := st.dirs + {logdir.path},
                log := LogFile(path, false), logOpen := true), None)
  {
    var path := LogPath(logdir.path, st.number);
    var first := events[0].text + "\n";
    var a := AfterEvent(v, logdir, st, events[0]);
    var openLog := OpenLog(logdir.path, st);
    assert a == After(openLog.(files := st.files[path := first]), None) by {
      assert a == Write(openLog, first);
      assert Contents(openLog.files, path) == "";
      assert "" + first == first;
      assert openLog.files[path := first] == st.files[path := first];
    }
    TailOnlyLines(v, events);
    EventsAppend(v, logdir, a.state, events[1..]);
    assert first + LogText(events[1..]) == LogText(events);
    assert st.files[path := first][path := LogText(events)] == st.files[path := LogText(events)];
  }

  lemma TailOnlyLines(v: Variant, events: seq<Event>)
    requires |events| > 0
    requires v == Corrected || OnlyLines(events)
    ensures v == Corrected || OnlyLines(events[1..])
  {
    if v == AsWritten {
      assert forall i :: 0 <= i < |events[1..]| ==> events[1..][i] == events[i + 1];
    }
  }

  /**
   * The log is closed after every build that reaches the `try`; as written,
   * a build whose log was never opened ends in `AttributeError` instead.
   */
  lemma BuildClosesLog(v: Variant, info: BuildInfo, st: BuildState, events: seq<Event>, interrupted: bool)
    requires Starts(info)
    ensures var a := AfterBuild(v, info, st, events, interrupted);
      (a.state.log.Unassigned? || a.state.log.closed) &&
      (v == AsWritten && a.state.log.Unassigned? ==> a.raised == Some(AttributeError("build_log")))
  {
    var run := AfterEvents(v, info.logdir, st.(number := st.number + 1), events);
    assert AfterClose(v, run.state).state.log == run.state.log || run.state.log.LogFile?;
  }

  /** Corrected, a build that reaches the `try` always ends with `log_open` reset. */
  lemma CorrectedBuildResetsLog(info: BuildInfo, st: BuildState, events: seq<Event>, interrupted: bool)
    requires Starts(info)
    requires !st.logOpen
    ensures !AfterBuild(Corrected, info, st, events, interrupted).state.logOpen
  {
    var run := AfterEvents(Corrected, info.logdir, st.(number := st.number + 1), events);
    RunOpensLog(Corrected, info.logdir, st.(number := st.number + 1), events);
  }

  /** Delivering events leaves the log open only with a file assigned to it. */
  lemma {:induction false} RunOpensLog(v: Variant, logdir: PathSetting, st: BuildState, events: seq<Event>)
    requires st.logOpen ==> st.log.LogFile?
    ensures var a := AfterEvents(v, logdir, st, events);
      a.state.logOpen ==> a.state.log.LogFile?
    decreases |events|
  {
    if events != [] {
      var a := AfterEvent(v, logdir, st, events[0]);
      if a.raised.None? {
        RunOpensLog(v, logdir, a.state, events[1..]);
      }
    }
  }

  /** The build evaluator as written: its fields change as the callbacks run. */
  class BuildEvaluator {
    const shell: InteractiveEvaluator
    const info: BuildInfo
    var buildNumber: nat
    var logOpen: bool
    var buildLog: Handle

    function State(): BuildState
      reads this, shell.fs
    {
      BuildState(buildNumber, logOpen, buildLog, shell.fs.files, shell.fs.dirs)
    }

    constructor (shell: InteractiveEvaluator, info: BuildInfo)
      ensures this.shell == shell && this.info == info
      ensures buildNumber == 0 && !logOpen && buildLog == Unassigned
    {
      this.shell := shell;
      this.info := info;
      buildNumber := 0;
      logOpen := false;
      buildLog := Unassigned;
    }

    method WriteLog(text: string) returns (raised: Option<Exc>)
      modifies shell.fs
      ensures After(State(), raised) == Write(old(State()), text)
    {
      if buildLog.Unassigned? {
        return Some(AttributeError("build_log"));
      }
      if buildLog.closed {
        return Some(ValueError);
      }
      var path := buildLog.path;
      shell.fs.files := shell.fs.files[path := Contents(shell.fs.files, path) + text];
      return None;
    }

    /** `notify_status(line)`. */
    method NotifyStatus(line: string) returns (raised: Option<Exc>)
      modifies this, shell.fs
      ensures After(State(), raised) == AfterStatus(info.logdir, old(State()), line)
    {
      if !logOpen {
        if info.logdir.Missing? {
          return Some(KeyError("logdir"));
        }
        if info.logdir.NoPath? {
          return Some(TypeError);
        }
        var logdir := info.logdir.path;
        if logdir !in shell.fs.dirs {
          shell.fs.dirs := shell.fs.dirs + {logdir};
        }
        var logfile := LogPath(logdir, buildNumber);
        shell.fs.files := shell.fs.files[logfile := ""];
        buildLog := LogFile(logfile, false);
        logOpen := true;
      }
      raised := WriteLog(line + "\n");
    }

    /** `notify_timeout()`. */
    method NotifyTimeout() returns (raised: Option<Exc>)
      modifies shell.fs
      ensures After(State(), raised) == AfterTimeout(AsWritten, old(State()))
    {
      if logOpen {
        raised := WriteLog("BUILD TIMED OUT\n");
        if raised.Some? {
          return;
        }
      }
      return Some(AttributeError("log"));
    }

    /** The build process delivering `events` to the callbacks, in order, until one raises. */
    method RunCallbacks(events: seq<Event>) returns (raised: Option<Exc>)
      modifies this, shell.fs
      ensures After(State(), raised) == AfterEvents(AsWritten, info.logdir, old(State()), events)
    {
      ghost var started := State();
      var i := 0;
      raised := None;
      while i < |events| && raised.None?
        invariant 0 <= i <= |events|
        decreases |events| - i
        invariant raised.None? ==>
          AfterEvents(AsWritten, info.logdir, started, events) == AfterEvents(AsWritten, info.logdir, State(), events[i..])
        invariant raised.Some? ==>
          AfterEvents(AsWritten, info.logdir, started, events) == After(State(), raised)
      {
        ghost var before := State();
        assert events[i..][0] == events[i] && events[i..][1..] == events[i + 1..];
        match events[i] {
          case Line(text) =>
            raised := NotifyStatus(text);
          case TimedOut =>
            raised := NotifyTimeout();
        }
        assert After(State(), raised) == AfterEvent(AsWritten, info.logdir, before, events[i]);
        i := i + 1;
      }
    }

    /** `perform_build`: `events` are what the build reports before it exits, `interrupted` a Ctrl-C after them. */
    method PerformBuild(events: seq<Event>, interrupted: bool) returns (raised: Option<Exc>)
      modifies this, shell.fs
      ensures After(State(), raised) == AfterBuild(AsWritten, info, old(State()), events, interrupted)
    {
      buildNumber := buildNumber + 1;
      if info.workdir.Missing? {
        return Some(KeyError("workdir"));
      }
      if info.env.None? {
        return Some(KeyError("env"));
      }
      raised := RunCallbacks(events);
      var pending := if raised.Some? then raised else if interrupted then Some(KeyboardInterrupt) else None;
      if buildLog.Unassigned? {
        return Some(AttributeError("build_log"));
      }
      buildLog := LogFile(buildLog.path, true);
      return pending;
    }

    /**
     * `eval`: the build, then the interactive session of the inherited
     * `eval`, whose verdict is not returned.  The fields and the directories
     * are those the build left; the files too, except that a session that
     * could not start or was interrupted leaves its rc file behind.
     */
    method Eval(events: seq<Event>, interrupted: bool, environ: map<string, string>, code: int, sessionInterrupted: bool)
      returns (outcome: Outcome<Option<bool>>)
      modifies this, shell.fs
      ensures var b := AfterBuild(AsWritten, info, old(State()), events, interrupted);
        outcome == EvalOutcome(AsWritten, b.raised, ShellOutcome(environ, code, sessionInterrupted)) &&
        buildNumber == b.state.number && logOpen == b.state.logOpen && buildLog == b.state.log &&
        shell.fs.dirs == b.state.dirs &&
        (b.raised.Some? || ("SHELL" in environ && !sessionInterrupted) ==> shell.fs.files == b.state.files) &&
        (b.raised.None? && ("SHELL" !in environ || sessionInterrupted) ==> RcFileLeft(b.state.files, shell.fs.files))
      ensures buildNumber == old(buildNumber) + 1
    {
      var raised := PerformBuild(events, interrupted);
      if raised.Some? {
        return Raised(raised.value);
      }
      var session, launched, rc := shell.Eval(environ, code, sessionInterrupted);
      if session.Raised? {
        return Raised(session.exc);
      }
      return Normal(None);
    }
  }

  /** `after` is `before` with one more file, new in `before`, holding the rc text. */
  ghost predicate RcFileLeft(before: map<string, string>, after: map<string, string>)
  {
    exists rc :: rc !in before && after == before[rc := RcText()]
  }

  /**
   * The settings the driver passes without `--build-workdir`,
   * `--build-logdir` and `--build-env`: the constructor keeps them and the
   * build starts in the current directory, but its first output line makes
   * `os.path.exists(None)` raise `TypeError`, which the `finally` clause
   * replaces with `AttributeError` when no earlier build assigned a log.
   */
  lemma DriverDefaultBuild(cwd: string, environ: map<string, string>, st: BuildState, text: string, rest: seq<Event>, interrupted: bool)
    requires !st.logOpen
    ensures var info := DriverInfo(None, None, None);
      PreparedInfo(AsWritten, Some(info), cwd, environ) == Ok(info) && Starts(info) &&
      var a := AfterBuild(AsWritten, info, st, [Line(text)] + rest, interrupted);
      a.raised == (if st.log.Unassigned? then Some(AttributeError("build_log")) else Some(TypeError)) &&
      a.state.files == st.files && a.state.dirs == st.dirs
  {
    var info := DriverInfo(None, None, None);
    var started := st.(number := st.number + 1);
    assert AfterEvents(AsWritten, info.logdir, started, [Line(text)] + rest) == After(started, Some(TypeError));
  }

  /** `InteractiveBuildEvaluator(build_info)`: the settings are prepared, or the constructor raises. */
  method NewBuildEvaluator(shell: InteractiveEvaluator, buildInfo: Option<BuildInfo>) returns (r: Result<BuildEvaluator, Exc>)
    ensures r.Err? <==> PreparedInfo(AsWritten, buildInfo, "", map[]).Err?
    ensures r.Err? ==> r.error == PreparedInfo(AsWritten, buildInfo, "", map[]).error
    ensures r.Ok? ==> fresh(r.value) && r.value.shell == shell && r.value.info == PreparedInfo(AsWritten, buildInfo, "", map[]).value
    ensures r.Ok? ==> r.value.buildNumber == 0 && !r.value.logOpen && r.value.buildLog == Unassigned
  {
    if buildInfo.None? || Empty(buildInfo.value) {
      return Err(AttributeError("build_info"));
    }
    var info := buildInfo.value;
    if info.env.None? {
      return Err(KeyError("env"));
    }
    var e := info.env.value;
    if Truthy(e) {
      if e.EnvDict? {
        return Err(AttributeError("split"));
      }
      var parsed := ParseBuildEnv(e.text);
      if parsed.Err? {
        return Err(parsed.error);
      }
      info := info.(env := Some(EnvDict(parsed.value)));
    }
    var evaluator := new BuildEvaluator(shell, info);
    return Ok(evaluator);
  }
}
