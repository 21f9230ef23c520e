/**
 * Inputs on which the repository-specifier codec and the build evaluator,
 * as written, do not do what they evidently mean to do, each next to the
 * corrected behaviour.
 */
module Findings {
  import opened Wrappers
  import opened Strings
  import opened Exceptions
  import Url
  import Driver
  import opened BuildEnv
  import opened Evaluator
  import opened Interactive
  import opened Build

  /** The build reported no output line, only timeouts or nothing at all. */
  predicate NoLines(events: seq<Event>)
  {
    forall i :: 0 <= i < |events| ==> events[i].TimedOut?
  }

  /**
   * As written, a build that never prints a line ends in `AttributeError`
   * from the `finally` clause, whatever else happened: the user's interrupt
   * is lost, and nothing is logged.
   */
  lemma SilentBuildFails(info: BuildInfo, st: BuildState, events: seq<Event>, interrupted: bool)
    requires Starts(info)
    requires !st.logOpen && st.log.Unassigned?
    requires NoLines(events)
    ensures var a := AfterBuild(AsWritten, info, st, events, interrupted);
      a.raised == Some(AttributeError("build_log")) && a.state == st.(number := st.number + 1)
  {
    var started := st.(number := st.number + 1);
    if events != [] {
      assert events[0].TimedOut?;
      assert AfterEvents(AsWritten, info.logdir, started, events) == After(started, Some(AttributeError("log")));
    }
  }

  /** Corrected, such a build changes nothing but the counter and raises only the interrupt. */
  lemma CorrectedSilentBuild(info: BuildInfo, st: BuildState, events: seq<Event>, interrupted: bool)
    requires Starts(info)
    requires !st.logOpen && st.log.Unassigned?
    requires NoLines(events)
    ensures var a := AfterBuild(Corrected, info, st, events, interrupted);
      a.raised == (if interrupted then Some(KeyboardInterrupt) else None) && a.state == st.(number := st.number + 1)
  {
    SilentEventsChangeNothing(info.logdir, st.(number := st.number + 1), events);
  }

  lemma {:induction false} SilentEventsChangeNothing(logdir: PathSetting, st: BuildState, events: seq<Event>)
    requires !st.logOpen
    requires NoLines(events)
    ensures AfterEvents(Corrected, logdir, st, events) == After(st, None)
    decreases |events|
  {
    if events != [] {
      assert events[0].TimedOut?;
      assert AfterEvent(Corrected, logdir, st, events[0]) == After(st, None);
      assert NoLines(events[1..]) by {
        assert forall i :: 0 <= i < |events[1..]| ==> events[1..][i] == events[i + 1];
      }
      SilentEventsChangeNothing(logdir, st, events[1..]);
    }
  }

  /**
   * As written, `log_open` stays set after a build, so the first line of
   * any later build is written to the closed log of the earlier one:
   * `ValueError`, and nothing is written.
   */
  lemma LaterBuildFails(info: BuildInfo, st: BuildState, text: string, rest: seq<Event>, interrupted: bool)
    requires Starts(info)
    requires st.logOpen && st.log.LogFile? && st.log.closed
    ensures AfterBuild(AsWritten, info, st, [Line(text)] + rest, interrupted) ==
      After(st.(number := st.number + 1), Some(ValueError))
  {
    var started := st.(number := st.number + 1);
    assert ([Line(text)] + rest)[0] == Line(text);
    assert AfterEvents(AsWritten, info.logdir, started, [Line(text)] + rest) == After(started, Some(ValueError));
  }

  /** As written, the second build of a new evaluator writes no `build_2.log` and raises `ValueError`. */
  lemma SecondBuildFails(info: BuildInfo, files: map<string, string>, dirs: set<string>, first: string, second: string)
    requires Starts(info) && info.logdir.Dir?
    ensures var one := AfterBuild(AsWritten, info, Fresh(files, dirs), [Line(first)], false);
      var two := AfterBuild(AsWritten, info, one.state, [Line(second)], false);
      one.raised == None &&
      one.state.files == files[LogPath(info.logdir.path, 1) := first + "\n"] &&
      two.raised == Some(ValueError) && two.state.files == one.state.files
  {
    var one := AfterBuild(AsWritten, info, Fresh(files, dirs), [Line(first)], false);
    BuildLogsEvents(AsWritten, info, Fresh(files, dirs), [Line(first)], false);
    assert LogText([Line(first)]) == first + "\n";
    assert [Line(second)] == [Line(second)] + [];
    LaterBuildFails(info, one.state, second, [], false);
  }

  /** Corrected, the second build logs its output to `build_2.log`. */
  lemma CorrectedSecondBuild(info: BuildInfo, files: map<string, string>, dirs: set<string>, first: string, second: string)
    requires Starts(info) && info.logdir.Dir?
    ensures var one := AfterBuild(Corrected, info, Fresh(files, dirs), [Line(first)], false);
      var two := AfterBuild(Corrected, info, one.state, [Line(second)], false);
      one.raised == None && two.raised == None &&
      two.state.files == files[LogPath(info.logdir.path, 1) := first + "\n"][LogPath(info.logdir.path, 2) := second + "\n"]
  {
    var one := AfterBuild(Corrected, info, Fresh(files, dirs), [Line(first)], false);
    BuildLogsEvents(Corrected, info, Fresh(files, dirs), [Line(first)], false);
    BuildLogsEvents(Corrected, info, one.state, [Line(second)], false);
    assert LogText([Line(first)]) == first + "\n";
    assert LogText([Line(second)]) == second + "\n";
  }

  /** As written, a timeout reported after a line is logged and then raises `AttributeError`. */
  lemma TimeoutRaises(info: BuildInfo, files: map<string, string>, dirs: set<string>, first: string)
    requires Starts(info) && info.logdir.Dir?
    ensures var a := AfterBuild(AsWritten, info, Fresh(files, dirs), [Line(first), TimedOut], false);
      a.raised == Some(AttributeError("log")) &&
      a.state.files == files[LogPath(info.logdir.path, 1) := first + "\n" + "BUILD TIMED OUT\n"]
  {
    var st := Fresh(files, dirs).(number := 1);
    var path := LogPath(info.logdir.path, 1);
    var events := [Line(first), TimedOut];
    var one := AfterEvent(AsWritten, info.logdir, st, events[0]);
    var openLog := OpenLog(info.logdir.path, st);
    assert one == Write(openLog, first + "\n");
    assert Contents(openLog.files, path) == "" && "" + (first + "\n") == first + "\n";
    assert one.raised == None && one.state.log == LogFile(path, false) && one.state.logOpen;
    assert one.state.files == files[path := ""][path := first + "\n"];
    assert Contents(one.state.files, path) == first + "\n";
    var two := AfterEvent(AsWritten, info.logdir, one.state, events[1]);
    assert two.raised == Some(AttributeError("log"));
    assert two.state.files == files[path := first + "\n" + "BUILD TIMED OUT\n"];
    assert events[1..][1..] == [];
    assert AfterEvents(AsWritten, info.logdir, st, events) == two;
  }

  /** Corrected, the same build logs the marker and raises nothing. */
  lemma CorrectedTimeout(info: BuildInfo, files: map<string, string>, dirs: set<string>, first: string)
    requires Starts(info) && info.logdir.Dir?
    ensures var a := AfterBuild(Corrected, info, Fresh(files, dirs), [Line(first), TimedOut], false);
      a.raised == None &&
      a.state.files == files[LogPath(info.logdir.path, 1) := first + "\n" + "BUILD TIMED OUT\n"]
  {
    var events := [Line(first), TimedOut];
    BuildLogsEvents(Corrected, info, Fresh(files, dirs), events, false);
    assert events[1..] == [TimedOut] && events[1..][1..] == [];
    assert LogText(events[1..]) == "BUILD TIMED OUT\n" + LogText([]);
    assert LogText(events) == EventText(Line(first)) + LogText(events[1..]);
    assert LogText(events) == first + "\n" + "BUILD TIMED OUT\n";
  }

  /** As written, `eval` returns nothing after a session either way: the user's verdict is lost. */
  lemma VerdictDropped(environ: map<string, string>)
    requires "SHELL" in environ
    ensures EvalOutcome(AsWritten, None, ShellOutcome(environ, GOOD, false)) == Normal(None)
    ensures EvalOutcome(AsWritten, None, ShellOutcome(environ, BAD, false)) == Normal(None)
  {
    SessionOutcomeCases(GOOD);
    SessionOutcomeCases(BAD);
  }

  /** Corrected, `eval` returns the verdict of the session. */
  lemma CorrectedVerdict(environ: map<string, string>)
    requires "SHELL" in environ
    ensures EvalOutcome(Corrected, None, ShellOutcome(environ, GOOD, false)) == Normal(Some(true))
    ensures EvalOutcome(Corrected, None, ShellOutcome(environ, BAD, false)) == Normal(Some(false))
  {
    SessionOutcomeCases(GOOD);
    SessionOutcomeCases(BAD);
  }

  /** As written, an evaluator made without build settings fails in its constructor. */
  lemma InitWithoutInfo(cwd: string, environ: map<string, string>)
    ensures PreparedInfo(AsWritten, None, cwd, environ) == Err(AttributeError("build_info"))
    ensures PreparedInfo(AsWritten, Some(BuildInfo(Missing, None, Missing)), cwd, environ) == Err(AttributeError("build_info"))
  {
  }

  /** Corrected, it builds in the current directory with the process environment. */
  lemma CorrectedInitWithoutInfo(cwd: string, environ: map<string, string>)
    ensures PreparedInfo(Corrected, None, cwd, environ) == Ok(BuildInfo(Dir(cwd), Some(EnvDict(environ)), Dir(cwd)))
  {
  }

  /** A filesystem in which only the path `r#1` exists. */
  predicate OnlyFragmentPath(p: string)
  {
    p == "r#1"
  }

  /**
   * `make_arg` checks the name with `uri_to_name`, which reads `#1` as a
   * URL fragment, while `parse_arg` names the repository with
   * `local_path_to_name`: the record parsed from `GITr#1@a..b` (with `r#1`
   * an existing path) is refused by `make_arg`.
   */
  lemma ParsedRecordRejected(cwd: string)
    ensures var d := FragmentRecord();
      Driver.Parse("GITr#1@a..b", OnlyFragmentPath, cwd) == Ok(d) &&
      Driver.MakeArg(d) == Err(Driver.NameMismatch)
  {
    FragmentPathParsed(cwd);
    FragmentDropped();
  }

  /** The record of the existing path `r#1` with revisions `a..b`. */
  function FragmentRecord(): Driver.ArgData
  {
    Driver.ArgData("git", "r#1", "r#1", "r#1", "a", "b")
  }

  /** `GITr#1@a..b` is parsed into the record of the existing path `r#1`. */
  lemma FragmentPathParsed(cwd: string)
    ensures Driver.Parse("GITr#1@a..b", OnlyFragmentPath, cwd) == Ok(FragmentRecord())
  {
    FragmentRecordFields();
    FragmentAssembled();
    Driver.ParseAssembled(FragmentRecord(), OnlyFragmentPath, cwd);
  }

  /** The fields of that record hold no separator `parse_arg` could confuse, and its name is that of its path. */
  lemma FragmentRecordFields()
    ensures Driver.LocalPathToName("r#1") == "r#1"
    ensures !Contains("r#1", "->") && '@' !in "r#1"
    ensures !Contains("a", "..") && !EndsWith("a", ".")
  {
    FragmentPathName();
    FirstCharAbsent("r#1", "->");
    FirstCharAbsent("a", "..");
  }

  /** `r#1` holds no `/` and does not end in `.git`, so it is its own name. */
  lemma FragmentPathName()
    ensures Driver.LocalPathToName("r#1") == "r#1"
  {
    AfterLastOfJoin("", "r#1", '/');
  }

  /** `make_arg` would write that record as `GITr#1@a..b`. */
  lemma FragmentAssembled()
    ensures Driver.Assembled(FragmentRecord()) == "GITr#1@a..b"
  {
  }

  /** `uri_to_name("r#1")` is `r`: the text after `#` is a fragment. */
  lemma FragmentDropped()
    ensures Driver.UriToName("r#1") == "r"
  {
    ContainsChar("r#1", ':');
    ContainsChar("r", '#');
    ContainsChar("r", '?');
    NoEarlyOccurrence("r", "#", "1");
    PartitionFirst("r", "#", "1");
    assert "r" + "#" + "1" == "r#1";
    assert Url.Split("r#1").netloc == "" && Url.Split("r#1").path == "r";
    Driver.NameWithoutNetloc("r");
    Driver.LocalPathToNameOfJoin("", "r");
  }

  /** Corrected, `make_arg` writes that record back as the argument it was parsed from. */
  lemma CorrectedParsedRecord(cwd: string)
    ensures var d := FragmentRecord();
      Driver.CorrectedMakeArg(d) == Ok("GITr#1@a..b") &&
      Driver.Parse("GITr#1@a..b", OnlyFragmentPath, cwd) == Ok(d)
  {
    FragmentRecordFields();
    FragmentAssembled();
    FragmentPathParsed(cwd);
  }
}
