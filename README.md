# bisect_b2g: the repository-specifier codec and the evaluators

bisect_b2g bisects a combined history of several git and hg repositories. This
project models two of its parts in Dafny and proves properties of the models.

**The repository-specifier codec** (`bisect_b2g/driver.py`). A command-line
argument `[GIT|HG][URI->]LOCAL_PATH@GOOD..BAD` is parsed into a record
`{vcs, uri, name, local_path, good, bad}` (`parse_arg`). The record is written
back as an argument by `make_arg`. Repository names come from `local_path_to_name`
and `uri_to_name`. Module `Driver` has pure specification functions (`Parse`,
`MakeArg`). Beside each is the imperative version as the program runs it:
`ParseArg` with the host-guessing loops of `GuessVcs`, and `WriteArg`, which
builds the argument by successive appends. Each method is proved equal to its
function. Python's string operations are in module `Strings` (`partition`,
`split`, `startswith`, `endswith`, `in`, `"%d"`, the tail of `os.path.split`).
Module `Url` holds the part of Python 2.7's `urlparse.urlsplit` that
`uri_to_name` reads: the scheme test, the `//netloc` split, and removing
`#fragment` and `?query`. `os.path.exists` is a predicate parameter.
`os.getcwd()` is a string parameter.

**The evaluators** (`bisect_b2g/evaluator.py`). Module `Evaluator` has:
- the exit-code protocol: 69 is good, 96 is bad, 0 is `exit(1)` of the whole run, anything else is `EvaluatorError`;
- the script verdict;
- the exact text of the generated rc file.

Module `Interactive` models `InteractiveEvaluator` as a class over a modelled
filesystem (`FileSystem`: a map from paths to contents, plus a set of
directories). `generate_script` picks an unused name, as `mkstemp` does. `eval`
builds the session environment and removes the rc file before it classifies
the exit status. Module `BuildEnv` models how the constructor prepares
`build_info`, including the `key=value,key=value` parse loop. Module `Build`
models `InteractiveBuildEvaluator`:
- step functions for `notify_status`, `notify_timeout`, the `finally` clause and `perform_build`, each over the evaluator's fields and the filesystem;
- a class `BuildEvaluator` whose methods update the fields `buildNumber`, `logOpen` and `buildLog` and the files, proved against those functions.

Python exceptions are values of `Exceptions.Exc`. A call that may raise
returns an `Outcome` or an `Option<Exc>`. These things are inputs to the model:
- the session's exit status;
- the build's output lines and timeouts, in order;
- a user interrupt.

The build step functions take a `Variant`. `AsWritten` is the program as
it is. `Corrected` repairs the mistakes listed under "Findings". The class
runs the program as written.

Three behaviours of the code are worth stating up front:
- the rc file is not removed when the shell session is interrupted, because the code has no `try`/`finally` around `subprocess.call`;
- on an evaluator that has never opened a log, a build that printed no line ends in the `finally` clause with `AttributeError`, since there is no log to close;
- in the model, where an exception raised by a build callback leaves `perform_build`, a timeout does not lead on to the human verdict, because `notify_timeout` raises `AttributeError`.

The `build_info` dictionary the driver passes always has its three keys, holding `None` where no option was given
(`bisect_b2g/driver.py:218-225`). The model keeps a missing key and a key holding `None` apart. A `None` working
directory runs the build in the current directory. A `None` log directory makes the first output line raise
`TypeError` from `os.path.exists(None)`.

## Model

| member | source | states |
|---|---|---|
| Driver.LocalPathToName | bisect_b2g/driver.py:21-27 | the derived name never contains `/` |
| Driver.LocalPathToNameOfJoin | bisect_b2g/driver.py:21-27 | `dir/base` and `dir/base.git` are both named `base`, and a bare `base` is its own name; exactly one trailing `.git` is removed |
| Driver.UriToName | bisect_b2g/driver.py:30-44 | the derived name never contains `/` |
| Driver.ScpNameOfParts | bisect_b2g/driver.py:33-42 | with a netloc `host:base`, the name is that of the path `base + path` |
| Driver.ScpUriName | bisect_b2g/driver.py:30-44 | `scheme://host:base/path` is named after the last segment of `base/path`, without `.git` |
| Driver.NameWithoutPort | bisect_b2g/driver.py:33-42 | a netloc without `:` adds nothing to the path, and the name is the last `/` segment without one `.git` |
| Driver.PlainPathNames | bisect_b2g/driver.py:21-44 | for a path without `:`, `?`, `#` or a leading `//`, `uri_to_name` and `local_path_to_name` agree |
| Driver.StripVcsPrefix | bisect_b2g/driver.py:68-76 | an `HG` prefix gives hg, otherwise a `GIT` prefix gives git, otherwise no VCS; putting the prefix back in front of the rest gives the argument |
| Driver.Sections | bisect_b2g/driver.py:79-86 | `None` exactly when there is no `@`, or no `..` after the first `@`; otherwise the argument is `repo@good..bad`, with `repo` holding no `@` and `good` holding no `..` |
| Driver.Locate | bisect_b2g/driver.py:88-99 | an existing path is both URI and local path; otherwise the text is split at its first `->`; otherwise the local path is `cwd/repos/uri_to_name(uri)` |
| Driver.GuessedVcs | bisect_b2g/driver.py:102-130 | a guessed VCS is git or hg; a failed guess is one of the three `InvalidArg` reasons (hg host on a git-looking URI, conflicting hosts, no clue) |
| Driver.RemoteUris | bisect_b2g/driver.py:103-107 | the clue list holds every git host tagged `git`, then every hg host tagged `hg` |
| Driver.GuessVcs | bisect_b2g/driver.py:102-126 | the loops over `hg_urls` and `remote_uris` give exactly the guess of `GuessedVcs` |
| Driver.Parse | bisect_b2g/driver.py:47-136 | on success the VCS is git or hg and `name == local_path_to_name(local_path)`; `good` and `bad` are the text around the first `..` after the first `@`, and the URI and local path are what `Locate` gives for the text before that `@`; an `HG` prefix gives hg and a `GIT` prefix gives git, never overridden; `Malformed` exactly when a separator is missing; `good` holds no `..`, and `@good..bad` ends the argument |
| Driver.Describe | bisect_b2g/driver.py:88-136 | a prefix VCS is kept, otherwise the VCS is the guess for the located URI, whose error is the result's; the URI and local path are those of `Locate`; the name is that of the local path; the revisions pass through unchanged; the result is never `Malformed` |
| Driver.ParseArg | bisect_b2g/driver.py:63-136 | the imperative `parse_arg` returns exactly `Parse` |
| Driver.MakeArg | bisect_b2g/driver.py:139-163 | `NameMismatch` exactly when `uri_to_name(local_path) != name`; success exactly when the name matches and the VCS is git or hg; the argument ends with `@good..bad` |
| Driver.Assembled | bisect_b2g/driver.py:149-161 | the written argument ends with `@good..bad` |
| Driver.WriteArg | bisect_b2g/driver.py:139-163 | the successive `arg +=` steps give exactly `MakeArg` |
| Driver.ParseAssembled | bisect_b2g/driver.py:139-141 | the argument written for a git or hg record whose separators cannot be confused parses back into that record |
| Driver.ParseMakeRoundTrip | bisect_b2g/driver.py:139-141 | `parse_arg(make_arg(d)) == d` for records `make_arg` accepts: no `@` in URI or path, no `->` in the URI, no `..` in `good`, and the path exists exactly when the URI is the bare path |
| Driver.ParseMakeRoundTripPlain | bisect_b2g/driver.py:139-141 | for plain local paths, `make_arg` accepts the record and the round trip holds |
| Driver.RoundTripNeedsGoodWithoutTrailingDot | bisect_b2g/driver.py:84 | a `good` revision ending in `.` never survives the round trip |
| Driver.GoodReadShorter | bisect_b2g/driver.py:84 | with such a `good`, the first `..` starts inside it, so a shorter `good` is read back |
| Driver.CorrectedMakeArg | bisect_b2g/driver.py:143-147 | with the name checked as `parse_arg` derives it, `NameMismatch` exactly when `local_path_to_name(local_path) != name` |
| Driver.CorrectedRoundTrip | bisect_b2g/driver.py:140-141 | the corrected `make_arg` accepts every git or hg record named after its local path, and `parse_arg` inverts it |
| Url.SchemeUrl | bisect_b2g/driver.py:31-34 | `scheme://netloc/path` splits into that netloc and that path |
| Url.PlainPath | bisect_b2g/driver.py:31-34 | a plain local path has an empty netloc and is its own path |
| Evaluator.Classify | bisect_b2g/evaluator.py:96-107 | 69 is good, 96 is bad, 0 is quit, and everything else is unexpected and carries its code, each in both directions |
| Evaluator.SessionOutcome | bisect_b2g/evaluator.py:96-107 | a normal return exactly for 69 and 96, `True` exactly for 69; otherwise `exit(1)` for 0 and `EvaluatorError` carrying the code for the rest |
| Evaluator.SessionOutcomeCases | bisect_b2g/evaluator.py:96-107 | the session result is `True` iff 69, `False` iff 96, `exit(1)` iff 0, and `EvaluatorError` for every other code |
| Evaluator.ScriptVerdict | bisect_b2g/evaluator.py:37-41 | a script passes exactly when its code is the one that quits the interactive session (0); the interactive `good` code 69 fails a script |
| Evaluator.ProtocolsDiffer | bisect_b2g/evaluator.py:37-41 | the script verdict is good for code 0 and bad for 69, while the interactive protocol reads 69 as good and quits on 0 |
| Evaluator.RcText | bisect_b2g/evaluator.py:50-64 | the rc text splits at its newlines into its 14 lines, and each line shows its text once leading blanks are dropped |
| Evaluator.RcDefinesVerdicts | bisect_b2g/evaluator.py:50-64 | the first definition of `good` in the rc text is `exit 69` and that of `bad` is `exit 96`, which the protocol reads as good and bad |
| Evaluator.DefinitionFound | bisect_b2g/evaluator.py:56-62 | a `function name () {` line followed by `exit N`, with no earlier header for `name`, defines `name` as exit N |
| Interactive.SessionEnv | bisect_b2g/evaluator.py:79-82 | the keys are the caller's plus `PS1`, `PS2`, `IGNOREEOF`; those three are `BISECT: $ `, `> `, `4096`; every other variable is unchanged |
| Interactive.ShellOutcome | bisect_b2g/evaluator.py:88-107 | `KeyError` exactly when `SHELL` is not in the environment; an interrupt exactly when the session started and the user interrupted it; otherwise the protocol's reading of the exit status |
| Interactive.UnusedNameExists | bisect_b2g/evaluator.py:65 | a finite set of file names always leaves a name free for the temporary file |
| Interactive.InteractiveEvaluator.GenerateScript | bisect_b2g/evaluator.py:50-68 | a new file, absent before, holds the rc text; nothing else changes |
| Interactive.InteractiveEvaluator.Eval | bisect_b2g/evaluator.py:70-109 | the shell is started as `$SHELL --rcfile <rc> --noprofile` with the session environment; after it exits, the rc file is gone and the result is the protocol's, on the verdict, quit and error paths alike; a missing `SHELL` or an interrupt leaves the file |
| BuildEnv.EnvMap | bisect_b2g/evaluator.py:123-128 | the parse succeeds exactly when every `,`-separated entry has an `=`; otherwise it raises `IndexError` |
| BuildEnv.Key | bisect_b2g/evaluator.py:127 | `p.split('=')[0]` holds no `=`, and `p` starts with it followed by `=`, or is it when `p` has no `=` |
| BuildEnv.Value | bisect_b2g/evaluator.py:127 | `p.split('=')[1]` holds no `=`; `p` starts with key, `=`, value, and the value runs up to the next `=` or the end |
| BuildEnv.PairsMap | bisect_b2g/evaluator.py:126-127 | every binding of the dictionary is the key and the value of some entry |
| BuildEnv.ParseBuildEnv | bisect_b2g/evaluator.py:123-128 | the loop that fills `edict` gives exactly `EnvMap` |
| BuildEnv.PairsMapKeys | bisect_b2g/evaluator.py:126-127 | the keys of the dictionary are exactly the keys of the entries |
| BuildEnv.LastEntryWins | bisect_b2g/evaluator.py:126-127 | each key is bound to the value of its last entry |
| BuildEnv.EntryFields | bisect_b2g/evaluator.py:127 | `key=value=extra` is read as `key` and `value`, and the third field is dropped |
| BuildEnv.EnvExampleOk | bisect_b2g/evaluator.py:123-128 | `A=1,B=2` gives `{A: 1, B: 2}` |
| BuildEnv.EnvExampleMissing | bisect_b2g/evaluator.py:123-128 | `A=1,B` raises `IndexError` |
| BuildEnv.DriverInfo | bisect_b2g/driver.py:218-225 | the dictionary the driver passes has all three keys, so it is never the empty dictionary; each holds the option's value when that value is non-empty, and `None` otherwise |
| BuildEnv.PreparedInfo | bisect_b2g/evaluator.py:117-128 | a missing or empty `build_info` raises `AttributeError` as written and gets the working directory and process environment corrected; a missing `env` key raises `KeyError`; a false env is left untouched; a non-empty dictionary raises `AttributeError` for `split`; a non-empty text is replaced by its parse, or the parse's error is raised; workdir and logdir are kept |
| Build.Write | bisect_b2g/evaluator.py:174 | a write appends to an open log and changes nothing else; writing to a closed or never-assigned log raises and changes nothing |
| Build.AfterStatus | bisect_b2g/evaluator.py:164-174 | with the log not open, a missing `logdir` raises `KeyError`, a `None` one `TypeError`, and a path creates `logdir`, opens `build_<n>.log` and writes the line; with it open, the line is appended with a newline, or the write raises |
| Build.AfterTimeout | bisect_b2g/evaluator.py:176-180 | with the log open, `BUILD TIMED OUT` is appended, or the write raises `ValueError` (closed log) or `AttributeError` (no log); with it not open nothing changes; as written, a successful write or no write is followed by `AttributeError` for `self.log`, corrected by nothing |
| Build.AfterClose | bisect_b2g/evaluator.py:154-155 | afterwards the log is closed or was never assigned; as written it raises exactly when no log was assigned and leaves `log_open` as it was |
| Build.AfterEvents | bisect_b2g/evaluator.py:139-141 | the callbacks never remove a file or a directory and never reset `log_open`; they raise only `KeyError`/`TypeError` for the log directory, `AttributeError`/`ValueError` for the log, and, as written, `AttributeError` for `self.log` |
| Build.AfterBuild | bisect_b2g/evaluator.py:130-155 | the build number goes up by exactly 1; a missing `workdir` or `env` key raises `KeyError` before the `try`, and a `None` one does not; a build that reaches the `try` ends with its log closed or never assigned, and returns normally only without an interrupt |
| Build.EvalOutcome | bisect_b2g/evaluator.py:185-187 | as written a normal return is `None`; corrected it is the session's verdict; it returns normally exactly when neither the build nor the session raised |
| Build.EventsAppend | bisect_b2g/evaluator.py:164-178 | with the log open, every line and timeout marker is appended in arrival order, and nothing else changes |
| Build.BuildLogsEvents | bisect_b2g/evaluator.py:145-171 | a build whose first event is a line creates `logdir`, writes all events to `logdir/build_<n>.log` with the new `n`, closes it, and raises only the interrupt |
| Build.BuildClosesLog | bisect_b2g/evaluator.py:145-155 | after every build that reaches the `try`, the log is closed or was never assigned; as written the latter raises `AttributeError` |
| Build.CorrectedBuildResetsLog | bisect_b2g/evaluator.py:165-171 | corrected, `log_open` is reset after every build |
| Build.RunOpensLog | bisect_b2g/evaluator.py:165-171 | `log_open` is set only when a log file is assigned |
| Build.DriverDefaultBuild | bisect_b2g/driver.py:218-225 | the driver's settings without build options are kept by the constructor and start the build; in the model, where callback exceptions leave `perform_build`, the first output line raises `TypeError`, replaced by `AttributeError` when no log was ever assigned, and no file changes |
| Build.BuildEvaluator.constructor | bisect_b2g/evaluator.py:112-116 | the counter starts at 0, `log_open` is false, no log is assigned |
| Build.BuildEvaluator.WriteLog | bisect_b2g/evaluator.py:174 | the fields and files change as `Write` says |
| Build.BuildEvaluator.NotifyStatus | bisect_b2g/evaluator.py:164-174 | the first line opens `logdir/build_<n>.log` and sets `log_open`; every line is appended with a newline, as `AfterStatus` says |
| Build.BuildEvaluator.NotifyTimeout | bisect_b2g/evaluator.py:176-180 | the marker is written only with `log_open` set, then `AttributeError` for `self.log`, as `AfterTimeout` says |
| Build.BuildEvaluator.RunCallbacks | bisect_b2g/evaluator.py:139-148 | delivering the events to `notify_status` and `notify_timeout` in order changes the fields and files exactly as `AfterEvents` says |
| Build.BuildEvaluator.PerformBuild | bisect_b2g/evaluator.py:130-155 | the new state and the raised exception are exactly those of `AfterBuild`: the counter is incremented, callbacks run in order, and the log is closed in `finally` |
| Build.BuildEvaluator.Eval | bisect_b2g/evaluator.py:185-187 | the build, then the interactive session; the result is `EvalOutcome` as written; the fields and directories are those `AfterBuild` leaves, and so are the files, except that an unstarted or interrupted session leaves one new file holding the rc text |
| Build.NewBuildEvaluator | bisect_b2g/evaluator.py:112-128 | the constructor raises exactly when `PreparedInfo` does; otherwise it gives a fresh evaluator at build 0 with the prepared settings |
| Findings.SilentBuildFails | bisect_b2g/evaluator.py:155 | on an evaluator that has never opened a log, a build that prints no line ends in `AttributeError` from `finally`, which loses any interrupt |
| Findings.CorrectedSilentBuild | bisect_b2g/evaluator.py:155 | corrected, such a build changes only the counter and raises only the interrupt |
| Findings.LaterBuildFails | bisect_b2g/evaluator.py:165-171 | with `log_open` left set and the old log closed, a build's first line raises `ValueError`, which in the model (callback exceptions leave `perform_build`) ends the build |
| Findings.SecondBuildFails | bisect_b2g/evaluator.py:165-171 | on a new evaluator, the first build logs to `build_1.log`; the second's first line writes to the closed log, which in the model (callback exceptions leave `perform_build`) raises `ValueError`, and nothing is written |
| Findings.CorrectedSecondBuild | bisect_b2g/evaluator.py:165-171 | corrected, the second build logs to `build_2.log` |
| Findings.TimeoutRaises | bisect_b2g/evaluator.py:176-180 | a timeout after one line is logged as `BUILD TIMED OUT`, then `self.log` raises `AttributeError`, which in the model (callback exceptions leave `perform_build`) ends the build |
| Findings.CorrectedTimeout | bisect_b2g/evaluator.py:176-180 | corrected, the same build logs the marker and raises nothing |
| Findings.VerdictDropped | bisect_b2g/evaluator.py:185-187 | after a `good` or a `bad` session, `eval` returns `None` |
| Findings.CorrectedVerdict | bisect_b2g/evaluator.py:185-187 | corrected, `eval` returns `True` after `good` and `False` after `bad` |
| Findings.InitWithoutInfo | bisect_b2g/evaluator.py:117-120 | without `build_info` the constructor raises `AttributeError` |
| Findings.CorrectedInitWithoutInfo | bisect_b2g/evaluator.py:117-120 | corrected, it uses the working directory and the process environment |
| Findings.ParsedRecordRejected | bisect_b2g/driver.py:143-147 | `GITr#1@a..b` with `r#1` existing parses to a record that `make_arg` refuses with `NameMismatch` |
| Findings.FragmentDropped | bisect_b2g/driver.py:30-44 | `uri_to_name("r#1")` is `r` |
| Findings.CorrectedParsedRecord | bisect_b2g/driver.py:139-163 | the corrected `make_arg` writes that record back as `GITr#1@a..b` |

## Left out

- `driver.main` is not modelled, except for the `build_info` dictionary it builds (`BuildEnv.DriverInfo`): option parsing, logging setup, profiling output, and the `Project`/`Bisection`/`build_history` collaborators. `bisect_b2g/repository.py`, `bisect_b2g/bisection.py`, `bisect_b2g/history.py` and `bisect_b2g/util.py` (`run_cmd`) are not part of this model.
- The script's exit status, the shell session's exit status, the build's output lines and timeouts, and user interrupts are inputs. Running processes (`subprocess.call`, `run_cmd`, mozprocess `ProcessHandler` with its 7200-second timer and kill) is not modelled. An interrupt partway through a build is the same as passing only the events delivered before it.
- Build.BuildEvaluator.PerformBuild: an exception in an output or timeout callback is modelled as leaving `perform_build` at once. The mozprocess versions that accept `kill_on_timeout` call `processOutputLine` and `onTimeout` on a reader thread, where such an exception only ends that thread and `perform_build` goes on to `wait()`, the `finally` clause and the session. The model does not capture that behaviour. The same holds for Build.AfterEvents, Build.DriverDefaultBuild, Findings.LaterBuildFails, Findings.SecondBuildFails and Findings.TimeoutRaises.
- Build.BuildEvaluator.PerformBuild: the build's exit code only picks a printed message, so it is not an input. The fixed build command path is not modelled.
- The `pdb.set_trace()` call (bisect_b2g/evaluator.py:131-132) is not modelled. It stops every build until someone at the debugger continues; the model carries on at once.
- The progress dot and `start_time` are not modelled, because they depend on the wall clock (a float). `print`, `sys.stdout.write`, `log.debug`, `log.warning` and `notify_finished` only narrate, so they are not modelled either.
- Files are a map from paths to contents, and directories are a set. `mkstemp` picks any unused name. `open(…, "w")` truncates. `os.makedirs` adds the log directory. Permissions, I/O errors and the file descriptors are not modelled.
- `stdin_file` and the stdout/stderr handles of the session are not modelled.
- The caller's `build_info` dictionary is modelled as a value. The constructor in fact rewrites the caller's dictionary in place.
- `urlparse.urlsplit` is modelled only as far as `uri_to_name` reads it: scheme, netloc, path, query and fragment. Lower-casing the scheme, the IPv6 bracket check and the cache are not modelled. `os.path.join` is modelled for string arguments.
- A record is always complete. The `KeyError` that `make_arg` raises for a missing key other than `vcs` is not modelled. A missing `vcs` is any string other than `git` or `hg`.
- Driver.ParseMakeRoundTrip: the round trip is proved under two hypotheses that are not in the documented inverse claim. `good` must not end in `.`; Driver.RoundTripNeedsGoodWithoutTrailingDot shows this hypothesis is needed. `name` must equal `local_path_to_name(local_path)` as well as `uri_to_name(local_path)`; see Findings.
- Driver.Locate: `os.path.exists` is a predicate parameter, and `os.getcwd()` is a string parameter.

## Findings

| source | as written | input that shows it | evidently intended | confidence | as-written member | corrected member |
|---|---|---|---|---|---|---|
| bisect_b2g/evaluator.py:155 | `finally` closes `self.build_log` even when no output line assigned it | on a new evaluator, a build that prints no line, with or without a timeout or interrupt | close a log only if one was opened, and re-raise the interrupt | high; not executed | Findings.SilentBuildFails | Findings.CorrectedSilentBuild |
| bisect_b2g/evaluator.py:165-171 | `log_open` is never reset, so the second build writes to the closed first log (`ValueError`) | two builds on one evaluator, each printing one line | each build opens its own `build_<n>.log` | high; not executed | Findings.SecondBuildFails | Findings.CorrectedSecondBuild |
| bisect_b2g/evaluator.py:180 | `notify_timeout` calls `self.log`, which does not exist (`AttributeError`; in the model it ends the build) | a build that prints a line and then times out | log the marker and carry on to the human verdict | high; not executed | Findings.TimeoutRaises | Findings.CorrectedTimeout |
| bisect_b2g/evaluator.py:187 | `eval` drops the session's verdict and returns `None` | a session ended with `good` (exit 69) | return `True` for `good` and `False` for `bad` | high; not executed | Findings.VerdictDropped | Findings.CorrectedVerdict |
| bisect_b2g/evaluator.py:117-120 | without `build_info`, the constructor writes into a `self.build_info` that was never created | `InteractiveBuildEvaluator()` | default to the working directory and the process environment | medium; not executed | Findings.InitWithoutInfo | Findings.CorrectedInitWithoutInfo |
| bisect_b2g/driver.py:143-147 | `make_arg` checks the name with `uri_to_name`, but `parse_arg` derives it with `local_path_to_name` | `GITr#1@a..b` with the path `r#1` existing | `make_arg` accepts every record `parse_arg` produces | medium; not executed | Findings.ParsedRecordRejected | Driver.CorrectedRoundTrip |
