/**
 * The interactive evaluator: it writes the rc file to a fresh temporary
 * file, starts `$SHELL --rcfile <file> --noprofile` with the session
 * environment, removes the file once the shell has exited, and reads the
 * exit status.
 */
module Interactive {
  import opened Wrappers
  import opened Strings
  import opened Exceptions
  import opened Evaluator

  /** The environment of the shell session: the caller's, with the two prompts and `IGNOREEOF` set. */
  function SessionEnv(environ: map<string, string>): (env: map<string, string>)
    ensures env.Keys == environ.Keys + {"PS1", "PS2", "IGNOREEOF"}
    ensures env["PS1"] == "BISECT: $ " && env["PS2"] == "> " && env["IGNOREEOF"] == "4096"
    ensures forall k :: k in environ && k != "PS1" && k != "PS2" && k != "IGNOREEOF" ==> env[k] == environ[k]
  {
    environ["PS1" := "BISECT: $ "]["PS2" := "> "]["IGNOREEOF" := Decimal(1024 * 4)]
  }

  /** The regular files (path to contents) and the directories of the machine. */
  class FileSystem {
    var files: map<string, string>
    var dirs: set<string>

    constructor (files: map<string, string>, dirs: set<string>)
      ensures this.files == files && this.dirs == dirs
    {
      this.files := files;
      this.dirs := dirs;
    }
  }

  /** A finite set of names always leaves one unused, which `mkstemp` may pick. */
  lemma UnusedNameExists(used: set<string>)
    ensures exists name :: name !in used
  {
    var n := LongerThanAll(used);
    assert Blanks(n) !in used;
  }

  lemma {:induction false} LongerThanAll(used: set<string>) returns (n: nat)
    ensures forall name :: name in used ==> |name| < n
    decreases |used|
  {
    if used == {} {
      n := 0;
    } else {
      var x :| x in used;
      var k := LongerThanAll(used - {x});
      n := if |x| + 1 > k then |x| + 1 else k;
    }
  }

  /** What `eval` returns or raises: `SHELL` must be set, and the user may interrupt the session. */
  function ShellOutcome(environ: map<string, string>, code: int, interrupted: bool): (r: Outcome<bool>)
    ensures r == Raised(KeyError("SHELL")) <==> "SHELL" !in environ
    ensures r == Raised(KeyboardInterrupt) <==> "SHELL" in environ && interrupted
    ensures "SHELL" in environ && !interrupted ==> r == SessionOutcome(code)
  {
    if "SHELL" !in environ then Raised(KeyError("SHELL"))
    else if interrupted then Raised(KeyboardInterrupt)
    else SessionOutcome(code)
  }

  /** The shell command that was started: its arguments, its environment and what its rc file held. */
  datatype Launch = Launch(argv: seq<string>, env: map<string, string>, rcContents: string)

  class InteractiveEvaluator {
    const fs: FileSystem

    constructor (fs: FileSystem)
      ensures this.fs == fs
    {
      this.fs := fs;
    }

    /** `generate_script`: writes the rc text to a new temporary file and returns its name. */
    method GenerateScript() returns (rc: string)
      modifies fs
      ensures rc !in old(fs.files)
      ensures fs.files == old(fs.files)[rc := RcText()] && fs.dirs == old(fs.dirs)
    {
      UnusedNameExists(fs.files.Keys);
      rc :| rc !in fs.files;
      fs.files := fs.files[rc := RcText()];
    }

    /**
     * `eval`: the session is started with `$SHELL` from `environ`, exits with
     * `code` unless the user interrupts it, and the rc file is removed before
     * the exit status is read.  `rc` is the name of the temporary file.
     */
    method Eval(environ: map<string, string>, code: int, interrupted: bool)
      returns (outcome: Outcome<bool>, launched: Option<Launch>, rc: string)
      modifies fs
      ensures rc !in old(fs.files) && fs.dirs == old(fs.dirs)
      ensures outcome == ShellOutcome(environ, code, interrupted)
      ensures "SHELL" !in environ ==>
        outcome == Raised(KeyError("SHELL")) && launched == None && fs.files == old(fs.files)[rc := RcText()]
      ensures "SHELL" in environ ==>
        launched == Some(Launch([environ["SHELL"], "--rcfile", rc, "--noprofile"], SessionEnv(environ), RcText()))
      ensures "SHELL" in environ && interrupted ==>
        outcome == Raised(KeyboardInterrupt) && fs.files == old(fs.files)[rc := RcText()]
      ensures "SHELL" in environ && !interrupted ==>
        outcome == SessionOutcome(code) && fs.files == old(fs.files)
    {
      rc := GenerateScript();
      var env := environ;
      env := env["PS1" := "BISECT: $ "];
      env := env["PS2" := "> "];
      env := env["IGNOREEOF" := Decimal(1024 * 4)];
      if "SHELL" !in environ {
        return Raised(KeyError("SHELL")), None, rc;
      }
      launched := Some(Launch([environ["SHELL"], "--rcfile", rc, "--noprofile"], env, fs.files[rc]));
      if interrupted {
        return Raised(KeyboardInterrupt), launched, rc;
      }
      if rc in fs.files {
        fs.files := fs.files - {rc};
      }
      assert fs.files == old(fs.files);
      var verdict := Classify(code);
      if verdict == Good {
        outcome := Normal(true);
      } else if verdict == Bad {
        outcome := Normal(false);
      } else if verdict == Quit {
        outcome := Raised(SystemExit(1));
      } else {
        outcome := Raised(EvaluatorError(code));
      }
    }
  }

}
