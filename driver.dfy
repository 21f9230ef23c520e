/**
 * The repository-specifier codec of the bisection driver: a command-line
 * argument `[GIT|HG][URI->]LOCAL_PATH@GOOD..BAD` is parsed into a record
 * describing one repository, and such a record is turned back into an
 * argument.  The filesystem test `os.path.exists` and the current working
 * directory are parameters.
 */
module Driver {
  import opened Wrappers
  import opened Strings
  import Url

  /** The reason an `InvalidArg` is raised. */
  datatype InvalidArg =
    | Malformed        // no `@`, or no `..` after the first `@`
    | HgLooksLikeGit   // a `git://` or `.git` URI on an hg host
    | ConflictingVcs   // the URI names hosts of both kinds
    | UnknownVcs       // no prefix and no clue in the URI
    | NameMismatch     // make_arg: the name is not the one of the local path
    | MissingVcs       // make_arg: the VCS is neither git nor hg

  /** The dictionary `{vcs, uri, name, local_path, good, bad}`; a missing `vcs` key is any string but "git" or "hg". */
  datatype ArgData = ArgData(vcs: string, uri: string, name: string, localPath: string, good: string, bad: string)

  /** Removes one trailing `.git`. */
  function StripGit(name: string): string
  {
    if EndsWith(name, ".git") then name[..|name| - 4] else name
  }

  /** `local_path_to_name`: the last path component, without one trailing `.git`. */
  function LocalPathToName(lp: string): (name: string)
    ensures '/' !in name
  {
    StripGit(AfterLast(lp, '/'))
  }

  /** The name of `dir/base` and `dir/base.git` is `base`, whatever `dir` is. */
  lemma LocalPathToNameOfJoin(dir: string, base: string)
    requires '/' !in base
    ensures LocalPathToName(dir + "/" + base + ".git") == base
    ensures !EndsWith(base, ".git") ==> LocalPathToName(dir + "/" + base) == base
    ensures !EndsWith(base, ".git") ==> LocalPathToName(base) == base
  {
    AfterLastOfJoin(dir, base + ".git", '/');
    assert dir + "/" + base + ".git" == dir + ['/'] + (base + ".git");
    var t := base + ".git";
    assert t[|t| - 4..] == ".git" && t[..|t| - 4] == base;
    AfterLastOfJoin(dir, base, '/');
  }

  /**
   * `uri_to_name`: from the URI's netloc and path, with an scp-style
   * `host:base` netloc putting `base` in front of the path; the last
   * `/`-separated segment, without one trailing `.git`.
   */
  function UriToName(uri: string): (name: string)
    ensures '/' !in name
  {
    var bits := Url.Split(uri);
    NameOfParts(bits.netloc, bits.path)
  }

  /** The name `uri_to_name` derives from a netloc and a path. */
  function NameOfParts(netloc: string, path: string): (name: string)
    ensures '/' !in name
  {
    var host := Partition(netloc, ":");
    var pathFull := if host.after != "" then host.after + path else path;
    var segments := Split(pathFull, '/');
    StripGit(segments[|segments| - 1])
  }

  /** With an scp-style netloc `host:base`, the name is that of the local path `base + path`. */
  lemma ScpNameOfParts(host: string, base: string, path: string)
    requires ':' !in host
    ensures NameOfParts(host + ":" + base, path) == LocalPathToName(base + path)
  {
    NoEarlyOccurrence(host, ":", base) by { ContainsChar(host, ':'); }
    PartitionFirst(host, ":", base);
    assert base == "" ==> base + path == path;
    LastPieceIsAfterLast(base + path, '/');
  }

  /** For a plain local path, `uri_to_name` and `local_path_to_name` agree. */
  lemma PlainPathNames(p: string)
    requires ':' !in p && '?' !in p && '#' !in p && !StartsWith(p, "//")
    ensures UriToName(p) == LocalPathToName(p)
  {
    Url.PlainPath(p);
    NameWithoutNetloc(p);
  }

  /** Without a netloc, the name is that of the path. */
  lemma NameWithoutNetloc(p: string)
    ensures NameOfParts("", p) == LocalPathToName(p)
  {
    NameWithoutPort("", p);
  }

  /** A netloc without `:` puts nothing in front of the path. */
  lemma NameWithoutPort(netloc: string, p: string)
    requires ':' !in netloc
    ensures NameOfParts(netloc, p) == LocalPathToName(p)
  {
    ContainsChar(netloc, ':');
    var host := Partition(netloc, ":");
    assert host.after == "";
    LastPieceIsAfterLast(p, '/');
  }

  /**
   * An scp-style URI `scheme://host:base/path` is named after the last
   * segment of `base/path`, as if `base` were a directory.
   */
  lemma ScpUriName(scheme: string, host: string, base: string, path: string)
    requires scheme != "" && Url.AllSchemeChars(scheme)
    requires ':' !in host
    requires forall i :: 0 <= i < |host| ==> host[i] !in "/?#"
    requires forall i :: 0 <= i < |base| ==> base[i] !in "/?#"
    requires path == [] || path[0] == '/'
    requires '?' !in path && '#' !in path
    ensures UriToName(scheme + "://" + host + ":" + base + path) == LocalPathToName(base + path)
  {
    var netloc := host + ":" + base;
    assert scheme + "://" + host + ":" + base + path == scheme + "://" + netloc + path;
    Url.SchemeUrl(scheme, netloc, path);
    ScpNameOfParts(host, base, path);
  }

  /** The VCS prefix of an argument and what follows it; "" stands for Python's `None`. */
  function StripVcsPrefix(arg: string): (r: (string, string))
    ensures r.0 == "hg" <==> StartsWith(arg, "HG")
    ensures r.0 == "git" <==> !StartsWith(arg, "HG") && StartsWith(arg, "GIT")
    ensures r.0 == "" <==> !StartsWith(arg, "HG") && !StartsWith(arg, "GIT")
    ensures arg == (if r.0 == "hg" then "HG" else if r.0 == "git" then "GIT" else "") + r.1
  {
    if StartsWith(arg, "HG") then ("hg", arg[2..])
    else if StartsWith(arg, "GIT") then ("git", arg[3..])
    else ("", arg)
  }

  /**
   * The URI and the local path of the text before the `@`: an existing path
   * is both; otherwise the text is split at the first `->`; otherwise the
   * repository goes to `cwd/repos/<name>`.
   */
  function Locate(text: string, pathExists: string -> bool, cwd: string): (loc: (string, string))
    ensures pathExists(text) ==> loc == (text, text)
    ensures !pathExists(text) && Contains(text, "->") ==>
      text == loc.0 + "->" + loc.1 && !Contains(loc.0, "->")
    ensures !pathExists(text) && !Contains(text, "->") ==>
      loc.0 == text && loc.1 == JoinPath(JoinPath(cwd, "repos"), UriToName(text))
  {
    if pathExists(text) then (text, text)
    else
      var p := Partition(text, "->");
      if p.found then
        assert !Contains(p.before, "->") by {
          forall j | 0 <= j <= |p.before| && OccursAt(p.before, "->", j)
            ensures OccursAt(text, "->", j)
          {
            assert text[j..j + 2] == p.before[j..j + 2];
          }
        }
        (p.before, p.after)
      else (text, JoinPath(JoinPath(cwd, "repos"), UriToName(text)))
  }

  const GitHosts: seq<string> := ["github.com", "codeaurora.org", "linaro.org", "git.mozilla.org"]
  const HgHosts: seq<string> := ["hg.mozilla.org"]

  predicate MentionsAny(uri: string, hosts: seq<string>)
  {
    exists i :: 0 <= i < |hosts| && Contains(uri, hosts[i])
  }

  /**
   * The VCS guessed from a URI: a `git://` prefix or a `.git` suffix means
   * git unless an hg host is named; otherwise the host names decide, and
   * hosts of both kinds, or none, are an error.
   */
  function GuessedVcs(uri: string): (r: Result<string, InvalidArg>)
    ensures r.Ok? ==> r.value == "git" || r.value == "hg"
    ensures r.Err? ==> r.error in {HgLooksLikeGit, ConflictingVcs, UnknownVcs}
  {
    if StartsWith(uri, "git://") || EndsWith(uri, ".git") then
      if MentionsAny(uri, HgHosts) then Err(HgLooksLikeGit) else Ok("git")
    else if MentionsAny(uri, GitHosts) && MentionsAny(uri, HgHosts) then Err(ConflictingVcs)
    else if MentionsAny(uri, GitHosts) then Ok("git")
    else if MentionsAny(uri, HgHosts) then Ok("hg")
    else Err(UnknownVcs)
  }

  /** The `(vcs, host)` clue list: every git host, then every hg host. */
  function RemoteUris(): (clues: seq<(string, string)>)
    ensures |clues| == |GitHosts| + |HgHosts|
    ensures forall j :: 0 <= j < |GitHosts| ==> clues[j] == ("git", GitHosts[j])
    ensures forall j :: |GitHosts| <= j < |clues| ==> clues[j] == ("hg", HgHosts[j - |GitHosts|])
  {
    seq(|GitHosts|, i requires 0 <= i < |GitHosts| => ("git", GitHosts[i]))
      + seq(|HgHosts|, i requires 0 <= i < |HgHosts| => ("hg", HgHosts[i]))
  }

  /** The guessing loops of `parse_arg`, for an argument without a VCS prefix. */
  method GuessVcs(uri: string) returns (r: Result<string, InvalidArg>)
    ensures r == GuessedVcs(uri)
  {
    if StartsWith(uri, "git://") || EndsWith(uri, ".git") {
      var k := 0;
      while k < |HgHosts|
        invariant 0 <= k <= |HgHosts|
        invariant forall j :: 0 <= j < k ==> !Contains(uri, HgHosts[j])
      {
        if Contains(uri, HgHosts[k]) {
          return Err(HgLooksLikeGit);
        }
        k := k + 1;
      }
      return Ok("git");
    }
    var remoteUris := RemoteUris();
    var vcs := "";
    var i := 0;
    while i < |remoteUris|
      invariant 0 <= i <= |remoteUris|
      invariant vcs == "" || vcs == "git" || vcs == "hg"
      invariant vcs == "" <==> forall j :: 0 <= j < i ==> !Contains(uri, remoteUris[j].1)
      invariant forall j :: 0 <= j < i && Contains(uri, remoteUris[j].1) ==> remoteUris[j].0 == vcs
    {
      var (expected, host) := remoteUris[i];
      if Contains(uri, host) {
        if vcs != "" && vcs != expected {
          assert MentionsAny(uri, GitHosts) && MentionsAny(uri, HgHosts) by {
            var j :| 0 <= j < i && Contains(uri, remoteUris[j].1);
            assert j < |GitHosts| <= i;
            assert Contains(uri, GitHosts[j]);
            assert Contains(uri, HgHosts[i - |GitHosts|]);
          }
          return Err(ConflictingVcs);
        }
        vcs := expected;
      }
      i := i + 1;
    }
    assert MentionsAny(uri, GitHosts) <==> vcs == "git" by {
      if MentionsAny(uri, GitHosts) {
        var j :| 0 <= j < |GitHosts| && Contains(uri, GitHosts[j]);
        assert Contains(uri, remoteUris[j].1);
      }
    }
    assert MentionsAny(uri, HgHosts) <==> vcs == "hg" by {
      if MentionsAny(uri, HgHosts) {
        var j :| 0 <= j < |HgHosts| && Contains(uri, HgHosts[j]);
        assert Contains(uri, remoteUris[|GitHosts| + j].1);
      }
    }
    if vcs == "" {
      return Err(UnknownVcs);
    }
    return Ok(vcs);
  }

  /** Without a prefix, the parts never overlap: `StripVcsPrefix(arg).1` is a suffix of `arg`. */
  lemma StripVcsPrefixSuffix(arg: string)
    ensures EndsWith(arg, StripVcsPrefix(arg).1)
  {
  }

  /**
   * The text before the first `@` and, after it, the text before and after
   * the first `..`; `None` when either separator is missing.
   */
  function Sections(rest: string): (r: Option<(string, string, string)>)
    ensures r.None? <==> !Contains(rest, "@") || !Contains(Partition(rest, "@").after, "..")
    ensures r.Some? ==> rest == r.value.0 + "@" + r.value.1 + ".." + r.value.2
    ensures r.Some? ==> !Contains(r.value.0, "@") && !Contains(r.value.1, "..")
  {
    var at := Partition(rest, "@");
    if !at.found then None
    else
      var revs := Partition(at.after, "..");
      if !revs.found then None
      else
        SectionsFound(rest, at, revs);
        Some((at.before, revs.before, revs.after))
  }

  /** The sections around the first `@` and the first `..` after it rebuild the text and hold no earlier separator. */
  lemma SectionsFound(rest: string, at: Parts, revs: Parts)
    requires at == Partition(rest, "@") && at.found
    requires revs == Partition(at.after, "..") && revs.found
    ensures rest == at.before + "@" + revs.before + ".." + revs.after
    ensures !Contains(at.before, "@") && !Contains(revs.before, "..")
  {
    PartitionBeforeClean(rest, "@");
    PartitionBeforeClean(at.after, "..");
    Concat5(at.before, "@", revs.before, "..", revs.after);
  }

  /** Five texts joined in either grouping are the same text. */
  lemma Concat5(a: string, b: string, c: string, d: string, e: string)
    ensures a + b + (c + d + e) == a + b + c + d + e
    ensures a + b + c + d + e == a + (b + c + d + e)
  {
  }

  /** The text before the first `sep` does not contain `sep`. */
  lemma PartitionBeforeClean(s: string, sep: string)
    requires sep != ""
    requires Partition(s, sep).found
    ensures !Contains(Partition(s, sep).before, sep)
  {
    var p := Partition(s, sep);
    assert s == p.before + (sep + p.after);
    PrefixBeforeFirst(s, sep, p.before);
  }

  /** A prefix that ends before the first occurrence of `sep` does not contain `sep`. */
  lemma PrefixBeforeFirst(s: string, sep: string, x: string)
    requires sep != ""
    requires StartsWith(s, x)
    requires forall j :: 0 <= j < |x| ==> !OccursAt(s, sep, j)
    ensures !Contains(x, sep)
  {
    forall j | 0 <= j <= |x| && OccursAt(x, sep, j)
      ensures OccursAt(s, sep, j)
    {
      assert s[j..j + |sep|] == x[j..j + |sep|];
    }
    assert forall j :: 0 <= j <= |x| ==> !OccursAt(x, sep, j);
  }

  /**
   * `parse_arg`: the VCS prefix, then the text before the first `@` (the
   * repository) and after it (the revision range, split at its first `..`).
   */
  function Parse(arg: string, pathExists: string -> bool, cwd: string): (r: Result<ArgData, InvalidArg>)
    ensures r.Ok? ==> (r.value.vcs == "git" || r.value.vcs == "hg")
    ensures r.Ok? ==> r.value.name == LocalPathToName(r.value.localPath)
    ensures r.Ok? && StartsWith(arg, "HG") ==> r.value.vcs == "hg"
    ensures r.Ok? && !StartsWith(arg, "HG") && StartsWith(arg, "GIT") ==> r.value.vcs == "git"
    ensures r == Err(Malformed) <==> Sections(StripVcsPrefix(arg).1).None?
    ensures r.Ok? ==> !Contains(r.value.good, "..")
    ensures r.Ok? ==> EndsWith(arg, "@" + r.value.good + ".." + r.value.bad)
    ensures var sections := Sections(StripVcsPrefix(arg).1);
      r.Ok? && sections.Some? ==>
        r.value.good == sections.value.1 && r.value.bad == sections.value.2 &&
        (r.value.uri, r.value.localPath) == Locate(sections.value.0, pathExists, cwd)
  {
    var (vcs, rest) := StripVcsPrefix(arg);
    match Sections(rest)
    case None => Err(Malformed)
    case Some(sections) =>
      RevisionsEndArg(arg);
      Describe(vcs, sections.0, sections.1, sections.2, pathExists, cwd)
  }

  /** The revision range `parse_arg` finds is written at the end of the argument. */
  lemma RevisionsEndArg(arg: string)
    requires Sections(StripVcsPrefix(arg).1).Some?
    ensures var sections := Sections(StripVcsPrefix(arg).1).value;
      EndsWith(arg, "@" + sections.1 + ".." + sections.2)
  {
    StripVcsPrefixSuffix(arg);
    RevisionsEndRest(StripVcsPrefix(arg).1, arg);
  }

  /** The revision range is written at the end of any text that ends with the sections. */
  lemma RevisionsEndRest(rest: string, arg: string)
    requires EndsWith(arg, rest)
    requires Sections(rest).Some?
    ensures EndsWith(arg, "@" + Sections(rest).value.1 + ".." + Sections(rest).value.2)
  {
    var sections := Sections(rest).value;
    var tail := "@" + sections.1 + ".." + sections.2;
    Concat5(sections.0, "@", sections.1, "..", sections.2);
    EndsWithAppended(sections.0, tail);
    EndsWithTrans(arg, rest, tail);
  }

  /** The record `parse_arg` builds from the VCS prefix ("" when absent) and the three sections. */
  function Describe(vcs: string, repo: string, good: string, bad: string, pathExists: string -> bool, cwd: string): (r: Result<ArgData, InvalidArg>)
    requires vcs == "" || vcs == "git" || vcs == "hg"
    ensures r != Err(Malformed)
    ensures r.Ok? ==> (r.value.vcs == "git" || r.value.vcs == "hg")
    ensures r.Ok? && vcs != "" ==> r.value.vcs == vcs
    ensures r.Ok? ==> r.value.name == LocalPathToName(r.value.localPath)
    ensures r.Ok? ==> r.value.good == good && r.value.bad == bad
    ensures r.Ok? ==> (r.value.uri, r.value.localPath) == Locate(repo, pathExists, cwd)
    ensures r.Ok? && vcs == "" ==> GuessedVcs(Locate(repo, pathExists, cwd).0) == Ok(r.value.vcs)
    ensures r.Err? ==> vcs == "" && GuessedVcs(Locate(repo, pathExists, cwd).0) == Err(r.error)
  {
    var (uri, localPath) := Locate(repo, pathExists, cwd);
    var guessed := if vcs != "" then Ok(vcs) else GuessedVcs(uri);
    if guessed.Err? then Err(guessed.error)
    else Ok(ArgData(guessed.value, uri, LocalPathToName(localPath), localPath, good, bad))
  }

  /** The imperative `parse_arg`, with the guessing loops of GuessVcs. */
  method ParseArg(arg: string, pathExists: string -> bool, cwd: string) returns (r: Result<ArgData, InvalidArg>)
    ensures r == Parse(arg, pathExists, cwd)
  {
    var (vcs, rest) := StripVcsPrefix(arg);
    var sections := Sections(rest);
    if sections.None? {
      return Err(Malformed);
    }
    var (repo, good, bad) := sections.value;
    var (uri, localPath) := Locate(repo, pathExists, cwd);
    if vcs == "" {
      var guessed := GuessVcs(uri);
      if guessed.Err? {
        return Err(guessed.error);
      }
      vcs := guessed.value;
    }
    r := Ok(ArgData(vcs, uri, LocalPathToName(localPath), localPath, good, bad));
  }

  /** The repository part `make_arg` writes: `uri->local_path`, or `local_path` when the two agree. */
  function RepoText(d: ArgData): string
  {
    if d.localPath != d.uri then d.uri + "->" + d.localPath else d.localPath
  }

  /** The revision part `make_arg` writes: `@good..bad`. */
  function RevisionText(d: ArgData): string
  {
    "@" + d.good + ".." + d.bad
  }

  /** The argument `make_arg` writes for a record whose VCS is git or hg. */
  function Assembled(d: ArgData): (arg: string)
    requires d.vcs == "git" || d.vcs == "hg"
    ensures EndsWith(arg, RevisionText(d))
  {
    var prefix := if d.vcs == "git" then "GIT" else "HG";
    var arg := prefix + (RepoText(d) + RevisionText(d));
    assert arg == (prefix + RepoText(d)) + RevisionText(d);
    EndsWithAppended(prefix + RepoText(d), RevisionText(d));
    arg
  }

  /** `make_arg`: `GIT` or `HG`, the repository part, then `@good..bad`. */
  function MakeArg(d: ArgData): (r: Result<string, InvalidArg>)
    ensures r == Err(NameMismatch) <==> UriToName(d.localPath) != d.name
    ensures r.Ok? <==> UriToName(d.localPath) == d.name && (d.vcs == "git" || d.vcs == "hg")
    ensures r.Ok? ==> EndsWith(r.value, RevisionText(d))
  {
    if UriToName(d.localPath) != d.name then Err(NameMismatch)
    else if d.vcs != "git" && d.vcs != "hg" then Err(MissingVcs)
    else Ok(Assembled(d))
  }

  /**
   * `make_arg` with its name check made the one `parse_arg` applies: the
   * name must be `local_path_to_name` of the local path.
   */
  function CorrectedMakeArg(d: ArgData): (r: Result<string, InvalidArg>)
    ensures r == Err(NameMismatch) <==> LocalPathToName(d.localPath) != d.name
    ensures r.Ok? <==> LocalPathToName(d.localPath) == d.name && (d.vcs == "git" || d.vcs == "hg")
  {
    if LocalPathToName(d.localPath) != d.name then Err(NameMismatch)
    else if d.vcs != "git" && d.vcs != "hg" then Err(MissingVcs)
    else Ok(Assembled(d))
  }

  /** `make_arg` as the program runs it: the argument grows by successive appends. */
  method WriteArg(d: ArgData) returns (r: Result<string, InvalidArg>)
    ensures r == MakeArg(d)
  {
    if UriToName(d.localPath) != d.name {
      return Err(NameMismatch);
    }
    var arg: string;
    if d.vcs == "git" {
      arg := "GIT";
    } else if d.vcs == "hg" {
      arg := "HG";
    } else {
      return Err(MissingVcs);
    }
    ghost var prefix := arg;
    var repo: string;
    if d.localPath != d.uri {
      repo := d.uri + "->" + d.localPath;
    } else {
      repo := d.localPath;
    }
    assert repo == RepoText(d);
    arg := arg + repo;
    arg := arg + RevisionText(d);
    assert arg == prefix + (RepoText(d) + RevisionText(d));
    return Ok(arg);
  }

  /** The two prefixes `make_arg` writes are read back by `parse_arg`. */
  lemma VcsPrefixes(tail: string)
    ensures StripVcsPrefix("GIT" + tail) == ("git", tail)
    ensures StripVcsPrefix("HG" + tail) == ("hg", tail)
  {
    var g := "GIT" + tail;
    assert g[0] == 'G' && g[..3] == "GIT" && g[3..] == tail;
    var h := "HG" + tail;
    assert h[..2] == "HG" && h[2..] == tail;
  }

  /** The pieces of a made argument: its prefix gives the VCS back and leaves the rest. */
  lemma MadePrefix(d: ArgData)
    requires d.vcs == "git" || d.vcs == "hg"
    ensures StripVcsPrefix(Assembled(d)) == (d.vcs, RepoText(d) + RevisionText(d))
  {
    VcsPrefixes(RepoText(d) + RevisionText(d));
  }

  /** The first `@` of a made argument's rest is the one `make_arg` wrote, when the repository part holds none. */
  lemma RevisionsAfterRepo(d: ArgData)
    requires '@' !in d.uri && '@' !in d.localPath
    ensures Partition(RepoText(d) + RevisionText(d), "@") == Parts(RepoText(d), true, d.good + ".." + d.bad)
  {
    var repo := RepoText(d);
    var revs := d.good + ".." + d.bad;
    assert repo + RevisionText(d) == repo + "@" + revs;
    assert '@' !in repo;
    ContainsChar(repo, '@');
    NoEarlyOccurrence(repo, "@", revs);
    PartitionFirst(repo, "@", revs);
  }

  /** The sections of a made argument, when the separators cannot be confused. */
  lemma MadeSections(d: ArgData)
    requires '@' !in d.uri && '@' !in d.localPath
    requires !Contains(d.good, "..") && !EndsWith(d.good, ".")
    ensures Sections(RepoText(d) + RevisionText(d)) == Some((RepoText(d), d.good, d.bad))
  {
    RevisionsAfterRepo(d);
    assert |d.good| > 0 ==> d.good[|d.good| - 1] != '.' by {
      if |d.good| > 0 {
        assert d.good[|d.good| - 1..] == [d.good[|d.good| - 1]];
      }
    }
    NoEarlyOccurrence(d.good, "..", d.bad);
    PartitionFirst(d.good, "..", d.bad);
  }

  /** The repository part of a made argument is located at the record's URI and local path. */
  lemma MadeLocation(d: ArgData, pathExists: string -> bool, cwd: string)
    requires !Contains(d.uri, "->")
    requires d.uri == d.localPath ==> pathExists(d.localPath)
    requires d.uri != d.localPath ==> !pathExists(d.uri + "->" + d.localPath)
    ensures Locate(RepoText(d), pathExists, cwd) == (d.uri, d.localPath)
  {
    if d.uri != d.localPath {
      NoEarlyOccurrence(d.uri, "->", d.localPath);
      PartitionFirst(d.uri, "->", d.localPath);
      assert OccursAt(d.uri + "->" + d.localPath, "->", |d.uri|);
    }
  }

  /**
   * The argument written for a record is parsed back into that record when
   * the separators cannot be confused: no `@` before the revisions, no `->`
   * in the URI, a good revision without `..` and not ending in `.`, a name
   * derived from the local path as `parse_arg` derives it, and a filesystem
   * in which the repository text exists exactly when it is a bare local path.
   */
  lemma ParseAssembled(d: ArgData, pathExists: string -> bool, cwd: string)
    requires d.vcs == "git" || d.vcs == "hg"
    requires d.name == LocalPathToName(d.localPath)
    requires '@' !in d.uri && '@' !in d.localPath
    requires !Contains(d.uri, "->")
    requires !Contains(d.good, "..") && !EndsWith(d.good, ".")
    requires d.uri == d.localPath ==> pathExists(d.localPath)
    requires d.uri != d.localPath ==> !pathExists(d.uri + "->" + d.localPath)
    ensures Parse(Assembled(d), pathExists, cwd) == Ok(d)
  {
    MadePrefix(d);
    MadeSections(d);
    MadeLocation(d, pathExists, cwd);
    assert Describe(d.vcs, RepoText(d), d.good, d.bad, pathExists, cwd) == Ok(d);
  }

  /** `make_arg` is the inverse of `parse_arg` on the records it accepts whose fields the separators cannot confuse. */
  lemma ParseMakeRoundTrip(d: ArgData, pathExists: string -> bool, cwd: string)
    requires MakeArg(d).Ok?
    requires d.name == LocalPathToName(d.localPath)
    requires '@' !in d.uri && '@' !in d.localPath
    requires !Contains(d.uri, "->")
    requires !Contains(d.good, "..") && !EndsWith(d.good, ".")
    requires d.uri == d.localPath ==> pathExists(d.localPath)
    requires d.uri != d.localPath ==> !pathExists(d.uri + "->" + d.localPath)
    ensures Parse(MakeArg(d).value, pathExists, cwd) == Ok(d)
  {
    ParseAssembled(d, pathExists, cwd);
  }

  /**
   * The corrected `make_arg` accepts every record `parse_arg` can produce
   * (a git or hg VCS, the name of the local path), and is its inverse under
   * the same separator conditions.
   */
  lemma CorrectedRoundTrip(d: ArgData, pathExists: string -> bool, cwd: string)
    requires d.vcs == "git" || d.vcs == "hg"
    requires d.name == LocalPathToName(d.localPath)
    requires '@' !in d.uri && '@' !in d.localPath
    requires !Contains(d.uri, "->")
    requires !Contains(d.good, "..") && !EndsWith(d.good, ".")
    requires d.uri == d.localPath ==> pathExists(d.localPath)
    requires d.uri != d.localPath ==> !pathExists(d.uri + "->" + d.localPath)
    ensures CorrectedMakeArg(d).Ok? && Parse(CorrectedMakeArg(d).value, pathExists, cwd) == Ok(d)
  {
    ParseAssembled(d, pathExists, cwd);
  }

  /** A corollary for plain local paths, where `make_arg`'s name check and `parse_arg`'s name agree. */
  lemma ParseMakeRoundTripPlain(d: ArgData, pathExists: string -> bool, cwd: string)
    requires d.vcs == "git" || d.vcs == "hg"
    requires ':' !in d.localPath && '?' !in d.localPath && '#' !in d.localPath && !StartsWith(d.localPath, "//")
    requires d.name == LocalPathToName(d.localPath)
    requires '@' !in d.uri && '@' !in d.localPath
    requires !Contains(d.uri, "->")
    requires !Contains(d.good, "..") && !EndsWith(d.good, ".")
    requires d.uri == d.localPath ==> pathExists(d.localPath)
    requires d.uri != d.localPath ==> !pathExists(d.uri + "->" + d.localPath)
    ensures MakeArg(d).Ok? && Parse(MakeArg(d).value, pathExists, cwd) == Ok(d)
  {
    PlainPathNames(d.localPath);
    ParseMakeRoundTrip(d, pathExists, cwd);
  }

  /**
   * The condition that the good revision must not end in `.` cannot be
   * dropped: `good..bad` with `good == "x."` reads as `x` and `.bad`.
   */
  lemma RoundTripNeedsGoodWithoutTrailingDot(d: ArgData, pathExists: string -> bool, cwd: string)
    requires MakeArg(d).Ok?
    requires '@' !in d.uri && '@' !in d.localPath
    requires EndsWith(d.good, ".")
    ensures Parse(MakeArg(d).value, pathExists, cwd) != Ok(d)
  {
    MadePrefix(d);
    var rest := RepoText(d) + RevisionText(d);
    GoodReadShorter(d);
    if Sections(rest).Some? {
      var sections := Sections(rest).value;
      assert Parse(MakeArg(d).value, pathExists, cwd) == Describe(d.vcs, sections.0, sections.1, sections.2, pathExists, cwd);
    }
  }

  /** With a good revision ending in `.`, the `..` found first starts inside it, so less of it is read back. */
  lemma GoodReadShorter(d: ArgData)
    requires '@' !in d.uri && '@' !in d.localPath
    requires EndsWith(d.good, ".")
    ensures var r := Sections(RepoText(d) + RevisionText(d));
      r.Some? ==> |r.value.1| < |d.good|
  {
    RevisionsAfterRepo(d);
    var revs := d.good + ".." + d.bad;
    var k := |d.good| - 1;
    assert revs[k..k + 2] == "..";
    assert OccursAt(revs, "..", k);
    var read := Partition(revs, "..");
    assert |read.before| <= k;
  }
}
