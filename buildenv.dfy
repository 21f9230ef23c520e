/**
 * The build settings the build evaluator is configured with (a working
 * directory, an environment and a log directory), and the constructor's
 * treatment of them: a textual environment `key=value,key=value` is
 * parsed into a dictionary.
 */
module BuildEnv {
  import opened Wrappers
  import opened Strings
  import opened Exceptions

  /** The program as written, or with its evident mistakes repaired. */
  datatype Variant = AsWritten | Corrected

  /** `p.split('=')[0]`: the text before the first `=`, or all of `p` when it has none. */
  function Key(p: string): (k: string)
    ensures '=' !in k && StartsWith(p, k)
    ensures '=' in p ==> StartsWith(p, k + "=")
    ensures '=' !in p ==> k == p
  {
    SplitFirstPiece(p, '=');
    SplitHasTwoPieces(p, '=');
    Split(p, '=')[0]
  }

  /** `p.split('=')[1]`: the text between the first `=` and the next one or the end, only defined when there is an `=`. */
  function Value(p: string): (v: string)
    requires '=' in p
    ensures '=' !in v && StartsWith(p, Key(p) + "=" + v)
    ensures |Key(p) + "=" + v| < |p| ==> p[|Key(p) + "=" + v|] == '='
  {
    var parts := Split(p, '=');
    SplitHasTwoPieces(p, '=');
    SplitFirstPiece(p, '=');
    var tail := parts[1..];
    assert Join(tail, '=') == if |tail| == 1 then tail[0] else tail[0] + "=" + Join(tail[1..], '=');
    assert p == Key(p) + "=" + parts[1] + (if |tail| == 1 then "" else "=" + Join(tail[1..], '='));
    parts[1]
  }

  predicate AllAssign(entries: seq<string>)
  {
    forall i :: 0 <= i < |entries| ==> '=' in entries[i]
  }

  /** The dictionary the parsing loop builds, entry after entry: every binding comes from an entry. */
  function PairsMap(entries: seq<string>): (m: map<string, string>)
    requires AllAssign(entries)
    ensures forall k :: k in m ==> exists i :: 0 <= i < |entries| && Key(entries[i]) == k && m[k] == Value(entries[i])
  {
    if entries == [] then map[]
    else
      var init := entries[..|entries| - 1];
      var last := entries[|entries| - 1];
      assert forall i :: 0 <= i < |init| ==> init[i] == entries[i];
      PairsMap(init)[Key(last) := Value(last)]
  }

  /**
   * The environment parsed from `text`: split at every `,`, each entry
   * maps its key to its value; an entry without `=` raises `IndexError`.
   */
  function EnvMap(text: string): (r: Result<map<string, string>, Exc>)
    ensures r.Ok? <==> forall p :: p in Split(text, ',') ==> '=' in p
    ensures r.Err? ==> r.error == IndexError
  {
    var entries := Split(text, ',');
    if AllAssign(entries) then Ok(PairsMap(entries)) else Err(IndexError)
  }

  /** The loop of the constructor that fills `edict`. */
  method ParseBuildEnv(text: string) returns (r: Result<map<string, string>, Exc>)
    ensures r == EnvMap(text)
  {
    var elist := Split(text, ',');
    var edict: map<string, string> := map[];
    var i := 0;
    while i < |elist|
      invariant 0 <= i <= |elist|
      invariant AllAssign(elist[..i])
      invariant edict == PairsMap(elist[..i])
    {
      var p := elist[i];
      var pieces := Split(p, '=');
      if |pieces| < 2 {
        SplitHasTwoPieces(p, '=');
        assert p in elist && '=' !in p;
        return Err(IndexError);
      }
      SplitHasTwoPieces(p, '=');
      PairsMapStep(elist, i);
      edict := edict[pieces[0] := pieces[1]];
      i := i + 1;
    }
    assert elist[..i] == elist;
    return Ok(edict);
  }

  /** One more entry with an `=` binds its key to its value. */
  lemma PairsMapStep(entries: seq<string>, i: nat)
    requires i < |entries| && AllAssign(entries[..i]) && '=' in entries[i]
    ensures AllAssign(entries[..i + 1])
    ensures PairsMap(entries[..i + 1]) == PairsMap(entries[..i])[Key(entries[i]) := Value(entries[i])]
  {
    assert entries[..i + 1][..i] == entries[..i];
  }

  /** The keys of the parsed environment are the keys of the entries. */
  lemma {:induction false} PairsMapKeys(entries: seq<string>)
    requires AllAssign(entries)
    ensures PairsMap(entries).Keys == set i | 0 <= i < |entries| :: Key(entries[i])
  {
    if entries != [] {
      var init := entries[..|entries| - 1];
      PairsMapKeys(init);
      assert forall i :: 0 <= i < |init| ==> init[i] == entries[i];
      assert (set i | 0 <= i < |entries| :: Key(entries[i]))
          == (set i | 0 <= i < |init| :: Key(init[i])) + {Key(entries[|entries| - 1])};
    }
  }

  /** A key is bound to the value of its last entry: a later duplicate wins. */
  lemma {:induction false} LastEntryWins(entries: seq<string>, i: nat)
    requires AllAssign(entries)
    requires i < |entries|
    requires forall j :: i < j < |entries| ==> Key(entries[j]) != Key(entries[i])
    ensures Key(entries[i]) in PairsMap(entries)
    ensures PairsMap(entries)[Key(entries[i])] == Value(entries[i])
  {
    var init := entries[..|entries| - 1];
    if i < |entries| - 1 {
      assert forall j :: i < j < |init| ==> init[j] == entries[j];
      LastEntryWins(init, i);
      assert init[i] == entries[i];
    }
  }

  /** An entry `key=value` with no other `=` is read as that key and value; a third `=`-field is dropped. */
  lemma EntryFields(key: string, value: string, extra: seq<string>)
    requires '=' !in key && '=' !in value
    requires forall i :: 0 <= i < |extra| ==> '=' !in extra[i]
    ensures var p := Join([key, value] + extra, '=');
      '=' in p && Key(p) == key && Value(p) == value
  {
    var parts := [key, value] + extra;
    forall i | 0 <= i < |parts| ensures '=' !in parts[i] {
      if i >= 2 {
        assert parts[i] == extra[i - 2];
      }
    }
    SplitJoin(parts, '=');
    SplitHasTwoPieces(Join(parts, '='), '=');
  }

  /** A one-field entry is read as its key and value. */
  lemma SimpleEntry(key: string, value: string)
    requires '=' !in key && '=' !in value
    ensures '=' in key + "=" + value
    ensures Key(key + "=" + value) == key && Value(key + "=" + value) == value
  {
    EntryFields(key, value, []);
    assert Join([key, value], '=') == key + "=" + value;
  }

  /** `A=1,B=2` gives both variables. */
  lemma EnvExampleOk()
    ensures EnvMap("A=1,B=2") == Ok(map["A" := "1", "B" := "2"])
  {
    var entries := ["A=1", "B=2"];
    SplitJoin(entries, ',');
    assert Join(entries, ',') == "A=1,B=2";
    SimpleEntry("A", "1");
    SimpleEntry("B", "2");
    assert "A" + "=" + "1" == "A=1" && "B" + "=" + "2" == "B=2";
    assert AllAssign(entries);
    var first := entries[..1];
    assert first == ["A=1"] && first[..0] == [];
    assert PairsMap(first) == map["A" := "1"];
    assert PairsMap(entries) == PairsMap(first)["B" := "2"];
  }

  /** `A=1,B` raises `IndexError`. */
  lemma EnvExampleMissing()
    ensures EnvMap("A=1,B") == Err(IndexError)
  {
    var entries := ["A=1", "B"];
    SplitJoin(entries, ',');
    assert Join(entries, ',') == "A=1,B";
    assert '=' !in entries[1];
  }

  /** What the constructor is given as the environment: a `key=value,...` text, a dictionary, or `None`. */
  datatype EnvSetting = EnvText(text: string) | EnvDict(vars: map<string, string>) | EnvNone

  /** A directory entry of `build_info`: the key is missing, holds `None`, or holds a path. */
  datatype PathSetting = Missing | NoPath | Dir(path: string)

  /**
   * The `build_info` dictionary.  A missing `env` key is `None` here; an
   * `env` key holding Python's `None` is `Some(EnvNone)`.
   */
  datatype BuildInfo = BuildInfo(workdir: PathSetting, env: Option<EnvSetting>, logdir: PathSetting)

  /** The empty dictionary, which Python treats as false like `None`. */
  predicate Empty(info: BuildInfo)
  {
    info.workdir.Missing? && info.env.None? && info.logdir.Missing?
  }

  /**
   * The dictionary the driver passes: every key present, holding the
   * option's value when the option was given and is not empty, `None`
   * otherwise (the driver stores only a true option value).
   */
  function DriverInfo(workdir: Option<string>, env: Option<string>, logdir: Option<string>): (info: BuildInfo)
    ensures !Empty(info) && info.env.Some?
    ensures info.workdir.Dir? <==> workdir.Some? && workdir.value != ""
    ensures info.workdir.Dir? ==> info.workdir.path == workdir.value
    ensures info.logdir.Dir? <==> logdir.Some? && logdir.value != ""
    ensures info.logdir.Dir? ==> info.logdir.path == logdir.value
    ensures Truthy(info.env.value) <==> env.Some? && env.value != ""
    ensures Truthy(info.env.value) ==> info.env.value == EnvText(env.value)
    ensures !Truthy(info.env.value) ==> info.env.value == EnvNone
  {
    BuildInfo(if workdir.Some? && workdir.value != "" then Dir(workdir.value) else NoPath,
              Some(if env.Some? && env.value != "" then EnvText(env.value) else EnvNone),
              if logdir.Some? && logdir.value != "" then Dir(logdir.value) else NoPath)
  }

  /** Python's truth value of the environment setting. */
  predicate Truthy(e: EnvSetting)
  {
    match e
    case EnvText(t) => t != ""
    case EnvDict(m) => m != map[]
    case EnvNone => false
  }

  /**
   * The constructor's handling of `build_info`.  As written, a missing or
   * empty `build_info` raises `AttributeError` (the attribute it writes
   * into was never created); the corrected program uses the working
   * directory `cwd` and the process environment `environ`.  A missing
   * `env` key raises `KeyError`.  A present environment that is a
   * non-empty text is parsed and replaced by the dictionary; a non-empty
   * dictionary has no `split` and raises; a false value is left as it is.
   */
  function PreparedInfo(v: Variant, buildInfo: Option<BuildInfo>, cwd: string, environ: map<string, string>): (r: Result<BuildInfo, Exc>)
    ensures r.Ok? ==> r.value.env.Some? && !(r.value.env.value.EnvText? && Truthy(r.value.env.value))
    ensures buildInfo.None? || Empty(buildInfo.value) ==>
      r == if v == AsWritten then Err(AttributeError("build_info")) else Ok(BuildInfo(Dir(cwd), Some(EnvDict(environ)), Dir(cwd)))
    ensures buildInfo.Some? && !Empty(buildInfo.value) ==>
      var info := buildInfo.value;
      (info.env.None? ==> r == Err(KeyError("env"))) &&
      (info.env.Some? && !Truthy(info.env.value) ==> r == Ok(info)) &&
      (info.env.Some? && info.env.value.EnvDict? && Truthy(info.env.value) ==> r == Err(AttributeError("split"))) &&
      (r.Ok? ==> r.value.workdir == info.workdir && r.value.logdir == info.logdir)
    ensures buildInfo.Some? && !Empty(buildInfo.value) && buildInfo.value.env.Some? && buildInfo.value.env.value.EnvText? ==>
      var text := buildInfo.value.env.value.text;
      text != "" ==> (r.Ok? <==> EnvMap(text).Ok?) && (r.Ok? ==> r.value.env == Some(EnvDict(EnvMap(text).value)))
  {
    if buildInfo.None? || Empty(buildInfo.value) then
      if v == AsWritten then Err(AttributeError("build_info"))
      else Ok(BuildInfo(Dir(cwd), Some(EnvDict(environ)), Dir(cwd)))
    else
      var info := buildInfo.value;
      match info.env
      case None => Err(KeyError("env"))
      case Some(e) =>
        if !Truthy(e) then Ok(info)
        else match e
          case EnvText(t) =>
            (match EnvMap(t)
             case Ok(m) => Ok(info.(env := Some(EnvDict(m))))
             case Err(x) => Err(x))
          case EnvDict(_) => Err(AttributeError("split"))
  }
}
