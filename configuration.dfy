/**
 * Cascading configuration loading (`load_configuration` in synch_service_utils/utils.py).
 *
 * The loader tries up to three YAML files in increasing precedence, folds each
 * existing one into a dict (later files overwrite earlier ones), overrides every
 * required field from an environment variable `PREFIX_FIELD`, and raises
 * `KeyError` when any key of the result is still `None`.
 *
 * The outside world is passed in as values: `files` maps each path that is an
 * existing file to the mapping YAML parsed from it, `env` is the process
 * environment and `home` is what `~` expands to.
 */
module Configuration {
  import opened Basics

  /** A configuration value: a string, or `None` for a YAML null or an absent entry. */
  type Setting = Option<string>

  /** The dict the loader builds and returns. */
  type Conf = map<string, Setting>

  /** The parsed content of every path that is an existing file. */
  type FileSystem = map<string, Conf>

  datatype LoadError = KeyError(missing: set<string>)

  /** The environment variable naming the lowest-precedence configuration directory. */
  const CondaEtcVar := "CONDA_ETC_"

  // ---------------------------------------------------------------------------
  // Paths

  /** Whether path `p` begins with the separator. */
  predicate IsAbsolute(p: string)
  {
    |p| > 0 && p[0] == '/'
  }

  /** POSIX `os.path.join(a, b)`: an absolute `b` replaces `a`; otherwise one separator joins them. */
  function Join(a: string, b: string): (p: string)
    ensures |b| <= |p| && p[|p| - |b|..] == b
    ensures IsAbsolute(b) ==> p == b
  {
    if IsAbsolute(b) then b
    else if a == [] || a[|a| - 1] == '/' then a + b
    else a + "/" + b
  }

  /** The system-wide file `/etc/{name}.yml`. */
  function EtcPath(name: string): string
  {
    Join("/etc", name + ".yml")
  }

  /** The per-user file `~/.config/{name}/connection.yml`. */
  function UserPath(name: string, home: string): string
  {
    Join(Join(Join(home, ".config"), name), "connection.yml")
  }

  /** The candidate files, lowest precedence first; the `CONDA_ETC_` one only when that variable is set. */
  function CandidatePaths(name: string, home: string, env: map<string, string>): seq<string>
  {
    var base := [EtcPath(name), UserPath(name, home)];
    if CondaEtcVar in env then [Join(env[CondaEtcVar], name + ".yml")] + base else base
  }

  // ---------------------------------------------------------------------------
  // Environment variable names

  /** ASCII `str.upper` on one character. */
  function UpperChar(c: char): char
  {
    if 'a' <= c <= 'z' then (c as int - 32) as char else c
  }

  /** `field.upper()`, for ASCII letters. */
  function Upper(s: string): string
  {
    seq(|s|, i requires 0 <= i < |s| => UpperChar(s[i]))
  }

  /** `s.replace(' ', '_')`. */
  function ReplaceSpaces(s: string): string
  {
    seq(|s|, i requires 0 <= i < |s| => if s[i] == ' ' then '_' else s[i])
  }

  /** The variable that overrides `field`: `prefix + '_' + field.upper().replace(' ', '_')`. */
  function EnvVarName(prefix: string, field: string): string
  {
    prefix + "_" + ReplaceSpaces(Upper(field))
  }

  /** What one character of a field becomes in its variable name. */
  function Canonical(c: char): char
  {
    if c == ' ' then '_' else UpperChar(c)
  }

  // ---------------------------------------------------------------------------
  // The specification of the merge

  /** The dict after folding in every existing file of `paths`, in order. */
  function MergeFiles(paths: seq<string>, files: FileSystem): Conf
    decreases |paths|
  {
    if paths == [] then map[]
    else
      var before := MergeFiles(paths[..|paths| - 1], files);
      var last := paths[|paths| - 1];
      if last in files then before + files[last] else before
  }

  /** `os.environ.get(var_name, config.get(field, None))`. */
  function Lookup(config: Conf, field: string, prefix: string, env: map<string, string>): Setting
  {
    var name := EnvVarName(prefix, field);
    if name in env then Some(env[name])
    else if field in config then config[field]
    else None
  }

  /** The dict after `config[field] = Lookup(...)` for every field, in order. */
  function ApplyEnv(config: Conf, fields: seq<string>, prefix: string, env: map<string, string>): Conf
    decreases |fields|
  {
    if fields == [] then config
    else
      var before := ApplyEnv(config, fields[..|fields| - 1], prefix, env);
      var field := fields[|fields| - 1];
      before[field := Lookup(before, field, prefix, env)]
  }

  /** The keys whose value is `None`: the `missing` comprehension. */
  function Missing(config: Conf): set<string>
  {
    set k | k in config && config[k] == None
  }

  /** What the loader returns or raises once the files have produced `merged`. */
  function Resolve(merged: Conf, fields: seq<string>, prefix: string, env: map<string, string>)
    : Result<Conf, LoadError>
  {
    var config := ApplyEnv(merged, fields, prefix, env);
    var missing := Missing(config);
    if missing != {} then Err(KeyError(missing)) else Ok(config)
  }

  /** What `load_configuration` returns or raises. */
  function Load(name: string, prefix: string, fields: seq<string>, home: string,
                env: map<string, string>, files: FileSystem): Result<Conf, LoadError>
  {
    Resolve(MergeFiles(CandidatePaths(name, home, env), files), fields, prefix, env)
  }

  // ---------------------------------------------------------------------------
  // The loader

  /** The loader as written: build the path list, fold the files, apply the environment, check for `None`. */
  method LoadConfiguration(name: string, prefix: string, fields: seq<string>, home: string,
                           env: map<string, string>, files: FileSystem)
    returns (r: Result<Conf, LoadError>)
    ensures r == Load(name, prefix, fields, home, env, files)
  {
    var filenames := [Join("/etc", name + ".yml"),
                      Join(Join(Join(home, ".config"), name), "connection.yml")];
    if CondaEtcVar in env {
      filenames := [Join(env[CondaEtcVar], name + ".yml")] + filenames;
    }

    var config: Conf := map[];
    var i := 0;
    while i < |filenames|
      invariant 0 <= i <= |filenames|
      invariant config == MergeFiles(filenames[..i], files)
    {
      assert filenames[..i + 1][..i] == filenames[..i];
      if filenames[i] in files {
        config := config + files[filenames[i]];
      }
      i := i + 1;
    }
    assert filenames[..i] == filenames;
    ghost var merged := config;

    var j := 0;
    while j < |fields|
      invariant 0 <= j <= |fields|
      invariant config == ApplyEnv(merged, fields[..j], prefix, env)
    {
      assert fields[..j + 1][..j] == fields[..j];
      var field := fields[j];
      config := config[field := Lookup(config, field, prefix, env)];
      j := j + 1;
    }
    assert fields[..j] == fields;

    var missing := Missing(config);
    if missing != {} {
      return Err(KeyError(missing));
    }
    return Ok(config);
  }

  // ---------------------------------------------------------------------------
  // Properties

  /** File `i` of `paths` exists and defines key `k`. */
  ghost predicate Defines(paths: seq<string>, files: FileSystem, i: int, k: string)
  {
    0 <= i < |paths| && paths[i] in files && k in files[paths[i]]
  }

  /** File `i` is the last file of `paths` that defines `k`. */
  ghost predicate LastDefiner(paths: seq<string>, files: FileSystem, i: int, k: string)
  {
    Defines(paths, files, i, k) && forall j :: i < j < |paths| ==> !Defines(paths, files, j, k)
  }

  /** A key is merged exactly when some existing file defines it, and it holds the last such file's value. */
  lemma {:induction false} MergeFilesLastWins(paths: seq<string>, files: FileSystem, k: string)
    ensures k in MergeFiles(paths, files) <==> exists i :: Defines(paths, files, i, k)
    ensures forall i :: LastDefiner(paths, files, i, k) ==> MergeFiles(paths, files)[k] == files[paths[i]][k]
  {
    if paths != [] {
      var n := |paths| - 1;
      var init, last := paths[..n], paths[n];
      MergeFilesLastWins(init, files, k);
      assert forall i :: 0 <= i < n ==> init[i] == paths[i];
      assert forall i :: Defines(init, files, i, k) <==> Defines(paths, files, i, k) && i < n;
      if last in files && k in files[last] {
        assert Defines(paths, files, n, k);
        forall i | LastDefiner(paths, files, i, k) ensures i == n { }
      } else {
        assert forall i :: Defines(paths, files, i, k) ==> i < n;
        forall i | LastDefiner(paths, files, i, k)
          ensures MergeFiles(paths, files)[k] == files[paths[i]][k]
        {
          assert LastDefiner(init, files, i, k);
        }
      }
    }
  }

  /** A candidate that is not an existing file leaves the accumulated dict as it is. */
  lemma {:induction false} AbsentFileContributesNothing(before: seq<string>, p: string, after: seq<string>,
                                                        files: FileSystem)
    requires p !in files
    ensures MergeFiles(before + [p] + after, files) == MergeFiles(before + after, files)
    decreases |after|
  {
    if after == [] {
      assert (before + [p] + after)[..|before|] == before;
      assert before + after == before;
    } else {
      var n := |after| - 1;
      AbsentFileContributesNothing(before, p, after[..n], files);
      assert (before + [p] + after)[..|before| + 1 + n] == before + [p] + after[..n];
      assert (before + after)[..|before| + n] == before + after[..n];
    }
  }

  /** The set of required fields. */
  function FieldSet(fields: seq<string>): set<string>
  {
    set f | f in fields
  }

  /**
   * Every required field ends up holding its environment override or, failing that, the
   * value it had before (`None` if none); every other key is untouched; no key is dropped.
   */
  lemma {:induction false} ApplyEnvResolves(config: Conf, fields: seq<string>, prefix: string,
                                            env: map<string, string>)
    ensures ApplyEnv(config, fields, prefix, env).Keys == config.Keys + FieldSet(fields)
    ensures forall f :: f in fields ==>
              ApplyEnv(config, fields, prefix, env)[f] == Lookup(config, f, prefix, env)
    ensures forall k :: k in config && k !in fields ==>
              ApplyEnv(config, fields, prefix, env)[k] == config[k]
    decreases |fields|
  {
    if fields != [] {
      var n := |fields| - 1;
      var init := fields[..n];
      ApplyEnvResolves(config, init, prefix, env);
      var before := ApplyEnv(config, init, prefix, env);
      var last := fields[n];
      assert fields == init + [last];
      if last in init {
        assert Lookup(before, last, prefix, env) == Lookup(config, last, prefix, env);
      } else if last in config {
        assert before[last] == config[last];
      }
    }
  }

  /** The value the loader settles on for `k`, given the dict the files produced. */
  function Settled(merged: Conf, fields: seq<string>, prefix: string, env: map<string, string>,
                   k: string): Setting
    requires k in merged || k in fields
  {
    if k in fields then Lookup(merged, k, prefix, env) else merged[k]
  }

  /**
   * Given the merged files, the loader returns every merged key and every required field, each
   * with its settled value, exactly when no settled value is `None`; otherwise it raises
   * `KeyError` naming every key whose settled value is `None`, required or not.
   */
  lemma ResolveCharacterisation(merged: Conf, fields: seq<string>, prefix: string, env: map<string, string>)
    ensures Resolve(merged, fields, prefix, env).Ok? <==>
            forall k :: k in merged.Keys + FieldSet(fields) ==> Settled(merged, fields, prefix, env, k) != None
    ensures var r := Resolve(merged, fields, prefix, env);
            r.Ok? ==> r.value == map k | k in merged.Keys + FieldSet(fields) :: Settled(merged, fields, prefix, env, k)
    ensures var r := Resolve(merged, fields, prefix, env);
            r.Err? ==> r.error.missing ==
                       set k | k in merged.Keys + FieldSet(fields) && Settled(merged, fields, prefix, env, k) == None
  {
    var keys := merged.Keys + FieldSet(fields);
    var c := ApplyEnv(merged, fields, prefix, env);
    ApplyEnvResolves(merged, fields, prefix, env);
    forall k | k in keys ensures c[k] == Settled(merged, fields, prefix, env, k) { }
    assert c == map k | k in keys :: Settled(merged, fields, prefix, env, k);
    assert Missing(c) == set k | k in keys && Settled(merged, fields, prefix, env, k) == None;
    if Missing(c) == {} {
      forall k | k in keys ensures Settled(merged, fields, prefix, env, k) != None {
        assert k !in Missing(c);
      }
    }
  }

  /** A successful load never holds `None`. */
  lemma LoadedValuesAreSet(name: string, prefix: string, fields: seq<string>, home: string,
                           env: map<string, string>, files: FileSystem)
    requires Load(name, prefix, fields, home, env, files).Ok?
    ensures var c := Load(name, prefix, fields, home, env, files).value;
            forall f :: f in fields ==> f in c && c[f] != None
    ensures var c := Load(name, prefix, fields, home, env, files).value;
            forall k :: k in c ==> c[k].Some?
  {
    var merged := MergeFiles(CandidatePaths(name, home, env), files);
    ResolveCharacterisation(merged, fields, prefix, env);
  }

  /** A variable set for a required field beats every file. */
  lemma EnvironmentOverridesFiles(name: string, prefix: string, fields: seq<string>, home: string,
                                  env: map<string, string>, files: FileSystem, f: string)
    requires f in fields && EnvVarName(prefix, f) in env
    ensures match Load(name, prefix, fields, home, env, files)
            case Ok(c) => f in c && c[f] == Some(env[EnvVarName(prefix, f)])
            case Err(e) => f !in e.missing
  {
    var merged := MergeFiles(CandidatePaths(name, home, env), files);
    ApplyEnvResolves(merged, fields, prefix, env);
  }

  /** A required field that no existing file defines and no variable sets makes the load fail, naming it. */
  lemma UnresolvedFieldIsReported(name: string, prefix: string, fields: seq<string>, home: string,
                                  env: map<string, string>, files: FileSystem, f: string)
    requires f in fields && EnvVarName(prefix, f) !in env
    requires forall i :: !Defines(CandidatePaths(name, home, env), files, i, f)
    ensures Load(name, prefix, fields, home, env, files).Err?
    ensures f in Load(name, prefix, fields, home, env, files).error.missing
  {
    var paths := CandidatePaths(name, home, env);
    var merged := MergeFiles(paths, files);
    MergeFilesLastWins(paths, files, f);
    ResolveCharacterisation(merged, fields, prefix, env);
    assert Settled(merged, fields, prefix, env, f) == None;
  }

  /**
   * A key that is not required keeps the value of the last existing file that defines it;
   * if that value is null the load fails and names the key.
   */
  lemma UnrequiredKeyFromLastFile(name: string, prefix: string, fields: seq<string>, home: string,
                                  env: map<string, string>, files: FileSystem, k: string, i: int)
    requires k !in fields
    requires LastDefiner(CandidatePaths(name, home, env), files, i, k)
    ensures var v := files[CandidatePaths(name, home, env)[i]][k];
            match Load(name, prefix, fields, home, env, files)
            case Ok(c) => k in c && c[k] == v
            case Err(e) => (k in e.missing <==> v == None)
    ensures files[CandidatePaths(name, home, env)[i]][k] == None ==>
              Load(name, prefix, fields, home, env, files).Err? &&
              k in Load(name, prefix, fields, home, env, files).error.missing
  {
    var paths := CandidatePaths(name, home, env);
    var merged := MergeFiles(paths, files);
    MergeFilesLastWins(paths, files, k);
    ApplyEnvResolves(merged, fields, prefix, env);
    if Load(name, prefix, fields, home, env, files).Ok? {
      LoadedValuesAreSet(name, prefix, fields, home, env, files);
    }
  }

  /** `Join` of a non-empty directory without a trailing separator and a relative name. */
  lemma JoinRelative(a: string, b: string)
    requires a != [] && a[|a| - 1] != '/' && !IsAbsolute(b)
    ensures Join(a, b) == a + "/" + b
  {
  }

  /** With a relative name, the system-wide file is `/etc/{name}.yml`. */
  lemma EtcPathLayout(name: string)
    requires !IsAbsolute(name)
    ensures EtcPath(name) == "/etc/" + name + ".yml"
  {
  }

  /** With a relative name and a home without a trailing separator, the user file is `{home}/.config/{name}/connection.yml`. */
  lemma UserPathLayout(name: string, home: string)
    requires name != [] && !IsAbsolute(name) && name[|name| - 1] != '/'
    requires home != [] && home[|home| - 1] != '/'
    ensures UserPath(name, home) == home + "/.config/" + name + "/connection.yml"
  {
    var dir := home + "/.config";
    JoinRelative(home, ".config");
    assert dir[|dir| - 1] == 'g';
    var sub := dir + "/" + name;
    JoinRelative(dir, name);
    assert sub[|sub| - 1] == name[|name| - 1];
    JoinRelative(sub, "connection.yml");
  }

  /** The candidates in precedence order: the `CONDA_ETC_` file (when set), then `/etc`, then the user's file. */
  lemma CandidatePathsLayout(name: string, home: string, env: map<string, string>)
    requires name != [] && !IsAbsolute(name) && name[|name| - 1] != '/'
    requires home != [] && home[|home| - 1] != '/'
    requires CondaEtcVar in env ==> env[CondaEtcVar] != [] && env[CondaEtcVar][|env[CondaEtcVar]| - 1] != '/'
    ensures CandidatePaths(name, home, env) ==
              (if CondaEtcVar in env then [env[CondaEtcVar] + "/" + name + ".yml"] else [])
              + ["/etc/" + name + ".yml", home + "/.config/" + name + "/connection.yml"]
  {
    EtcPathLayout(name);
    UserPathLayout(name, home);
    var file := name + ".yml";
    assert !IsAbsolute(file) by { assert file[0] == name[0]; }
    if CondaEtcVar in env {
      var conda := env[CondaEtcVar];
      JoinRelative(conda, file);
      assert conda + "/" + file == conda + "/" + name + ".yml";
    }
  }

  /** Two fields share a variable exactly when they agree up to ASCII case and space versus underscore. */
  lemma EnvVarNameCollision(prefix: string, f: string, g: string)
    ensures EnvVarName(prefix, f) == EnvVarName(prefix, g) <==>
            |f| == |g| && forall i :: 0 <= i < |f| ==> Canonical(f[i]) == Canonical(g[i])
  {
    var sf, sg := ReplaceSpaces(Upper(f)), ReplaceSpaces(Upper(g));
    assert forall i :: 0 <= i < |f| ==> sf[i] == Canonical(f[i]);
    assert forall i :: 0 <= i < |g| ==> sg[i] == Canonical(g[i]);
    if EnvVarName(prefix, f) == EnvVarName(prefix, g) {
      var n := |prefix| + 1;
      assert sf == EnvVarName(prefix, f)[n..];
      assert sg == EnvVarName(prefix, g)[n..];
    }
  }

  /** The variable names of the worked scenario. */
  lemma ScenarioVarNames()
    ensures EnvVarName("MY", "host") == "MY_HOST"
    ensures EnvVarName("MY", "port") == "MY_PORT"
  {
  }

  /** The spelled-out paths of the worked scenario. */
  lemma ScenarioPathLiterals()
    ensures "/etc/" + "myservice" + ".yml" == "/etc/myservice.yml"
    ensures "/home/user" + "/.config/" + "myservice" + "/connection.yml"
            == "/home/user/.config/myservice/connection.yml"
  {
  }

  /** The candidates of the worked scenario. */
  lemma ScenarioPaths()
    ensures CandidatePaths("myservice", "/home/user", map["MY_PORT" := "2"])
            == ["/etc/myservice.yml", "/home/user/.config/myservice/connection.yml"]
  {
    assert |CondaEtcVar| != |"MY_PORT"|;
    assert "myservice"[0] == 'm' && "myservice"[8] == 'e' && "/home/user"[9] == 'r';
    EtcPathLayout("myservice");
    UserPathLayout("myservice", "/home/user");
    ScenarioPathLiterals();
  }

  /** In the worked scenario only `/etc/myservice.yml` exists, so the merge is its content. */
  lemma ScenarioMerge()
    ensures var etc := map["host" := Some("a"), "port" := Some("1")];
            MergeFiles(["/etc/myservice.yml", "/home/user/.config/myservice/connection.yml"],
                       map["/etc/myservice.yml" := etc]) == etc
  {
  }

  /** In the worked scenario `MY_PORT` replaces the file's port and the host stays. */
  lemma ScenarioResolve()
    ensures Resolve(map["host" := Some("a"), "port" := Some("1")], ["host", "port"], "MY", map["MY_PORT" := "2"])
            == Ok(map["host" := Some("a"), "port" := Some("2")])
  {
    var etc := map["host" := Some("a"), "port" := Some("1")];
    var env := map["MY_PORT" := "2"];
    ScenarioVarNames();
    ApplyEnvResolves(etc, ["host", "port"], "MY", env);
    var c := ApplyEnv(etc, ["host", "port"], "MY", env);
    assert c.Keys == {"host", "port"};
    assert c == map["host" := Some("a"), "port" := Some("2")];
    assert Missing(c) == {};
  }

  /** The worked scenario: `/etc/myservice.yml` holds host and port, `MY_PORT=2` overrides the port. */
  lemma EtcFileWithEnvOverride()
    ensures var files := map["/etc/myservice.yml" := map["host" := Some("a"), "port" := Some("1")]];
            Load("myservice", "MY", ["host", "port"], "/home/user", map["MY_PORT" := "2"], files)
            == Ok(map["host" := Some("a"), "port" := Some("2")])
  {
    ScenarioPaths();
    ScenarioMerge();
    ScenarioResolve();
  }
}
