/** `get_app_configuration`: defaults, then the version short-circuit, then the
    file, the environment and the command line, in that order. */
module Resolver {
  import opened Results
  import opened ConfigTree
  import opened Merging
  import opened Schema
  import opened Errors
  import opened FileLayer
  import opened EnvLayer
  import opened CliLayer

  /** `Config.DEFAULT_CONFIG`, an immutable value that every resolution starts from. */
  const Defaults: Tree := map[
    "template" := Dict(map[
      "template_name" := Str("pymodule"),
      "template_version" := Str("3.4.1"),
      "template_description" := Dict(map[
        "text" := Str("Template with CLI interface, configuration options in a file, logger and unit tests"),
        "content-type" := Str("text/plain")])]),
    "logging" := Dict(map["verbose" := Bool(false), "version_option" := Bool(false)]),
    "parameters" := Dict(map["param1" := Int(1), "param2" := Int(2)]),
    "positionals" := Dict(map["input_file" := Str(""), "output_file" := Str("")])]

  /** The defaults hold the four sections, each a dictionary, and every leaf at
      its default value. */
  lemma DefaultsShape()
    ensures Defaults.Keys == Sections + {"template"}
    ensures SectionsAreDicts(Defaults) && Defaults["template"].Dict?
    ensures SectionsExact(Defaults)
    ensures forall l :: Lookup(Defaults, SectionOf(l), KeyOf(l)) == Some(DefaultValue(l))
  {
  }

  /** The default of each leaf. */
  function DefaultValue(l: Leaf): Value {
    match l
    case Verbose => Bool(false)
    case VersionOption => Bool(false)
    case Param1 => Int(1)
    case Param2 => Int(2)
    case InputFile => Str("")
    case OutputFile => Str("")
  }

  /** `if args.version_option:` — only a true flag short-circuits. */
  predicate VersionRequested(ns: Namespace) {
    ns.versionOption == Some(true)
  }

  /** The configuration returned for `-v`: the defaults with the flag set. It
      has the defaults' keys and `template`, `version_option` is true and every
      other leaf holds its default. */
  function VersionConfig(): (r: Tree)
    ensures r.Keys == Defaults.Keys && r["template"] == Defaults["template"]
    ensures SectionsExact(r)
    ensures forall l :: Lookup(r, SectionOf(l), KeyOf(l)) ==
              Some(if l == VersionOption then Bool(true) else DefaultValue(l))
  {
    DefaultsShape();
    StoreKeepsExact(Defaults, "logging", "version_option", Bool(true));
    Store(Defaults, "logging", "version_option", Bool(true))
  }

  /** The whole pipeline. Every error it can return comes from the file layer:
      the environment and command-line layers cannot fail on the sections the
      defaults provide. */
  function Resolve(ns: Namespace, fs: FileSystem, env: Environment): (r: Result<Tree, ConfigError>)
    ensures VersionRequested(ns) ==> r == Ok(VersionConfig())
    ensures !VersionRequested(ns) ==> (r.Err? <==> LoadConfigFile(Defaults, ns.config, fs).Err?)
    ensures !VersionRequested(ns) && r.Err? ==> r.error == LoadConfigFile(Defaults, ns.config, fs).error
    ensures r.Ok? ==> r.value.Keys == Defaults.Keys && r.value["template"] == Defaults["template"]
    ensures r.Ok? ==> SectionsExact(r.value)
  {
    if VersionRequested(ns) then Ok(VersionConfig())
    else
      var loaded :- LoadConfigFile(Defaults, ns.config, fs);
      var withEnv := LoadConfigEnv(loaded.config, env);
      DefaultsShape();
      LayersKeepShape(Defaults, ns, fs, env);
      MergeCliOptions(withEnv, Some(ns))
  }

  /** Once the file layer has accepted a file, a base whose sections are exact
      keeps its keys, its exact sections and every key outside the sections
      through the file and environment layers, so the CLI layer cannot fail and
      keeps them too. */
  lemma LayersKeepShape(base: Tree, ns: Namespace, fs: FileSystem, env: Environment)
    requires SectionsExact(base)
    requires LoadConfigFile(base, ns.config, fs).Ok?
    ensures var t := LoadConfigEnv(LoadConfigFile(base, ns.config, fs).value.config, env);
            && MergeCliOptions(t, Some(ns)).Ok?
            && MergeCliOptions(t, Some(ns)).value.Keys == base.Keys
            && SectionsExact(MergeCliOptions(t, Some(ns)).value)
            && (forall s | s in base && s !in Sections :: MergeCliOptions(t, Some(ns)).value[s] == base[s])
    ensures "template" in base ==>
              var t := LoadConfigEnv(LoadConfigFile(base, ns.config, fs).value.config, env);
              MergeCliOptions(t, Some(ns)).value["template"] == base["template"]
  {
    assert "template" !in Sections;
    var loaded := LoadConfigFile(base, ns.config, fs).value;
    if ns.config != "" {
      FileLayerShape(base, loaded.contents);
    }
    EnvLayerShape(loaded.config, env);
    CliLayerShape(LoadConfigEnv(loaded.config, env), ns);
  }

  /** `t[section][key] = v` for a declared key keeps the sections exact. */
  lemma StoreKeepsExact(t: Tree, section: string, key: string, v: Value)
    requires SectionsExact(t) && section in Sections && key in SectionKeys(section)
    ensures SectionsExact(Store(t, section, key, v))
  {
    var r := Store(t, section, key, v);
    forall s | s in Sections
      ensures SectionIsDict(r, s) && r[s].d.Keys == SectionKeys(s)
    {
      if s == section {
        assert r[s] == Dict(t[s].d[key := v]);
      }
    }
  }

  /** Merging a conforming file adds no top-level key, keeps the sections
      exact, and never touches a key outside the declared sections. */
  lemma FileLayerShape(base: Tree, file: Tree)
    requires Conforms(file) && SectionsExact(base)
    ensures Merge(base, file).Keys == base.Keys
    ensures SectionsExact(Merge(base, file))
    ensures forall s | s in base && s !in Sections :: Merge(base, file)[s] == base[s]
  {
    var r := Merge(base, file);
    SectionsExactAreDicts(base);
    assert WrittenKeys(file) <= Sections;
    MergeKeys(base, file);
    forall s | s in Sections
      ensures SectionIsDict(r, s) && r[s].d.Keys == SectionKeys(s)
    {
      assert SectionIsDict(base, s);
      if s in file {
        assert SectionConforms(s, file[s]);
        MergeRecurses(base, file, s);
        MergeKeys(base[s].d, file[s].d);
        assert WrittenKeys(file[s].d) <= SectionKeys(s);
      } else {
        MergeAbsentKeepsBase(base, file, s);
      }
    }
    forall s | s in base && s !in Sections
      ensures r[s] == base[s]
    {
      MergeAbsentKeepsBase(base, file, s);
    }
  }

  /** The environment layer adds no top-level key, keeps the sections exact,
      and leaves keys outside the sections alone. */
  lemma EnvLayerShape(t: Tree, env: Environment)
    requires SectionsExact(t)
    ensures LoadConfigEnv(t, env).Keys == t.Keys
    ensures SectionsExact(LoadConfigEnv(t, env))
    ensures forall s | s in t && s !in Sections :: LoadConfigEnv(t, env)[s] == t[s]
  {
    var o := EnvOverlay(env);
    var r := Merge(t, o);
    assert LoadConfigEnv(t, env) == r;
    SectionsExactAreDicts(t);
    assert "parameters" in t && "positionals" in t;
    assert r.Keys == t.Keys;
    forall s | s in Sections
      ensures SectionIsDict(r, s) && r[s].d.Keys == SectionKeys(s)
    {
      assert SectionIsDict(t, s);
      if s in o {
        MergeRecurses(t, o, s);
        MergeKeys(t[s].d, o[s].d);
        assert WrittenKeys(o[s].d) <= SectionKeys(s);
      } else {
        MergeAbsentKeepsBase(t, o, s);
      }
    }
  }

  /** On exact sections the CLI layer cannot fail; it adds no key, keeps the
      sections exact, and leaves keys outside the sections alone. */
  lemma CliLayerShape(t: Tree, ns: Namespace)
    requires SectionsExact(t)
    ensures MergeCliOptions(t, Some(ns)).Ok?
    ensures MergeCliOptions(t, Some(ns)).value.Keys == t.Keys
    ensures SectionsExact(MergeCliOptions(t, Some(ns)).value)
    ensures forall s | s in t && s !in Sections :: MergeCliOptions(t, Some(ns)).value[s] == t[s]
  {
    SectionsExactAreDicts(t);
    CliSucceedsOnSections(t, ns);
    var r := MergeCliOptions(t, Some(ns)).value;
    assert r == Overwrite(t, ns, AllLeaves);
    OverwriteLookup(t, ns, AllLeaves, "logging", "verbose");
    OverwriteExact(t, ns, AllLeaves);
    OverwriteOutside(t, ns, AllLeaves);
  }

  /** The value a leaf takes from the configuration file, when a file is used
      and sets it. */
  function FileValue(fs: FileSystem, path: string, l: Leaf): Option<Value> {
    if path != "" && path in fs && fs[path].Parsed? then Lookup(fs[path].tree, SectionOf(l), KeyOf(l))
    else None
  }

  /** No file is requested, or the requested one exists, parses and conforms. */
  predicate FileUsable(fs: FileSystem, path: string) {
    path == "" || (path in fs && fs[path].Parsed? && Conforms(fs[path].tree))
  }

  /** With no file, or a usable one, and no `-v`, resolution succeeds. */
  lemma ResolveSucceeds(ns: Namespace, fs: FileSystem, env: Environment)
    requires !VersionRequested(ns) && FileUsable(fs, ns.config)
    ensures LoadConfigFile(Defaults, ns.config, fs).Ok?
    ensures Resolve(ns, fs, env).Ok?
  {
  }

  /** After the file layer every leaf holds the file's value if the file sets
      it, and the default otherwise. */
  lemma FileLayerLeaf(path: string, fs: FileSystem, l: Leaf)
    requires LoadConfigFile(Defaults, path, fs).Ok?
    ensures SectionsAreDicts(LoadConfigFile(Defaults, path, fs).value.config)
    ensures Lookup(LoadConfigFile(Defaults, path, fs).value.config, SectionOf(l), KeyOf(l)) ==
              Some(FileValue(fs, path, l).GetOr(DefaultValue(l)))
  {
    DefaultsShape();
    if path != "" {
      var file := fs[path].tree;
      FileLayerShape(Defaults, file);
      SectionsExactAreDicts(Merge(Defaults, file));
      ConformingEntry(file, SectionOf(l), KeyOf(l));
      MergeLookup(Defaults, file, SectionOf(l), KeyOf(l));
    }
  }

  /** After the environment layer a leaf holds the variable's raw string if it
      is set, and what it held before otherwise. */
  lemma EnvLayerLeaf(t: Tree, env: Environment, l: Leaf)
    requires SectionsAreDicts(t)
    ensures SectionsAreDicts(LoadConfigEnv(t, env))
    ensures Lookup(LoadConfigEnv(t, env), SectionOf(l), KeyOf(l)) ==
              if EnvValue(env, l).Some? then EnvValue(env, l) else Lookup(t, SectionOf(l), KeyOf(l))
  {
    var r := LoadConfigEnv(t, env);
    assert SectionIsDict(r, "logging") && SectionIsDict(r, "parameters") && SectionIsDict(r, "positionals");
  }

  /** After the CLI layer a leaf holds its option's value if the option is
      set, and what it held before otherwise. */
  lemma CliLayerLeaf(t: Tree, ns: Namespace, l: Leaf)
    requires SectionsAreDicts(t)
    ensures MergeCliOptions(t, Some(ns)).Ok?
    ensures Lookup(MergeCliOptions(t, Some(ns)).value, SectionOf(l), KeyOf(l)) ==
              if CliValue(ns, l).Some? then CliValue(ns, l) else Lookup(t, SectionOf(l), KeyOf(l))
  {
    CliSucceedsOnSections(t, ns);
    LeavesAreDeclared();
    assert LeafAt(SectionOf(l), KeyOf(l)) == Some(l);
    CliOverwritesExactlySetOptions(t, ns, SectionOf(l), KeyOf(l));
  }

  /** Last writer wins, leaf by leaf: a set CLI option beats the environment,
      which beats the file, which beats the default. */
  lemma {:induction false} ResolvePrecedence(ns: Namespace, fs: FileSystem, env: Environment, l: Leaf)
    requires !VersionRequested(ns)
    requires FileUsable(fs, ns.config)
    ensures Resolve(ns, fs, env).Ok?
    ensures Lookup(Resolve(ns, fs, env).value, SectionOf(l), KeyOf(l)) ==
              Some(if CliValue(ns, l).Some? then CliValue(ns, l).value
                   else if EnvValue(env, l).Some? then EnvValue(env, l).value
                   else FileValue(fs, ns.config, l).GetOr(DefaultValue(l)))
  {
    ResolveSucceeds(ns, fs, env);
    var loaded := LoadConfigFile(Defaults, ns.config, fs).value.config;
    FileLayerLeaf(ns.config, fs, l);
    var e := LoadConfigEnv(loaded, env);
    EnvLayerLeaf(loaded, env, l);
    CliLayerLeaf(e, ns, l);
    assert Resolve(ns, fs, env) == MergeCliOptions(e, Some(ns));
  }

  /** `-v` answers from the defaults alone: whatever the file system and the
      environment hold, even a missing or malformed file, the result is the
      same, with `version_option` true and every other leaf at its default. */
  lemma VersionShortCircuit(ns: Namespace, fs: FileSystem, env: Environment, fs': FileSystem, env': Environment, l: Leaf)
    requires VersionRequested(ns)
    ensures Resolve(ns, fs, env) == Resolve(ns, fs', env')
    ensures Resolve(ns, fs, env).Ok?
    ensures Lookup(Resolve(ns, fs, env).value, SectionOf(l), KeyOf(l)) ==
              Some(if l == VersionOption then Bool(true) else DefaultValue(l))
  {
    DefaultsShape();
  }

  /** `--no-config` (the empty path) never consults the file system: the result
      is the defaults with the environment and CLI layers applied. */
  lemma NoConfigBypass(ns: Namespace, fs: FileSystem, env: Environment)
    requires !VersionRequested(ns) && ns.config == ""
    ensures Resolve(ns, fs, env).Ok?
    ensures Resolve(ns, fs, env) == MergeCliOptions(LoadConfigEnv(Defaults, env), Some(ns))
  {
  }

  /** A requested file that is missing aborts resolution with
      `FileNotFoundError`, before the environment and the CLI are consulted. */
  lemma MissingFileAborts(ns: Namespace, fs: FileSystem, env: Environment)
    requires !VersionRequested(ns) && ns.config != "" && ns.config !in fs
    ensures Resolve(ns, fs, env) == Err(FileNotFound(ns.config))
  {
  }

  /** A file that breaks the schema aborts resolution with the violations
      found, whatever the environment and the CLI would have set. */
  lemma InvalidFileAborts(ns: Namespace, fs: FileSystem, env: Environment)
    requires !VersionRequested(ns) && ns.config != "" && ns.config in fs && fs[ns.config].Parsed?
    requires !Conforms(fs[ns.config].tree)
    ensures Resolve(ns, fs, env).Err?
    ensures Resolve(ns, fs, env).error == InvalidConfig(ns.config, Violations(fs[ns.config].tree))
    ensures Resolve(ns, fs, env).error.violations != {}
  {
  }

  /** Environment values are never converted and the merged result is never
      validated again: a set `PYMODULE_PARAM1` with no `--param1` leaves a
      string where the schema declares a number (`HasKind` holds of no `Str` for
      `Number`). */
  lemma EnvStringReachesNumberLeaf(ns: Namespace, fs: FileSystem, env: Environment)
    requires !VersionRequested(ns) && FileUsable(fs, ns.config)
    requires ns.param1.None? && "PYMODULE_PARAM1" in env
    ensures Resolve(ns, fs, env).Ok?
    ensures Lookup(Resolve(ns, fs, env).value, "parameters", "param1") == Some(Str(env["PYMODULE_PARAM1"]))
  {
    ResolvePrecedence(ns, fs, env, Param1);
    assert CliValue(ns, Param1).None?;
    assert EnvValue(env, Param1) == Some(Str(env["PYMODULE_PARAM1"]));
    assert SectionOf(Param1) == "parameters" && KeyOf(Param1) == "param1";
  }

  /** The defaults themselves carry `template`, which the schema does not
      declare: the schema can only ever be applied to the file. */
  lemma DefaultsOutsideSchema()
    ensures !Conforms(Defaults)
    ensures UndeclaredSection("template") in Violations(Defaults)
  {
    DefaultsShape();
  }
}
