/** `Config.load_config_env`: the environment layer. The process environment is
    a parameter, a map from variable name to value; an unset variable is a name
    outside the map, which `os.getenv` reports as `None`. */
module EnvLayer {
  import opened Results
  import opened ConfigTree
  import opened Merging
  import opened Schema

  type Environment = map<string, string>

  /** The variable that overrides a leaf, if any; the `logging` leaves have none. */
  function EnvVar(l: Leaf): Option<string> {
    match l
    case Param1 => Some("PYMODULE_PARAM1")
    case Param2 => Some("PYMODULE_PARAM2")
    case InputFile => Some("PYMODULE_INPUT_FILE")
    case OutputFile => Some("PYMODULE_OUTPUT_FILE")
    case _ => None
  }

  /** `os.getenv(name)`: the raw string, never converted to a number, or `None`. */
  function GetEnv(env: Environment, name: string): Value {
    if name in env then Str(env[name]) else Null
  }

  /** The value a leaf takes from the environment, when its variable is set. */
  function EnvValue(env: Environment, l: Leaf): Option<Value> {
    match EnvVar(l)
    case Some(name) => if name in env then Some(Str(env[name])) else None
    case None => None
  }

  /** The overlay built from the four variables, unset ones as `None`: it has
      exactly the two sections the variables belong to, each declaring exactly
      its schema keys, and each leaf holds `os.getenv` of its own variable. */
  function EnvOverlay(env: Environment): (r: Tree)
    ensures r.Keys == {"parameters", "positionals"}
    ensures forall s | s in r :: r[s].Dict? && r[s].d.Keys == SectionKeys(s)
    ensures forall l | EnvVar(l).Some? ::
              Lookup(r, SectionOf(l), KeyOf(l)) == Some(GetEnv(env, EnvVar(l).value))
  {
    map[
      "parameters" := Dict(map[
        "param1" := GetEnv(env, "PYMODULE_PARAM1"),
        "param2" := GetEnv(env, "PYMODULE_PARAM2")]),
      "positionals" := Dict(map[
        "input_file" := GetEnv(env, "PYMODULE_INPUT_FILE"),
        "output_file" := GetEnv(env, "PYMODULE_OUTPUT_FILE")])]
  }

  /** The overlay mentions exactly the leaves that have a variable, each with the
      raw string when it is set and `None` otherwise. */
  lemma EnvOverlayLeaves(env: Environment, l: Leaf)
    ensures EnvVar(l).Some? ==>
              Lookup(EnvOverlay(env), SectionOf(l), KeyOf(l)) == Some(GetEnv(env, EnvVar(l).value))
    ensures EnvVar(l).None? ==> At(EnvOverlay(env), [SectionOf(l)]).None?
  {
  }

  /** `load_config_env`: the configuration after merging the overlay. A set
      variable overwrites its leaf with the raw string, an unset one leaves the
      inherited value, and the other sections do not change. */
  function LoadConfigEnv(config: Tree, env: Environment): (r: Tree)
    ensures r.Keys == config.Keys + {"parameters", "positionals"}
    ensures forall s | s in config && s != "parameters" && s != "positionals" :: r[s] == config[s]
    ensures forall s | SectionIsDict(config, s) :: SectionIsDict(r, s)
    ensures forall l | EnvVar(l).Some? && SectionIsDict(config, SectionOf(l)) ::
              Lookup(r, SectionOf(l), KeyOf(l)) ==
                (match EnvValue(env, l)
                 case Some(v) => Some(v)
                 case None => Lookup(config, SectionOf(l), KeyOf(l)))
    ensures forall s, k | EnvSection(s) && SectionIsDict(config, s) && k !in SectionKeys(s) ::
              Lookup(r, s, k) == Lookup(config, s, k)
    ensures forall s | EnvSection(s) && !SectionIsDict(config, s) :: r[s] == EnvOverlay(env)[s]
  {
    LoadConfigEnvFacts(config, env);
    LoadConfigEnvSections(config, env);
    Merge(config, EnvOverlay(env))
  }

  /** The two sections the environment overlay writes into. */
  predicate EnvSection(s: string) {
    s == "parameters" || s == "positionals"
  }

  /** Inside the two sections the overlay writes, undeclared entries keep their
      values; where a section is missing or not a dictionary, the overlay's
      section is stored wholesale. */
  lemma LoadConfigEnvSections(config: Tree, env: Environment)
    ensures var r := Merge(config, EnvOverlay(env));
            forall s, k | EnvSection(s) && SectionIsDict(config, s) && k !in SectionKeys(s) ::
              Lookup(r, s, k) == Lookup(config, s, k)
    ensures var r := Merge(config, EnvOverlay(env));
            forall s | EnvSection(s) && !SectionIsDict(config, s) :: s in r && r[s] == EnvOverlay(env)[s]
  {
    var o := EnvOverlay(env);
    var r := Merge(config, o);
    forall s, k | EnvSection(s) && SectionIsDict(config, s) && k !in SectionKeys(s)
      ensures Lookup(r, s, k) == Lookup(config, s, k)
    {
      MergeRecurses(config, o, s);
      assert k !in o[s].d;
      MergeAbsentKeepsBase(config[s].d, o[s].d, k);
    }
    forall s | EnvSection(s) && !SectionIsDict(config, s)
      ensures s in r && r[s] == o[s]
    {
      MergeReplaces(config, o, s);
    }
  }

  /** Where a leaf's section is missing or not a dictionary, the overlay's
      section is stored wholesale: an unset variable leaves `None` at its leaf,
      not the inherited value. */
  lemma EnvIntoEmptyKeepsNone(config: Tree, env: Environment, l: Leaf)
    requires EnvVar(l).Some? && EnvVar(l).value !in env
    requires !SectionIsDict(config, SectionOf(l))
    ensures Lookup(LoadConfigEnv(config, env), SectionOf(l), KeyOf(l)) == Some(Null)
  {
    assert EnvSection(SectionOf(l));
  }

  /** The facts `LoadConfigEnv` promises, proved from the laws of `Merge`. */
  lemma LoadConfigEnvFacts(config: Tree, env: Environment)
    ensures var r := Merge(config, EnvOverlay(env));
            && r.Keys == config.Keys + {"parameters", "positionals"}
            && (forall s | s in config && s != "parameters" && s != "positionals" :: r[s] == config[s])
            && (forall s | SectionIsDict(config, s) :: SectionIsDict(r, s))
    ensures var r := Merge(config, EnvOverlay(env));
            forall l | EnvVar(l).Some? && SectionIsDict(config, SectionOf(l)) ::
              Lookup(r, SectionOf(l), KeyOf(l)) ==
                (match EnvValue(env, l)
                 case Some(v) => Some(v)
                 case None => Lookup(config, SectionOf(l), KeyOf(l)))
  {
    var o := EnvOverlay(env);
    MergeKeys(config, o);
    assert WrittenKeys(o) == {"parameters", "positionals"};
    forall s | s in config && s != "parameters" && s != "positionals"
      ensures Merge(config, o)[s] == config[s]
    {
      MergeAbsentKeepsBase(config, o, s);
    }
    forall l | EnvVar(l).Some? && SectionIsDict(config, SectionOf(l))
      ensures var r := Merge(config, EnvOverlay(env));
              Lookup(r, SectionOf(l), KeyOf(l)) ==
                (match EnvValue(env, l)
                 case Some(v) => Some(v)
                 case None => Lookup(config, SectionOf(l), KeyOf(l)))
    {
      EnvOverlayLeaves(env, l);
      MergeLookup(config, EnvOverlay(env), SectionOf(l), KeyOf(l));
    }
  }
}
