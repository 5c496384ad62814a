/** `Config.merge_cli_options`: the command-line layer. The parsed options are
    given as a record; the argument parser itself is not part of this model. */
module CliLayer {
  import opened Results
  import opened ConfigTree
  import opened Schema
  import opened Errors

  /** The fields of the parsed `argparse.Namespace` that the resolver reads.
      `None` is an option the user did not give. */
  datatype Namespace = Namespace(
    config: string,
    versionOption: Option<bool>,
    verbose: Option<bool>,
    param1: Option<int>,
    param2: Option<int>,
    inputFile: Option<string>,
    outputFile: Option<string>)

  /** What the parser produces: `-v` is a `store_true` flag whose default is
      `False`, so `version_option` is never `None`; the others default to `None`. */
  predicate FromParser(ns: Namespace) {
    ns.versionOption.Some?
  }

  /** The value the options give a leaf, if the option is set. */
  function CliValue(ns: Namespace, l: Leaf): Option<Value> {
    match l
    case VersionOption => if ns.versionOption.Some? then Some(Bool(ns.versionOption.value)) else None
    case Verbose => if ns.verbose.Some? then Some(Bool(ns.verbose.value)) else None
    case Param1 => if ns.param1.Some? then Some(Int(ns.param1.value)) else None
    case Param2 => if ns.param2.Some? then Some(Int(ns.param2.value)) else None
    case InputFile => if ns.inputFile.Some? then Some(Str(ns.inputFile.value)) else None
    case OutputFile => if ns.outputFile.Some? then Some(Str(ns.outputFile.value)) else None
  }

  /** The order in which the source writes the options. */
  const CliOrder: seq<Leaf> := [VersionOption, Verbose, Param1, Param2, InputFile, OutputFile]

  /** The leaf stored at `section`/`key`, if the schema declares one there. */
  function LeafAt(section: string, key: string): (r: Option<Leaf>)
    ensures r.Some? ==> SectionOf(r.value) == section && KeyOf(r.value) == key
    ensures forall l :: SectionOf(l) == section && KeyOf(l) == key ==> r == Some(l)
  {
    if section == "logging" && key == "verbose" then Some(Verbose)
    else if section == "logging" && key == "version_option" then Some(VersionOption)
    else if section == "parameters" && key == "param1" then Some(Param1)
    else if section == "parameters" && key == "param2" then Some(Param2)
    else if section == "positionals" && key == "input_file" then Some(InputFile)
    else if section == "positionals" && key == "output_file" then Some(OutputFile)
    else None
  }

  /** The value written at `section`/`key` by the options of the leaves in `ls`. */
  function Written(ns: Namespace, ls: set<Leaf>, section: string, key: string): Option<Value> {
    match LeafAt(section, key)
    case Some(l) => if l in ls then CliValue(ns, l) else None
    case None => None
  }

  /** The keys of `section` that the options of the leaves in `ls` write. */
  function SetOptionKeys(ns: Namespace, ls: set<Leaf>, section: string): set<string> {
    set l | l in ls && SectionOf(l) == section && CliValue(ns, l).Some? :: KeyOf(l)
  }

  /** Section `section`'s dictionary `d` with the set options of the leaves in
      `ls` written in. */
  function WriteSection(d: Tree, ns: Namespace, ls: set<Leaf>, section: string): Tree {
    map k | k in d.Keys + SetOptionKeys(ns, ls, section) ::
      match Written(ns, ls, section, k)
      case Some(v) => v
      case None => d[k]
  }

  /** The declarative reading of the CLI layer: inside every section dictionary
      the set options of the leaves in `ls` are written, and nothing else moves. */
  function Overwrite(t: Tree, ns: Namespace, ls: set<Leaf>): Tree {
    map s | s in t :: if t[s].Dict? then Dict(WriteSection(t[s].d, ns, ls, s)) else t[s]
  }

  /** `if option is not None: config[section][key] = option` for one leaf: an
      unset option changes nothing, a set one is stored at its leaf and moves
      nothing else, and writing into a missing or non-dictionary section raises,
      naming that section. */
  function Assign(t: Tree, ns: Namespace, l: Leaf): (r: Result<Tree, ConfigError>)
    ensures r.Ok? <==> CliValue(ns, l).None? || SectionIsDict(t, SectionOf(l))
    ensures CliValue(ns, l).None? ==> r == Ok(t)
    ensures r.Ok? && CliValue(ns, l).Some? ==>
              && Lookup(r.value, SectionOf(l), KeyOf(l)) == CliValue(ns, l)
              && (forall s, k | (s, k) != (SectionOf(l), KeyOf(l)) :: Lookup(r.value, s, k) == Lookup(t, s, k))
              && r.value.Keys == t.Keys
              && (forall s | s in t && s != SectionOf(l) :: r.value[s] == t[s])
              && (forall s :: SectionIsDict(r.value, s) <==> SectionIsDict(t, s))
    ensures r.Err? ==> r == Err(SectionNotWritable(SectionOf(l)))
  {
    match CliValue(ns, l)
    case None => Ok(t)
    case Some(v) =>
      if SectionIsDict(t, SectionOf(l)) then Ok(Store(t, SectionOf(l), KeyOf(l), v))
      else Err(SectionNotWritable(SectionOf(l)))
  }

  /** The leaves of `ls` whose option is set but whose section cannot be written. */
  predicate Blocked(t: Tree, ns: Namespace, ls: set<Leaf>) {
    exists l | l in ls :: CliValue(ns, l).Some? && !SectionIsDict(t, SectionOf(l))
  }

  /** The first leaf of `leaves` whose option is set but whose section cannot be
      written, if any. */
  function FirstBlocked(t: Tree, ns: Namespace, leaves: seq<Leaf>): Option<Leaf>
    decreases |leaves|
  {
    if |leaves| == 0 then None
    else if CliValue(ns, leaves[0]).Some? && !SectionIsDict(t, SectionOf(leaves[0])) then Some(leaves[0])
    else FirstBlocked(t, ns, leaves[1..])
  }

  /** Which leaf is first blocked depends only on which sections are dictionaries. */
  lemma {:induction false} FirstBlockedSameSections(t: Tree, t': Tree, ns: Namespace, leaves: seq<Leaf>)
    requires forall s :: SectionIsDict(t, s) <==> SectionIsDict(t', s)
    ensures FirstBlocked(t, ns, leaves) == FirstBlocked(t', ns, leaves)
    decreases |leaves|
  {
    if |leaves| > 0 {
      FirstBlockedSameSections(t, t', ns, leaves[1..]);
    }
  }

  /** The writes of `leaves`, in order; the first failing write raises, naming
      the section of the first blocked leaf. */
  function AssignAll(t: Tree, ns: Namespace, leaves: seq<Leaf>): (r: Result<Tree, ConfigError>)
    ensures r.Ok? <==> !Blocked(t, ns, set l | l in leaves)
    ensures r.Ok? ==> r.value == Overwrite(t, ns, set l | l in leaves)
    ensures r.Err? ==> FirstBlocked(t, ns, leaves).Some? &&
                       r.error == SectionNotWritable(SectionOf(FirstBlocked(t, ns, leaves).value))
    decreases |leaves|
  {
    if |leaves| == 0 then
      assert (set l | l in leaves) == {};
      OverwriteNothing(t, ns);
      Ok(t)
    else
      var l := leaves[0];
      var rest := set l' | l' in leaves[1..];
      assert (set l' | l' in leaves) == rest + {l};
      match Assign(t, ns, l)
      case Err(e) => Err(e)
      case Ok(t') =>
        OverwriteAfterAssign(t, ns, l, rest);
        FirstBlockedSameSections(t, t', ns, leaves[1..]);
        AssignAll(t', ns, leaves[1..])
  }

  /** Writing no leaves changes nothing. */
  lemma OverwriteNothing(t: Tree, ns: Namespace)
    ensures Overwrite(t, ns, {}) == t
  {
    var r := Overwrite(t, ns, {});
    forall s | s in t && t[s].Dict?
      ensures r[s] == t[s]
    {
      assert SetOptionKeys(ns, {}, s) == {};
    }
  }

  /** Adding a leaf whose option is unset, or that lives in another section,
      does not change what is written into `section`. */
  lemma WriteSectionIgnores(d: Tree, ns: Namespace, l: Leaf, rest: set<Leaf>, section: string)
    requires CliValue(ns, l).None? || SectionOf(l) != section
    ensures WriteSection(d, ns, rest + {l}, section) == WriteSection(d, ns, rest, section)
  {
    assert SetOptionKeys(ns, rest + {l}, section) == SetOptionKeys(ns, rest, section);
    var a := WriteSection(d, ns, rest + {l}, section);
    var b := WriteSection(d, ns, rest, section);
    forall k | k in a
      ensures a[k] == b[k]
    {
      assert Written(ns, rest + {l}, section, k) == Written(ns, rest, section, k);
    }
  }

  /** Storing a leaf's option and then writing the rest equals writing all. */
  lemma WriteSectionAfterStore(d: Tree, ns: Namespace, l: Leaf, rest: set<Leaf>)
    requires CliValue(ns, l).Some?
    ensures WriteSection(d[KeyOf(l) := CliValue(ns, l).value], ns, rest, SectionOf(l))
            == WriteSection(d, ns, rest + {l}, SectionOf(l))
  {
    var s := SectionOf(l);
    var d' := d[KeyOf(l) := CliValue(ns, l).value];
    assert SetOptionKeys(ns, rest + {l}, s) == SetOptionKeys(ns, rest, s) + {KeyOf(l)};
    var a := WriteSection(d', ns, rest, s);
    var b := WriteSection(d, ns, rest + {l}, s);
    assert a.Keys == b.Keys;
    forall k | k in a
      ensures a[k] == b[k]
    {
      if k == KeyOf(l) {
        assert LeafAt(s, k) == Some(l);
      } else {
        assert Written(ns, rest + {l}, s, k) == Written(ns, rest, s, k);
      }
    }
  }

  /** One write followed by the rest equals writing all of them at once. */
  lemma OverwriteAfterAssign(t: Tree, ns: Namespace, l: Leaf, rest: set<Leaf>)
    requires Assign(t, ns, l).Ok?
    ensures Blocked(Assign(t, ns, l).value, ns, rest) <==> Blocked(t, ns, rest)
    ensures Overwrite(Assign(t, ns, l).value, ns, rest) == Overwrite(t, ns, rest + {l})
  {
    var t' := Assign(t, ns, l).value;
    var lhs := Overwrite(t', ns, rest);
    var rhs := Overwrite(t, ns, rest + {l});
    assert lhs.Keys == rhs.Keys;
    forall s | s in lhs
      ensures lhs[s] == rhs[s]
    {
      if t[s].Dict? {
        if CliValue(ns, l).Some? && SectionOf(l) == s {
          WriteSectionAfterStore(t[s].d, ns, l, rest);
        } else {
          WriteSectionIgnores(t[s].d, ns, l, rest, s);
        }
      }
    }
  }

  /** `merge_cli_options`: an absent namespace changes nothing; otherwise each
      set option overwrites its leaf, in the source's order, and a write into a
      missing or non-dictionary section raises. */
  function MergeCliOptions(config: Tree, cli: Option<Namespace>): (r: Result<Tree, ConfigError>)
    ensures cli.None? ==> r == Ok(config)
    ensures cli.Some? ==> (r.Ok? <==> !Blocked(config, cli.value, AllLeaves))
    ensures cli.Some? && r.Ok? ==> r.value == Overwrite(config, cli.value, AllLeaves)
    ensures r.Err? ==> FirstBlocked(config, cli.value, CliOrder).Some? &&
                       r.error == SectionNotWritable(SectionOf(FirstBlocked(config, cli.value, CliOrder).value))
  {
    if cli.None? then Ok(config)
    else
      assert (set l | l in CliOrder) == AllLeaves;
      AssignAll(config, cli.value, CliOrder)
  }

  /** No option is written into a dictionary outside the declared sections. */
  lemma WriteSectionOutside(d: Tree, ns: Namespace, ls: set<Leaf>, section: string)
    requires section !in Sections
    ensures WriteSection(d, ns, ls, section) == d
  {
    forall l | l in ls
      ensures SectionOf(l) != section
    {
      LeavesAreDeclared();
    }
    assert SetOptionKeys(ns, ls, section) == {};
  }

  /** Writing options never touches a key outside the declared sections. */
  lemma OverwriteOutside(t: Tree, ns: Namespace, ls: set<Leaf>)
    ensures forall s | s in t && s !in Sections :: Overwrite(t, ns, ls)[s] == t[s]
  {
    forall s | s in t && s !in Sections
      ensures Overwrite(t, ns, ls)[s] == t[s]
    {
      if t[s].Dict? {
        WriteSectionOutside(t[s].d, ns, ls, s);
      }
    }
  }

  /** Writing options adds only declared keys, so exact sections stay exact. */
  lemma OverwriteExact(t: Tree, ns: Namespace, ls: set<Leaf>)
    requires SectionsExact(t)
    ensures SectionsExact(Overwrite(t, ns, ls))
  {
    var r := Overwrite(t, ns, ls);
    LeavesAreDeclared();
    forall s | s in Sections
      ensures SectionIsDict(r, s) && r[s].d.Keys == SectionKeys(s)
    {
      assert SectionIsDict(t, s);
      assert r[s] == Dict(WriteSection(t[s].d, ns, ls, s));
      assert SetOptionKeys(ns, ls, s) <= SectionKeys(s);
    }
  }

  /** Reading one leaf back from `Overwrite`. */
  lemma OverwriteLookup(t: Tree, ns: Namespace, ls: set<Leaf>, section: string, key: string)
    ensures Overwrite(t, ns, ls).Keys == t.Keys
    ensures forall s :: SectionIsDict(Overwrite(t, ns, ls), s) <==> SectionIsDict(t, s)
    ensures Lookup(Overwrite(t, ns, ls), section, key) ==
              if SectionIsDict(t, section) && Written(ns, ls, section, key).Some? then
                Written(ns, ls, section, key)
              else Lookup(t, section, key)
  {
    if SectionIsDict(t, section) && Written(ns, ls, section, key).Some? {
      var l := LeafAt(section, key).value;
      assert key in SetOptionKeys(ns, ls, section);
    }
  }

  /** On a tree with the three sections, the CLI layer cannot fail. */
  lemma CliSucceedsOnSections(config: Tree, ns: Namespace)
    requires SectionsAreDicts(config)
    ensures MergeCliOptions(config, Some(ns)).Ok?
  {
    LeavesAreDeclared();
    assert !Blocked(config, ns, AllLeaves);
  }

  /** The CLI layer keeps every top-level key, and every value that is not a
      dictionary, as it was. */
  lemma CliKeepsTopLevel(config: Tree, ns: Namespace)
    requires MergeCliOptions(config, Some(ns)).Ok?
    ensures MergeCliOptions(config, Some(ns)).value.Keys == config.Keys
    ensures forall s | s in config && !config[s].Dict? :: MergeCliOptions(config, Some(ns)).value[s] == config[s]
  {
  }

  /** The CLI layer overwrites exactly the leaves whose option is set: a set
      option's value is read back at its leaf, and every other entry of every
      section keeps its value. */
  lemma CliOverwritesExactlySetOptions(config: Tree, ns: Namespace, section: string, key: string)
    requires MergeCliOptions(config, Some(ns)).Ok?
    ensures Lookup(MergeCliOptions(config, Some(ns)).value, section, key) ==
              match LeafAt(section, key)
              case Some(l) => if CliValue(ns, l).Some? then CliValue(ns, l) else Lookup(config, section, key)
              case None => Lookup(config, section, key)
  {
    OverwriteLookup(config, ns, AllLeaves, section, key);
    match LeafAt(section, key)
    case Some(l) =>
      if CliValue(ns, l).Some? {
        assert !SectionIsDict(config, section) ==> Blocked(config, ns, AllLeaves);
      }
    case None =>
  }

  /** With the parser's namespace, `version_option` is always written: the
      `False` default overwrites whatever the file or defaults held. */
  lemma ParsedVersionAlwaysWritten(config: Tree, ns: Namespace)
    requires FromParser(ns) && SectionsAreDicts(config)
    ensures MergeCliOptions(config, Some(ns)).Ok?
    ensures Lookup(MergeCliOptions(config, Some(ns)).value, "logging", "version_option")
            == Some(Bool(ns.versionOption.value))
  {
    CliSucceedsOnSections(config, ns);
    CliOverwritesExactlySetOptions(config, ns, "logging", "version_option");
  }

  /** A missing or non-dictionary section fails the layer exactly when one of
      its options is set: the source indexes a section only to write into it. */
  lemma CliFailsOnlyWhenWriting(config: Tree, ns: Namespace)
    ensures MergeCliOptions(config, Some(ns)).Err? <==>
              exists l :: CliValue(ns, l).Some? && !SectionIsDict(config, SectionOf(l))
  {
    forall l
      ensures l in AllLeaves
    {
      AllLeavesComplete(l);
    }
  }
}
