/** `Config.CONFIG_SCHEMA`: the closed schema a configuration file must satisfy.
    It is written here as a predicate over the tree for this one schema, not as
    a general JSON-Schema engine. */
module Schema {
  import opened ConfigTree

  /** The JSON-Schema type a declared key must have. */
  datatype Kind = Boolean | Number | String

  /** The six leaves the schema declares, one per configurable setting. */
  datatype Leaf = Verbose | VersionOption | Param1 | Param2 | InputFile | OutputFile

  const AllLeaves: set<Leaf> := {Verbose, VersionOption, Param1, Param2, InputFile, OutputFile}

  /** `AllLeaves` lists every leaf. */
  lemma AllLeavesComplete(l: Leaf)
    ensures l in AllLeaves
  {
    match l
    case Verbose =>
    case VersionOption =>
    case Param1 =>
    case Param2 =>
    case InputFile =>
    case OutputFile =>
  }

  /** The top-level keys the schema declares; `template` is not among them. */
  const Sections: set<string> := {"logging", "parameters", "positionals"}

  /** The section that holds a leaf. */
  function SectionOf(l: Leaf): string {
    match l
    case Verbose | VersionOption => "logging"
    case Param1 | Param2 => "parameters"
    case InputFile | OutputFile => "positionals"
  }

  /** The key of a leaf inside its section. */
  function KeyOf(l: Leaf): string {
    match l
    case Verbose => "verbose"
    case VersionOption => "version_option"
    case Param1 => "param1"
    case Param2 => "param2"
    case InputFile => "input_file"
    case OutputFile => "output_file"
  }

  /** The keys the schema declares inside a section. */
  function SectionKeys(section: string): set<string> {
    if section == "logging" then {"verbose", "version_option"}
    else if section == "parameters" then {"param1", "param2"}
    else if section == "positionals" then {"input_file", "output_file"}
    else {}
  }

  /** Every key of a section is declared with the same type. */
  function SectionKind(section: string): Kind {
    if section == "logging" then Boolean
    else if section == "parameters" then Number
    else String
  }

  /** JSON-Schema type membership as the Python validator decides it: a boolean
      is not a number. Arrays, dictionaries and `None` match none of the kinds. */
  predicate HasKind(v: Value, kind: Kind) {
    match kind
    case Boolean => v.Bool?
    case Number => v.Int? || v.Float?
    case String => v.Str?
  }

  /** A section value is a dictionary whose keys are all declared for that
      section and whose values have the declared type. */
  predicate SectionConforms(section: string, v: Value) {
    v.Dict? &&
    forall k | k in v.d :: k in SectionKeys(section) && HasKind(v.d[k], SectionKind(section))
  }

  /** The closed schema: only declared sections at the top, only declared keys in
      each section (`additionalProperties: False` at both levels). Every key is
      optional. */
  predicate Conforms(t: Tree) {
    forall s | s in t :: s in Sections && SectionConforms(s, t[s])
  }

  /** The three declared sections are present and hold dictionaries. */
  predicate SectionsAreDicts(t: Tree) {
    SectionIsDict(t, "logging") && SectionIsDict(t, "parameters") && SectionIsDict(t, "positionals")
  }

  /** Each declared section is a dictionary holding exactly its declared keys. */
  predicate SectionsExact(t: Tree) {
    forall s | s in Sections :: SectionIsDict(t, s) && t[s].d.Keys == SectionKeys(s)
  }

  /** A tree whose sections are exact has its sections as dictionaries. */
  lemma SectionsExactAreDicts(t: Tree)
    requires SectionsExact(t)
    ensures SectionsAreDicts(t)
  {
    assert "logging" in Sections && "parameters" in Sections && "positionals" in Sections;
  }

  /** In a conforming tree every section is a dictionary and every entry has
      its declared type, so it is neither `None` nor a dictionary. */
  lemma ConformingEntry(t: Tree, section: string, key: string)
    requires Conforms(t)
    ensures section in t ==> section in Sections && t[section].Dict?
    ensures Lookup(t, section, key).Some? ==>
              && HasKind(Lookup(t, section, key).value, SectionKind(section))
              && Lookup(t, section, key).value != Null
              && !Lookup(t, section, key).value.Dict?
  {
  }

  /** One way a file can break the schema. */
  datatype Violation =
    | UndeclaredSection(section: string)
    | NotAnObject(section: string)
    | UndeclaredKey(section: string, key: string)
    | WrongType(section: string, key: string)

  /** Every violation in `t`, collected in one pass. */
  function Violations(t: Tree): set<Violation> {
    (set s | s in t && s !in Sections :: UndeclaredSection(s))
    + (set s | s in t && s in Sections && !t[s].Dict? :: NotAnObject(s))
    + (set s, k | s in t && s in Sections && t[s].Dict? && k in t[s].d && k !in SectionKeys(s)
         :: UndeclaredKey(s, k))
    + (set s, k | s in t && s in Sections && t[s].Dict? && k in t[s].d && k in SectionKeys(s)
                  && !HasKind(t[s].d[k], SectionKind(s))
         :: WrongType(s, k))
  }

  /** The violation list is empty exactly when the tree conforms, so rejecting on
      a non-empty list rejects exactly the non-conforming files. */
  lemma ViolationsEmptyIffConforms(t: Tree)
    ensures Violations(t) == {} <==> Conforms(t)
  {
    if !Conforms(t) {
      var s :| s in t && !(s in Sections && SectionConforms(s, t[s]));
      if s !in Sections {
        assert UndeclaredSection(s) in Violations(t);
      } else if !t[s].Dict? {
        assert NotAnObject(s) in Violations(t);
      } else {
        var k :| k in t[s].d && !(k in SectionKeys(s) && HasKind(t[s].d[k], SectionKind(s)));
        if k !in SectionKeys(s) {
          assert UndeclaredKey(s, k) in Violations(t);
        } else {
          assert WrongType(s, k) in Violations(t);
        }
      }
    }
  }

  /** Each declared leaf sits in a declared section under a declared key, and
      every declared key is some leaf's. */
  lemma LeavesAreDeclared()
    ensures forall l :: SectionOf(l) in Sections && KeyOf(l) in SectionKeys(SectionOf(l))
    ensures forall s, k | s in Sections && k in SectionKeys(s) :: exists l :: SectionOf(l) == s && KeyOf(l) == k
  {
    forall s, k | s in Sections && k in SectionKeys(s)
      ensures exists l :: SectionOf(l) == s && KeyOf(l) == k
    {
      if k == "verbose" { assert SectionOf(Verbose) == s; }
      else if k == "version_option" { assert SectionOf(VersionOption) == s; }
      else if k == "param1" { assert SectionOf(Param1) == s; }
      else if k == "param2" { assert SectionOf(Param2) == s; }
      else if k == "input_file" { assert SectionOf(InputFile) == s; }
      else { assert SectionOf(OutputFile) == s; }
    }
  }
}
