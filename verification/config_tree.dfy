/** The configuration tree: the nested dictionaries that the resolver reads
    from TOML files, builds from the environment and the command line, and
    merges. */
module ConfigTree {
  import opened Results

  /** One value stored under a key. `Null` is Python's `None`: a TOML file never
      produces it, but the environment and command-line overlays use it to say
      "this layer provides nothing here". */
  datatype Value =
    | Null
    | Bool(b: bool)
    | Int(i: int)
    | Float(x: real)
    | Str(s: string)
    | Array(items: seq<Value>)
    | Dict(d: map<string, Value>)

  /** A dictionary from string keys to values: one layer, or the merged result. */
  type Tree = map<string, Value>

  /** The value found by following `path` through nested dictionaries, if any.
      The empty path names no value. */
  function At(t: Tree, path: seq<string>): Option<Value>
    decreases |path|
  {
    if |path| == 0 || path[0] !in t then None
    else if |path| == 1 then Some(t[path[0]])
    else if t[path[0]].Dict? then At(t[path[0]].d, path[1..])
    else None
  }

  /** The entry `key` of the dictionary stored under `section`, if both exist. */
  function Lookup(t: Tree, section: string, key: string): Option<Value> {
    if section in t && t[section].Dict? && key in t[section].d then Some(t[section].d[key]) else None
  }

  /** True when `section` holds a dictionary, so that `t[section][key] = v` succeeds in Python. */
  predicate SectionIsDict(t: Tree, section: string) {
    section in t && t[section].Dict?
  }

  /** `t[section][key] = v` on a tree whose `section` is a dictionary. */
  function Store(t: Tree, section: string, key: string, v: Value): (r: Tree)
    requires SectionIsDict(t, section)
    ensures r.Keys == t.Keys && SectionIsDict(r, section)
    ensures Lookup(r, section, key) == Some(v)
    ensures forall s, k :: (s, k) != (section, key) ==> Lookup(r, s, k) == Lookup(t, s, k)
    ensures forall s :: SectionIsDict(r, s) <==> SectionIsDict(t, s)
    ensures forall s | s in t && s != section :: r[s] == t[s]
  {
    t[section := Dict(t[section].d[key := v])]
  }
}
