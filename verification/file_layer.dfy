/** `Config.load_toml` and `Config.load_config_file`: the configuration-file
    layer. The file system is a parameter: a map from path to what reading and
    decoding that path yields; a path outside the map does not exist. */
module FileLayer {
  import opened Results
  import opened ConfigTree
  import opened Merging
  import opened Schema
  import opened Errors

  /** What the TOML reader makes of an existing file. */
  datatype Document =
    | Parsed(tree: Tree)
    | Malformed
    | Unreadable

  type FileSystem = map<string, Document>

  /** The updated configuration and the file's own contents, which
      `load_config_file` returns. */
  datatype FileLoad = FileLoad(config: Tree, contents: Tree)

  /** `load_toml`: the decoded file, or the exception its reader raises. */
  function LoadToml(fs: FileSystem, path: string): (r: Result<Tree, ConfigError>)
    ensures r.Ok? <==> path in fs && fs[path].Parsed?
    ensures r.Err? && r.error.FileNotFound? <==> path !in fs
    ensures r.Ok? ==> fs[path] == Parsed(r.value)
    ensures r.Err? ==> (r.error.FileNotFound? || r.error.TomlDecodeError? || r.error.LoadFailed?) && r.error.path == path
    ensures path in fs && fs[path] == Malformed ==> r == Err(TomlDecodeError(path))
    ensures path in fs && fs[path] == Unreadable ==> r == Err(LoadFailed(path))
  {
    if path !in fs then Err(FileNotFound(path))
    else match fs[path]
      case Parsed(t) => Ok(t)
      case Malformed => Err(TomlDecodeError(path))
      case Unreadable => Err(LoadFailed(path))
  }

  /** `load_config_file`: the empty path skips the file and changes nothing;
      otherwise the file is read and checked against the schema, and only a
      conforming file is merged into `config`. */
  function LoadConfigFile(config: Tree, path: string, fs: FileSystem): (r: Result<FileLoad, ConfigError>)
    ensures path == "" ==> r == Ok(FileLoad(config, map[]))
    ensures path != "" && r.Ok? ==>
              && path in fs && fs[path] == Parsed(r.value.contents)
              && Conforms(r.value.contents)
              && r.value.config == Merge(config, r.value.contents)
    ensures path != "" ==>
              (r.Ok? <==> path in fs && fs[path].Parsed? && Conforms(fs[path].tree))
    ensures path != "" && path !in fs ==> r == Err(FileNotFound(path))
    ensures path != "" && path in fs && fs[path] == Malformed ==> r == Err(TomlDecodeError(path))
    ensures path != "" && path in fs && fs[path] == Unreadable ==> r == Err(LoadFailed(path))
    ensures path != "" && path in fs && fs[path].Parsed? && !Conforms(fs[path].tree) ==>
              r == Err(InvalidConfig(path, Violations(fs[path].tree))) && Violations(fs[path].tree) != {}
  {
    if path == "" then Ok(FileLoad(config, map[]))
    else
      var contents :- LoadToml(fs, path);
      ViolationsEmptyIffConforms(contents);
      var violations := Violations(contents);
      if violations != {} then Err(InvalidConfig(path, violations))
      else Ok(FileLoad(Merge(config, contents), contents))
  }
}
