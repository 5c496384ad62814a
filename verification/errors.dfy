/** The exceptions the resolver lets escape, as values. */
module Errors {
  import opened Schema

  datatype ConfigError =
    /** `FileNotFoundError` from opening the requested file. */
    | FileNotFound(path: string)
    /** The TOML decoder's error for a malformed file. */
    | TomlDecodeError(path: string)
    /** Any other exception while reading the file, re-raised as is. */
    | LoadFailed(path: string)
    /** The `ValueError` raised when the file breaks the schema; it carries the
        violations found. */
    | InvalidConfig(path: string, violations: set<Violation>)
    /** The `KeyError` or `TypeError` of `config[section][key] = v` when
        `config[section]` is missing or not a dictionary. */
    | SectionNotWritable(section: string)
}
