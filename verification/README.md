# Layered configuration resolver — Dafny model

This project models the configuration engine of the `pymodule` application
template (`src/pymodule/core/config.py`). The engine builds one configuration
dictionary from four layers, applied in a fixed order:

1. the built-in `DEFAULT_CONFIG`;
2. a TOML file, checked against a closed schema (`CONFIG_SCHEMA`);
3. four `PYMODULE_*` environment variables;
4. the parsed command-line options.

The file is `config.toml` unless `--config` names another. It is skipped only
when the path is empty (`--no-config`); a requested file that is missing
aborts resolution.

The file and environment layers are merged with `Config.deep_update`. The
command-line layer does not merge: it overwrites each set option's leaf with
`config[section][key] = value`, which raises when the section is missing or not
a dictionary. The `-v` flag short-circuits everything after the defaults.

The model is functional:

- A configuration is a `Tree`, a map from strings to a tagged `Value`: `Null`
  (Python `None`), `Bool`, `Int`, `Float`, `Str`, `Array` or `Dict`.
- `deep_update` becomes the pure function `Merging.Merge`. It returns the
  updated dictionary instead of mutating it in place.
- The method `Merging.DeepUpdate` replays the source's loop over the overlay's
  keys, in any order. It is proved to compute `Merge`.
- The file system is a parameter, a map from path to `Parsed(tree)`,
  `Malformed` or `Unreadable`. A path missing from the map raises
  `FileNotFoundError`.
- The environment is a parameter, a map from variable name to value.
- The parsed command line is a `Namespace` record of optional fields.
- Exceptions that escape the resolver become `Err` values of `ConfigError`.

Modules:

- `Results`: `Option` and `Result`.
- `ConfigTree`: values, trees and path lookup.
- `Merging`: `deep_update` and its laws.
- `Schema`: the closed schema as a predicate, plus an independent violation list.
- `Errors`: the error kinds.
- `FileLayer`, `EnvLayer`, `CliLayer`: one module per layer.
- `Resolver`: `DEFAULT_CONFIG` and `get_app_configuration`.
- `MergeExamples`: the merge cases from `tests/core/test_config.py`.

Behaviour of the code that the model keeps on purpose:

- Environment values stay raw strings. They are never converted to numbers.
- The merged result is never validated again.
- An overlay dictionary stored under a key the base lacks is inserted
  wholesale, with any `None` entries inside it.
- The parser's `version_option` defaults to `False`, not `None`. So the CLI
  layer always overwrites `logging.version_option`.
- The `-v` short-circuit returns the full defaults with
  `logging.version_option` set to true.
- `merge_cli_options` raises when it writes into a section that is missing or
  not a dictionary. The model proves this cannot happen in the pipeline.
- Only the file is validated. The defaults themselves would fail the schema
  because of `template`; `Resolver.DefaultsOutsideSchema` proves this.
- `verbose` is a boolean flag.
- A schema failure surfaces as one `ValueError`.

## Model

| member | source | states |
|---|---|---|
| `Merging.Merge` | src/pymodule/core/config.py:157-177 | The pure reading of `deep_update`: for each overlay key, two dictionaries merge recursively, any other non-`None` value replaces the base value, and `None` is skipped. It has no contract of its own; the `Merging` lemmas below state its laws, and `DeepUpdate` is proved to compute it. |
| `Merging.DeepUpdate` | src/pymodule/core/config.py:157-177 | Visiting the overlay's keys one at a time, in any order, updating a copy of the base in place, gives exactly `Merge`. So dictionary iteration order never affects the result. |
| `Merging.MergeKeys` | src/pymodule/core/config.py:170-177 | The merged dictionary's keys are the base keys plus the overlay keys whose value is not `None`. |
| `Merging.MergeAbsentKeepsBase` | src/pymodule/core/config.py:176-177 | A key the overlay omits or sets to `None` keeps its base value. It is not added when the base lacks it. |
| `Merging.MergeEmpty` | src/pymodule/core/config.py:170 | Merging an empty overlay is the identity. |
| `Merging.MergeReplaces` | src/pymodule/core/config.py:174-177 | A non-`None` overlay value replaces the base value wholesale unless both sides are dictionaries. This includes a dictionary inserted under a missing or non-dictionary key. |
| `Merging.MergeRecurses` | src/pymodule/core/config.py:171-173 | When both sides hold a dictionary under a key, the result holds their recursive merge. |
| `Merging.MergeLookup` | src/pymodule/core/config.py:170-177 | For an entry two levels down, the overlay's non-`None` value wins; otherwise the base's value stays. The section remains a dictionary. |
| `Merging.OverlayLeafWins` | src/pymodule/core/config.py:170-177 | Every non-`None`, non-dictionary value the overlay holds, at any depth, is found at the same path in the result. |
| `Merging.SilentPathKeepsBase` | src/pymodule/core/config.py:170-177 | A base value at a path the overlay says nothing about survives the merge, at any depth. |
| `Merging.MergeUnchangedIffAgrees` | src/pymodule/core/config.py:170-177 | The merge leaves the base unchanged exactly when every value the overlay would write already agrees with the base. |
| `Merging.MergeIdempotent` | src/pymodule/core/config.py:170-177 | Merging the same overlay twice equals merging it once. |
| `MergeExamples.NestedDicts` | tests/core/test_config.py:20-51 | `{a:1,b:{c:2,d:3}}` merged with `{b:{d:4,e:5},f:6}` gives `{a:1,b:{c:2,d:4,e:5},f:6}`. |
| `MergeExamples.NonDictOverwrites` | tests/core/test_config.py:53-81 | Scalars are overwritten and untouched nested keys stay: `{a:100,b:{c:200,d:3}}`. |
| `MergeExamples.NoChanges` | tests/core/test_config.py:83-111 | An overlay repeating existing values leaves the base as it was. |
| `MergeExamples.EmptyOverlay` | tests/core/test_config.py:113-133 | An empty overlay leaves the base as it was. |
| `MergeExamples.NestedAndFlat` | tests/core/test_config.py:135-169 | Two levels of nested merge next to a top-level overwrite give `{a:{b:{c:5,e:6}},d:7}`. |
| `MergeExamples.NoneSkipped` | src/pymodule/core/config.py:176-177 | `None` values neither overwrite an existing key nor add a new one. |
| `Schema.Conforms` | src/pymodule/core/config.py:67-109 | `CONFIG_SCHEMA` as a predicate: only the three declared sections, each an object, each holding only its declared keys with the declared type (`number` excludes booleans). It has no contract of its own; `ViolationsEmptyIffConforms` ties it to the violation list. |
| `Schema.ViolationsEmptyIffConforms` | src/pymodule/core/config.py:67-109 | The list of undeclared sections, non-object sections, undeclared keys and wrongly typed values is empty exactly when the tree satisfies the closed schema. |
| `Schema.ConformingEntry` | src/pymodule/core/config.py:67-109 | In a conforming file every section is a dictionary, and every entry has its declared type. So no entry is `None` or a dictionary. |
| `Schema.LeavesAreDeclared` | src/pymodule/core/config.py:70-106 | The six configurable leaves are exactly the keys the schema declares, each in its own section. |
| `FileLayer.LoadToml` | src/pymodule/core/config.py:111-133 | A parsed file is returned as is. A missing path raises `FileNotFoundError`, a malformed file the TOML decode error, and any other read failure re-raises. |
| `FileLayer.LoadConfigFile` | src/pymodule/core/config.py:135-155 | The empty path returns an empty tree and leaves the configuration unchanged. A file is merged exactly when it exists, parses and conforms. Each failure gives its own error; a schema failure carries the non-empty violation list. |
| `EnvLayer.EnvOverlay` | src/pymodule/core/config.py:185-194 | The overlay has exactly `parameters` and `positionals`, each a dictionary with exactly its schema keys, and each leaf holds `os.getenv` of the variable named for it: the raw string, or `None` when unset. |
| `EnvLayer.EnvOverlayLeaves` | src/pymodule/core/config.py:185-194 | The overlay holds each of the four leaves as the raw variable string when the variable is set, and as `None` otherwise. It has no `logging` section. |
| `EnvLayer.LoadConfigEnv` | src/pymodule/core/config.py:179-197 | A set variable overwrites its leaf with the unconverted string, and an unset one leaves the inherited value. Undeclared entries of `parameters` and `positionals` keep their values. Where one of those sections is missing or not a dictionary, the overlay's section is stored wholesale. Every other top-level key is unchanged. |
| `CliLayer.Assign` | src/pymodule/core/config.py:204-221 | One `if option is not None: config[section][key] = option`: an unset option changes nothing; a set one succeeds exactly when its section is a dictionary, then stores the value at its leaf and moves nothing else; otherwise the error names the leaf's section. |
| `CliLayer.AssignAll` | src/pymodule/core/config.py:204-221 | The source's sequence of conditional writes succeeds exactly when no set option targets a missing or non-dictionary section. It then equals the declarative `Overwrite` of all those leaves. Otherwise the error names the section of the first blocked leaf in write order. |
| `CliLayer.MergeCliOptions` | src/pymodule/core/config.py:199-223 | An absent namespace changes nothing. Otherwise the result is the configuration with every set option written into its section and nothing else moved, or an error naming the section of the first option, in the source's order, that cannot be written. |
| `CliLayer.OverwriteOutside` | src/pymodule/core/config.py:202-221 | The option writes never touch a top-level key outside the three declared sections. |
| `CliLayer.OverwriteExact` | src/pymodule/core/config.py:202-221 | The option writes add only declared keys, so sections holding exactly their declared keys keep doing so. |
| `CliLayer.CliSucceedsOnSections` | src/pymodule/core/config.py:204-221 | When `logging`, `parameters` and `positionals` are all dictionaries, the CLI layer cannot raise. |
| `CliLayer.CliKeepsTopLevel` | src/pymodule/core/config.py:202-223 | The CLI layer keeps the top-level keys, and every top-level value that is not a dictionary. |
| `CliLayer.CliOverwritesExactlySetOptions` | src/pymodule/core/config.py:202-223 | A set option is read back at its leaf. Every other entry of every section keeps its value. |
| `CliLayer.ParsedVersionAlwaysWritten` | src/pymodule/core/config.py:204-205 | With the parser's namespace, `version_option` is never `None`, so the CLI layer always overwrites `logging.version_option`. |
| `CliLayer.CliFailsOnlyWhenWriting` | src/pymodule/core/config.py:202-221 | The CLI layer fails exactly when some set option belongs to a section that is missing or not a dictionary. |
| `Resolver.DefaultsShape` | src/pymodule/core/config.py:46-64 | The defaults hold `template` and the three sections as dictionaries, with every leaf at its default value; each section holds exactly its declared keys. |
| `Resolver.VersionConfig` | src/pymodule/core/config.py:271-274 | The `-v` answer keeps the defaults' keys and `template`; `version_option` is true and every other leaf holds its default; each section holds exactly its declared keys. |
| `Resolver.Resolve` | src/pymodule/core/config.py:256-294 | `-v` returns the defaults with the flag set. Otherwise resolution fails exactly when the file layer fails, with that layer's error. A result keeps the defaults' keys and an untouched `template`, and each of its three sections holds exactly its declared keys. |
| `Resolver.ResolveSucceeds` | src/pymodule/core/config.py:276-294 | Without `-v`, resolution succeeds whenever no file is requested, or the requested file exists, parses and conforms. |
| `Resolver.FileLayerLeaf` | src/pymodule/core/config.py:143-153 | After an accepted file layer over the defaults, the sections are dictionaries and every leaf holds the file's value when the file sets it, and its default otherwise. |
| `Resolver.EnvLayerLeaf` | src/pymodule/core/config.py:179-197 | On a tree with the three sections, after the environment layer a leaf holds its variable's raw string when set, and its previous value otherwise. |
| `Resolver.CliLayerLeaf` | src/pymodule/core/config.py:199-223 | On a tree with the three sections, the CLI layer succeeds, and a leaf holds its option's value when set, and its previous value otherwise. |
| `Resolver.ResolvePrecedence` | src/pymodule/core/config.py:276-292 | For every leaf, the resolved value is the first of: a set CLI option, a set environment variable, the file's value, the default. |
| `Resolver.VersionShortCircuit` | src/pymodule/core/config.py:271-274 | With `-v` the result does not depend on the file system or the environment, even a missing or malformed file. `version_option` is true and every other leaf has its default. |
| `Resolver.NoConfigBypass` | src/pymodule/core/config.py:136-138 | The empty config path never consults the file system. The result is the defaults with only the environment and CLI layers applied. |
| `Resolver.MissingFileAborts` | src/pymodule/core/config.py:277-282 | A requested file that does not exist aborts resolution with `FileNotFoundError`, before the environment and CLI layers. |
| `Resolver.InvalidFileAborts` | src/pymodule/core/config.py:143-148 | A file that breaks the schema aborts resolution with a non-empty violation list. Nothing from it is merged. |
| `Resolver.EnvStringReachesNumberLeaf` | src/pymodule/core/config.py:185-192 | A set `PYMODULE_PARAM1` without `--param1` leaves the raw string in `parameters.param1`, which the schema declares a number. The result is never re-validated. |
| `Resolver.DefaultsOutsideSchema` | src/pymodule/core/config.py:46-109 | The defaults contain the undeclared `template` section, so the schema rejects them. Validation only ever applies to the file. |
| `EnvLayer.EnvIntoEmptyKeepsNone` | src/pymodule/core/config.py:171-177 | Where a leaf's section is missing or not a dictionary, the overlay's section is stored wholesale, so an unset variable leaves `None` at its leaf rather than an inherited value. |
| `Resolver.StoreKeepsExact` | src/pymodule/core/config.py:273 | Writing a declared key into its section keeps every section holding exactly its declared keys. |
| `Resolver.FileLayerShape` | src/pymodule/core/config.py:144-153 | Merging a conforming file into a base with exact sections adds no top-level key, keeps each section holding exactly its declared keys, and leaves every key outside the sections alone. |
| `Resolver.EnvLayerShape` | src/pymodule/core/config.py:185-195 | On exact sections the environment layer adds no top-level key, keeps the sections exact, and leaves every key outside the sections alone. |
| `Resolver.CliLayerShape` | src/pymodule/core/config.py:202-221 | On exact sections the CLI layer cannot raise; it adds no top-level key, keeps the sections exact, and leaves every key outside the sections alone. |
| `Resolver.LayersKeepShape` | src/pymodule/core/config.py:276-292 | Once the file layer accepts, the environment and CLI layers cannot raise; the result keeps the base's keys, its exact sections, `template` and every other key outside the sections. |

## Left out

- TOML decoding and file reading (`load_toml`): the file system is a map from path to decoded document, malformed or unreadable. Decoding is not modelled.
- TOML date and time values are not represented. Like arrays, they match no schema type.
- Argument parsing (`parse_args` and `argparse`): the parsed options are a `Namespace` record. `CliLayer.FromParser` records only that `version_option` is never `None`.
- `os.getenv`: the environment is a finite map.
- The `jsonschema` library: only this one schema is modelled, as `Schema.Conforms`. The library raises one best-match error; the model collects every violation. Acceptance and rejection are the same.
- Logging calls and the logger module: they are diagnostics with no effect on the result.
- Mutation and aliasing are not modelled. `Config.__init__` shares the class-level `DEFAULT_CONFIG` dictionary, and `deep_update` stores overlay dictionaries by reference. The model treats the defaults as an immutable value copied into each resolution.
- Not-a-number and infinite floats: `Float` holds a real number, so TOML's `nan` and `inf`, which the schema accepts as numbers, are not represented.
- `SectionNotWritable` stands for both exceptions of `config[section][key] = v`: `KeyError` for a missing section and `TypeError` for a non-dictionary one. The model does not tell them apart.
- Process exit and version printing after `-v`: these are side effects outside the resolver.
- `src/core/config.py` is not part of this model. It is an older file-loading duplicate.
- The build scripts, the C extension, the benchmark, the application runner, the CLI entry points and the hello-world modules are not part of this model.
