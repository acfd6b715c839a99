# Rune compiler front end and code generator, in Dafny

This project models the pure core of the Rune compiler. A Runefile describes a
pipeline of stages: capabilities, proc blocks, models and outputs. The
compiler turns it into a Rust crate that builds to WebAssembly. The model
covers the following parts.

- **Dependency paths** (`DependencyPath`). The `base@version#sub_path` syntax
  that names where a proc block comes from. It covers the regex-based parser,
  the printer and the serde impls: serializing writes the printer's output as
  written, and deserializing runs the parser. The parser is
  modelled as the scan a leftmost, greedy regex match performs. Its result is
  related both ways to `MatchAt`, a declarative description of the match.
- **Runefile values and stage registration** (`Yaml`). The conversion of YAML
  argument values into the AST's argument values, and `to_parameters`. It also
  covers the first two analysis steps: `register_names` gives every stage an id
  and `register_stages` gives every id a node in the pipeline graph.
- **Build context** (`Context`). Verbosity and its command-line flags, the
  development feature flags, and `BuildContext::for_directory`.
- **`.cargo/config.toml`** (`CargoConfig`) and **`Cargo.toml`** (`CargoToml`).
  For `Cargo.toml` the model covers:
  - the package and library target;
  - the fixed base dependencies;
  - the four-way classification of a proc block's path into a dependency;
  - the patch tables that redirect the Rune crates to a local checkout.
- **The build driver** (`Phases`). Parse, lowering, type checking, code
  generation and compilation run in a fixed order. A hook fires before parsing
  and after every phase, and may stop the build. The module also covers the
  name under which a pass is logged.

Supporting modules: `Wrappers` (Option, Result), `Strings` (`starts_with`,
`ends_with` and the `trim_*_matches` family) and `FsPath` (`Path::join`,
`file_name` and `file_stem` for Unix-style paths).

The character class `\w` of the regex is the parameter `w: char -> bool`.
`[\w\d…]` equals `\w` plus the listed punctuation, because `\d` is contained
in `\w`. The concrete test vectors are read with ASCII `\w` (`AsciiWord`).

Several things are parameters of the model:
- hash-map iteration order: a sequence that lists every key once;
- the versions of the `hotg-rune-core` and `hotg-rune-proc-blocks` crates;
- file reading and file-system probing;
- the parse, lowering, type-check and compile phases;
- the hooks: a function of the hook's own state.

A panic in the source (`unimplemented!()`, indexing a missing name) is a
`None` result in the model.

## Model

| member | source | states |
|---|---|---|
| `DependencyPath.Parse` | syntax/src/yaml.rs:108-135 | Parsing fails exactly when the input holds no character of the base class. Any path it returns has a non-empty base, and each present component is non-empty and drawn from its own class. |
| `DependencyPath.RunEnd` | syntax/src/yaml.rs:115 | The base is taken greedily: every character taken is in the class, and the character after the run is not. |
| `DependencyPath.OptionalGroup` | syntax/src/yaml.rs:116-117 | An optional `@version` or `#sub_path` group is taken exactly when its marker is followed by a class character. It then runs as far as the class allows and is captured without its marker. |
| `DependencyPath.ParseFindsMatch` | syntax/src/yaml.rs:112-125 | What the parser returns is the leftmost greedy match of the pattern. The match has nothing matchable before it, and each part is maximal or is absent only because it cannot start. |
| `DependencyPath.MatchParses` | syntax/src/yaml.rs:112-125 | Conversely, any leftmost greedy match of the pattern is exactly what the parser returns. |
| `DependencyPath.MatchSpellsDisplay` | syntax/src/yaml.rs:112-135 | The text a match covers is the printed form of the path it captures. |
| `DependencyPath.DisplayAsWritten` | syntax/src/yaml.rs:88-106 | The printed form starts with the base. A sub-path is printed straight after the base as `#sub_path`, and a version is printed last as `@version`. Nothing else is written: the length is the base plus each present component with its marker. |
| `DependencyPath.DisplayRoundTrip` | syntax/src/yaml.rs:88-135 | Printing in the documented order `base@version#sub_path` and parsing gives every valid path back, when `@` and `#` are not word characters. |
| `DependencyPath.AsWrittenRoundTrip` | syntax/src/yaml.rs:96-102 | The printer as written round-trips when at most one of sub-path and version is present. |
| `DependencyPath.AsWrittenDropsVersion` | syntax/src/yaml.rs:96-102 | When both are present, re-parsing the printer's output keeps the base and the sub-path and loses the version. |
| `DependencyPath.AsWrittenLosesExampleVersion` | syntax/src/yaml.rs:550-555 | The test vector `hotg-ai/rune@v1.2#proc_blocks/normalize` is printed as `hotg-ai/rune#proc_blocks/normalize@v1.2`, which parses back without its version. |
| `DependencyPath.Deserialize` | syntax/src/yaml.rs:147-165 | Deserializing fails with the message `Unable to parse the path` exactly when the string has no base-class character. Otherwise it yields the pattern's leftmost greedy match. |
| `DependencyPath.SerdeRoundTrip` | syntax/src/yaml.rs:138-156 | Serializing writes `to_string()`, the printer as written. Deserializing that gives a valid path back when at most one of sub-path and version is present. |
| `DependencyPath.SerdeDropsVersion` | syntax/src/yaml.rs:138-156 | When both are present, a serialized path deserializes with its base and sub-path and without its version. |
| `DependencyPath.SerdeIntendedRoundTrip` | syntax/src/yaml.rs:138-156 | Serializing with the printer in the documented order would round-trip every valid path. |
| `DependencyPath.ParseExampleBare` | syntax/src/yaml.rs:527 | `asdf` parses to a bare base with no version and no sub-path. |
| `DependencyPath.ParseExampleVersion` | syntax/src/yaml.rs:534-535 | `runicos/base@latest` parses to base `runicos/base` with version `latest`. |
| `DependencyPath.ParseExampleFull` | syntax/src/yaml.rs:550-555 | `hotg-ai/rune@v1.2#proc_blocks/normalize` parses into its three components. |
| `Yaml.StringItems` | syntax/src/yaml.rs:256-266 | A list converts exactly when every item is a string. The result has one string per item, in order. |
| `Yaml.ToArgument` | syntax/src/yaml.rs:244-270 | A value fails to convert exactly when it is a list holding a non-string. Otherwise an integer, float or string becomes the matching literal and a list becomes a list argument of the same length. Converting back gives the value. |
| `Yaml.ArgumentRoundTrip` | syntax/src/yaml.rs:224-270 | Every argument value is the conversion of the value it corresponds to. |
| `Yaml.ToParameters` | syntax/src/yaml.rs:340-350 | The parameters have exactly the arguments' names, and each is the conversion of its own argument. The whole conversion fails exactly when one argument fails to convert. |
| `Yaml.Lower` | syntax/src/yaml.rs:307-326 | A model becomes a model node and a proc block a proc-block node with the same path. A capability becomes a source of that kind and an output a sink. Parameters convert back into the stage's arguments, and lowering fails exactly when they do not convert. |
| `Yaml.RegisteredFacts` | syntax/src/yaml.rs:296-301 | Registering distinct names in order adds exactly those names and gives the k-th one the k-th id after the start. Every other name keeps its id. |
| `Yaml.RegisterNames` | syntax/src/yaml.rs:296-301 | Every pipeline name gets the next id in iteration order. The name table grows by exactly the pipeline's names, other names keep their ids, and the graph is untouched. |
| `Yaml.RegisterStages` | syntax/src/yaml.rs:303-331 | It panics exactly when some stage has no registered id or has arguments that do not convert. Otherwise it appends one node per stage, in order and lowered from that stage, and leaves the names alone. Every stage's id gets an entry in the node map, and when the stages' ids are distinct each id maps to its own stage's node. The node map gains exactly the stages' ids, and every other id keeps its node. |
| `Yaml.RegisterPipeline` | syntax/src/yaml.rs:643-672 | On a fresh Rune, the two steps give every stage an id and a node lowered from that stage. The graph has one node per stage, the node map holds exactly the stages' ids, and only arguments that do not convert can stop it. |
| `Context.FromQuietAndVerbose` | crates/compiler/src/build_context.rs:97-104 | `--quiet` alone gives Quiet, `--verbose` alone gives Verbose, and neither gives Normal. Both together are rejected, and nothing else is. |
| `Context.AddFlags` | crates/compiler/src/build_context.rs:106-117 | The existing arguments stay as they are. Exactly one `--quiet` is appended for Quiet, exactly one `--verbose` for Verbose, and nothing for Normal. |
| `Context.AddFlagsRoundTrip` | crates/compiler/src/build_context.rs:97-117 | The flags a verbosity adds read back as that verbosity. |
| `Context.SwitchesRoundTrip` | crates/compiler/src/build_context.rs:97-117 | For an accepted pair of switches, the flags added hold `--quiet` exactly when quiet was given and `--verbose` exactly when verbose was. |
| `Context.Production` | crates/compiler/src/build_context.rs:139-143 | The production flags, which are also the default, patch nothing. |
| `Context.Development` | crates/compiler/src/build_context.rs:127-137 | A checkout directory is configured exactly when the repository root exists and holds a `.git` entry, and then it is that root. |
| `Context.SetRuneRepoDir` | crates/compiler/src/build_context.rs:145-153 | Afterwards the checkout directory is the one given. |
| `Context.ForDirectory` | crates/compiler/src/build_context.rs:32-62 | With no file stem it fails with the fixed message. Otherwise it fails exactly when reading `Runefile.yml` fails, with that error. On success it holds the stem as name, the Runefile read from the directory, the directory as both working and current directory, an optimized Normal build, and the package version. |
| `Context.ForDirectoryNamesAfterDirectory` | crates/compiler/src/build_context.rs:38-49 | A Rune in a directory whose name has no extension is named after the directory, and only a failed read can stop it. |
| `CargoConfig.GenerateConfig` | crates/compiler/src/codegen/generate_cargo_config.rs:12-37 | The file is `.cargo/config.toml`. The target table is present exactly for optimized builds and then holds the symbol-stripping flags. Git fetching uses the command line and the build target is `wasm32-unknown-unknown`, in both modes. |
| `CargoConfig.GenerateConfigTables` | crates/compiler/src/codegen/generate_cargo_config.rs:78-109 | The build mode can be read back from the file. Optimized builds hold the target, net and build tables; other builds hold only net and build. |
| `CargoToml.ProcBlockDependency` | crates/compiler/src/codegen/generate_cargo_toml.rs:147-195 | Exactly one source is set, and no features. A builtin gives the Rune repository at tag `v` plus the proc blocks' version. A non-builtin base starting with `.` gives the directory joined to the base. A versioned plain name with no sub-path gives that crates.io version. Anything else gives the GitHub repository. Each case holds exactly when its condition does. |
| `CargoToml.GitHubUrlRoundTrip` | crates/compiler/src/codegen/generate_cargo_toml.rs:168-169 | The GitHub URL built for a base gives that base back, so different repositories get different URLs. |
| `CargoToml.ProcBlockDependencyExamples` | crates/compiler/src/codegen/generate_cargo_toml.rs:356-381 | The builtin `hotg-ai/rune#proc_blocks/modulo` uses the release tag, and `whatever@1.2` comes from crates.io at version 1.2. |
| `CargoToml.BaseDependenciesTable` | crates/compiler/src/codegen/generate_cargo_toml.rs:101-136 | The base table has exactly five entries. The core crate and the base image are at the core version, the proc-blocks crate is at its own version, and `log` and `lazy_static` are fetched by version. |
| `CargoToml.DependencyTableInOrder` | crates/compiler/src/codegen/generate_cargo_toml.rs:138-144 | The table holds the base names plus the proc blocks' names. A name's entry is that of the last proc block with that name, and otherwise the base entry. |
| `CargoToml.Dependencies` | crates/compiler/src/codegen/generate_cargo_toml.rs:97-145 | The loop inserts one entry per proc block, in order, on top of the base table, and gives the table of `DependencyTableInOrder`. |
| `CargoToml.GenerateManifest` | crates/compiler/src/codegen/generate_cargo_toml.rs:57-95 | The manifest is an unpublished 2018-edition package at version 0.0.0 with resolver 2, named after the Rune. It builds a `cdylib` from `lib.rs` in a workspace of its own, holds the Rune's dependency table and has no patches. |
| `CargoToml.PathDependency` | crates/compiler/src/codegen/generate_cargo_toml.rs:263-268 | A path dependency names only that path as its source. |
| `CargoToml.Lookup` | crates/compiler/src/codegen/generate_cargo_toml.rs:292-301 | A name is found exactly when the table lists it. What is found is the place in the first entry for that name. |
| `CargoToml.CoreOverrideIsKnown` | crates/compiler/src/codegen/generate_cargo_toml.rs:306-309 | The override always added for the core crate points where its known path does. |
| `CargoToml.ProcBlocksOverrideIsKnown` | crates/compiler/src/codegen/generate_cargo_toml.rs:310-313 | The override always added for the proc-blocks crate points where its known path does. |
| `CargoToml.Overrides` | crates/compiler/src/codegen/generate_cargo_toml.rs:276-313 | Every override is a path dependency. It points to the crate's known place in the checkout, or to `proc-blocks/<name>` for any other crate. |
| `CargoToml.OverridesKeys` | crates/compiler/src/codegen/generate_cargo_toml.rs:280-313 | The crates overridden are exactly those named `hotg-…` or fetched from the Rune repository, plus the core and proc-blocks crates. |
| `CargoToml.Extend` | crates/compiler/src/codegen/generate_cargo_toml.rs:315-319 | Extending one patch table adds that table if it was missing. The new entries win, the table's other entries stay, and every other table is unchanged. |
| `CargoToml.PatchWith` | crates/compiler/src/codegen/generate_cargo_toml.rs:315-324 | The same overrides land in both the `crates-io` and the Rune repository patch tables, and every other table is unchanged. Each of the two tables holds its old names plus the overridden ones: the overrides win, and its other entries stay. |
| `CargoToml.PatchHotgDependencies` | crates/compiler/src/codegen/generate_cargo_toml.rs:270-325 | Only the patches change, and only in the two patch tables. Both tables exist afterwards and redirect every overridden crate to its place in the checkout. Each keeps its other entries. |
| `CargoToml.PatchFresh` | crates/compiler/src/codegen/generate_cargo_toml.rs:315-324 | Patching a manifest without patches creates exactly the two tables, each holding exactly the overrides. |
| `CargoToml.PatchIdempotent` | crates/compiler/src/codegen/generate_cargo_toml.rs:270-325 | Patching twice gives the same manifest as patching once. |
| `CargoToml.BuiltinProcBlocksArePatched` | crates/compiler/src/codegen/generate_cargo_toml.rs:280-303 | With a checkout configured, a builtin proc block is redirected from the Rune repository to `proc-blocks/<name>` in the checkout. |
| `CargoToml.GenerateCargoToml` | crates/compiler/src/codegen/generate_cargo_toml.rs:17-54 | The output is `Cargo.toml` holding the generated manifest for the Rune's name and proc blocks: an unpublished 2018-edition package at 0.0.0 with resolver 2, a `cdylib` built from `lib.rs`, a workspace of its own and the Rune's dependency table. It has patches exactly when a checkout is configured, and then exactly the two tables, both holding the overrides of its dependencies. |
| `Phases.RunPhase` | crates/compiler/src/phases.rs:48-95 | Parsing reads the context's Runefile and leaves the world alone. It stores the document on success; on failure it pushes the error as one more diagnostic and leaves the document alone. No other resource changes. Lowering and type checking give the world and resources their pass returns. Code generation captures the world into the database and changes nothing else. Compiling stores its result both in the database and as a resource. |
| `Phases.BuildWithHooks` | crates/compiler/src/phases.rs:26-104 | The run is the one `Phases.Schedule` computes: each hook is called on the world and resources as they stand, and the build stops at the first hook that does not answer `Continue`. Hooks and phases alternate in the fixed order. A parse failure does not stop the build. Code generation ran exactly when the `after_type_checking` hook continued. The crate was compiled exactly when every hook through `after_codegen` continued, using the starting context, the flags and the world captured for code generation. |
| `Phases.Build` | crates/compiler/src/phases.rs:17-22 | With no hooks and the production flags, every phase runs. The parse result is stored in the starting resources. The returned world and resources are those of type checking run on the output of lowering run on the empty world. That world is compiled, and the compilation result is a resource. |
| `Phases.HaltingHookEndsBuild` | crates/compiler/src/phases.rs:42-101 | A hook that answers anything but `Continue` ends the build on the spot. The run returns the world and resources that hook left, and the database holds only what earlier phases stored. |
| `Phases.ScheduleWellFormed` | crates/compiler/src/phases.rs:26-104 | Whatever the hooks answer, the events of a build alternate between hooks and phases in the fixed order. The build ends with the first hook that halts, or with the last hook. |
| `Phases.ContinuingSchedule` | crates/compiler/src/phases.rs:26-104 | When the hooks always continue, every remaining round runs. |
| `Phases.ContinuingHooksRunEverything` | crates/compiler/src/phases.rs:26-104 | A build whose hooks always continue fires all six hooks and runs all five phases, in order. |
| `Phases.PassiveSchedule` | crates/compiler/src/phases.rs:26-104 | When the hooks always continue and leave the world and resources alone, the build ends as its phases run back to back would. |
| `Phases.HaltEndsBuild` | crates/compiler/src/phases.rs:42-101 | In a build's trace, a hook that answers anything but `Continue` is the last event. |
| `Phases.ContinuingRunsEverything` | crates/compiler/src/phases.rs:26-104 | A build whose trace shows no halting hook ran all five phases, in order. |
| `Strings.TrimStartMatches` | crates/compiler/src/phases.rs:232 | Every leading copy of the pattern is removed and no more: the input is those copies followed by the result. |
| `Strings.TrimEndMatches` | crates/compiler/src/phases.rs:233-234 | Every trailing copy of the pattern is removed and no more: the input is the result followed by those copies. |
| `Strings.TrimMatches` | crates/compiler/src/phases.rs:235 | The result neither starts nor ends with the character and is the input with only copies of it removed from either end. |
| `Phases.PrettyName` | crates/compiler/src/phases.rs:230-235 | A pass's logged name neither starts nor ends with `:`. The type name is made of copies of the crate's name, colons, the logged name, colons, copies of `::run` and copies of `_system`. Each run of copies removed is maximal. |
| `Phases.PrettyNameUnique` | crates/compiler/src/phases.rs:230-235 | Conversely, whenever a type name is cut into such parts with maximal runs, the logged name is the middle part. |
| `Strings.TrimMatchesUnique` | crates/compiler/src/phases.rs:235 | Leading copies of the character, a middle that neither starts nor ends with it, then trailing copies: `trim_matches` returns that middle. |
| `Phases.PrettyNameOfSystem` | crates/compiler/src/phases.rs:230-235 | The system `crate::pass::run_system` is logged as `pass`. |

## Left out

- Writing `Cargo.toml`, `.cargo/config.toml` and Runefiles as text: the TOML and YAML serialisers belong to other crates. The generated files are kept as documents.
- The `log::warn!` about development versions in the `Cargo.toml` pass and the `log::debug!` messages: logging has no effect on the result. `PrettyName` models only the name that is logged.
- File reading in `for_directory` and the `.git` probe in `FeatureFlags::development`: both are function parameters. The repository root, two levels above the compiler's manifest directory, is a parameter too.
- The `legion` schedules and `salsa` database: lowering, type checking and compiling are uninterpreted functions. `update_db_before_codegen` is the capture of the world, and the code generation queries are not modelled.
- `analyse` past the first two steps: `construct_pipeline` and `get_type` are `todo!()`, so the model stops after `register_stages`. The ids that `Builtins` takes first are the parameter `firstId`.
- Unicode `\w`: kept abstract as a parameter; only the ASCII reading is instantiated.
- Floating-point values: a float is carried as its 64-bit pattern, because the front end only moves floats.
- `ProcBlock::name()`: its definition is not part of this model, so a proc block's crate name is a field.
- Fields of Cargo's dependency and manifest tables that the generator never sets: registry, branch, rev, optional, package, badges, profiles and the like.
- Windows paths: `FsPath` follows Unix rules, with `/` as the only separator.
- `BuildContext::from_doc`: test-only constructor.
- A capability's kind is its name as a string; the capability enumeration is not modelled.
- Hooks are modelled as returning a `Continuation`; the hooks' own definitions are not part of this model.
- The parse phase stores `d.clone().to_v1()` (crates/compiler/src/phases.rs:51), the document converted to its first version. The model stores the parse result itself, because `to_v1` is not part of this model.
- Yaml.RegisterStages: requires only that every listed name is a pipeline key, not that the order lists every key exactly once. The stronger statement about ids and nodes needs distinct ids and is stated by `Yaml.RegisterPipeline`.
- `HirIds`: its definition is not part of this model. `Yaml.RegisterNames` and `Yaml.RegisteredFacts` take `HirIds::next` (syntax/src/yaml.rs:298) to be a counter handing out consecutive ids from `nextId` on.
- `PrettyName` with an empty crate name leaves the name as it is. That matches `trim_start_matches("")`, and the crate name is never empty.
- The test `builtin_proc_blocks_always_use_nightly_tag` (crates/compiler/src/codegen/generate_cargo_toml.rs:357-368) expects the tag `v` plus the core version. The code uses the proc blocks' version, and the model follows the code. The two agree whenever the versions are equal.

## Findings

| source | as written | input that shows it | evidently intended | confidence | as-written member | corrected member |
|---|---|---|---|---|---|---|
| syntax/src/yaml.rs:96-102 | `Display for Path` prints `#sub_path` before `@version`, but the parser only looks for `@version` directly after the base | `Path { base: "hotg-ai/rune", sub_path: Some("proc_blocks/normalize"), version: Some("v1.2") }` prints as `hotg-ai/rune#proc_blocks/normalize@v1.2`, which parses back with `version: None` | print `@version` before `#sub_path`, the order the parser and the test vectors use, so that printing and parsing (and serde) round-trip | not executed | `DependencyPath.AsWrittenDropsVersion` | `DependencyPath.DisplayRoundTrip` |

The model's serializer (`DependencyPath.Serialize`) follows the source and
uses the printer as written, `DependencyPath.DisplayAsWritten`. The discrepancy
reaches serde too: `DependencyPath.SerdeDropsVersion` shows a serialized path
losing its version. `DependencyPath.Display` is the corrected printer and
`DependencyPath.SerializeIntended` the serializer built on it;
`DependencyPath.SerdeIntendedRoundTrip` proves it round-trips.
`DependencyPath.AsWrittenLosesExampleVersion` applies the printer as written
to the parser's own test vector.
