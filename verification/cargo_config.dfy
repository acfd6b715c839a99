/** The `.cargo/config.toml` generated next to every Rune crate. */
module CargoConfig {
  import opened Wrappers

  const WasmTarget := "wasm32-unknown-unknown"

  /** Link arguments that strip symbols, asking for small binaries. */
  const StripFlags: seq<string> := ["-C", "link-arg=-s"]

  /** The `[target.wasm32-unknown-unknown]` table. */
  datatype Targets = Targets(wasm32UnknownUnknown: Target)

  datatype Target = Target(rustflags: seq<string>)

  /** The `[net]` table. */
  datatype Net = Net(gitFetchWithCli: bool)

  /** The `[build]` table. */
  datatype Build = Build(target: string)

  datatype Config = Config(target: Option<Targets>, net: Net, build: Build)

  /** A generated file: its path relative to the crate and its contents,
      kept as the document before it is written out as TOML. */
  datatype ConfigFile = ConfigFile(path: string, config: Config)

  /** `generate_config`: always fetch git dependencies with the git command
      line and build for WebAssembly; strip symbols only in optimized
      builds. */
  function GenerateConfig(optimized: bool): (r: ConfigFile)
    ensures r.path == ".cargo/config.toml"
    ensures r.config.target.Some? <==> optimized
    ensures optimized ==> r.config.target.value.wasm32UnknownUnknown.rustflags == StripFlags
    ensures r.config.net.gitFetchWithCli
    ensures r.config.build.target == WasmTarget
  {
    var target := if optimized then Some(Targets(Target(StripFlags))) else None;
    ConfigFile(".cargo/config.toml", Config(target, Net(true), Build(WasmTarget)))
  }

  /** The tables a serialized config holds, in order; a missing `target`
      table is left out. */
  function TableNames(c: Config): seq<string> {
    (if c.target.Some? then ["target." + WasmTarget] else []) + ["net", "build"]
  }

  /** Whether a generated config asks for an optimized build, read back from
      the file. */
  function IsOptimized(f: ConfigFile): bool {
    f.config.target.Some?
  }

  /** The generated file records its build mode, and the tables the two
      tests expect: three for optimized builds, only `net` and `build`
      otherwise. */
  lemma GenerateConfigTables(optimized: bool)
    ensures IsOptimized(GenerateConfig(optimized)) == optimized
    ensures optimized ==> TableNames(GenerateConfig(optimized).config) == ["target.wasm32-unknown-unknown", "net", "build"]
    ensures !optimized ==> TableNames(GenerateConfig(optimized).config) == ["net", "build"]
  {
    assert "target." + WasmTarget == "target.wasm32-unknown-unknown";
  }
}
