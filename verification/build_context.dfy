/** The inputs of a compilation: the build context, its verbosity and the
    feature flags used during development. */
module Context {
  import opened Wrappers
  import opened Strings
  import opened FsPath

  /** How chatty the tools the compiler shells out to should be. */
  datatype Verbosity = Quiet | Normal | Verbose

  /** `Verbosity::from_quiet_and_verbose`: the two command-line switches,
      which may not both be given. */
  function FromQuietAndVerbose(quiet: bool, verbose: bool): (r: Option<Verbosity>)
    ensures r.None? <==> quiet && verbose
    ensures r == Some(Quiet) <==> quiet && !verbose
    ensures r == Some(Verbose) <==> verbose && !quiet
    ensures r == Some(Normal) <==> !quiet && !verbose
  {
    match (verbose, quiet)
    case (true, false) => Some(Verbose)
    case (false, true) => Some(Quiet)
    case (false, false) => Some(Normal)
    case (true, true) => None
  }

  /** `Verbosity::add_flags`: a command's arguments with `--quiet` or
      `--verbose` appended when the verbosity asks for one. */
  function AddFlags(v: Verbosity, args: seq<string>): (r: seq<string>)
    ensures |r| == |args| + (if v == Normal then 0 else 1)
    ensures r[..|args|] == args
    ensures r[|args|..] == ["--quiet"] <==> v == Quiet
    ensures r[|args|..] == ["--verbose"] <==> v == Verbose
  {
    match v
    case Quiet => args + ["--quiet"]
    case Verbose => args + ["--verbose"]
    case Normal => args
  }

  /** The flags a verbosity adds are the switches it is read back from. */
  lemma AddFlagsRoundTrip(v: Verbosity)
    ensures FromQuietAndVerbose("--quiet" in AddFlags(v, []), "--verbose" in AddFlags(v, [])) == Some(v)
  {
  }

  /** Read the other way round: the flags added for the verbosity the two
      switches select hold `--quiet` exactly when `quiet` was given and
      `--verbose` exactly when `verbose` was. */
  lemma SwitchesRoundTrip(quiet: bool, verbose: bool, args: seq<string>)
    requires !(quiet && verbose)
    ensures var added := AddFlags(FromQuietAndVerbose(quiet, verbose).value, args)[|args|..];
            && ("--quiet" in added <==> quiet)
            && ("--verbose" in added <==> verbose)
  {
  }

  /** Development knobs: when set, the Rune crates are patched to the
      crates in this checkout of the Rune repository. */
  datatype FeatureFlags = FeatureFlags(runeRepoDir: Option<string>)

  /** `FeatureFlags::production`, which is also the default. */
  function Production(): (f: FeatureFlags)
    ensures f.runeRepoDir.None?
  {
    FeatureFlags(None)
  }

  /** `FeatureFlags::development`: the repository root two levels above the
      compiler's own manifest directory, kept only when it holds a `.git`
      entry. The root and the file-system probe are parameters. */
  function Development(repoRoot: Option<string>, pathExists: string -> bool): (f: FeatureFlags)
    ensures f.runeRepoDir.Some? <==> repoRoot.Some? && pathExists(Join(repoRoot.value, ".git"))
    ensures f.runeRepoDir.Some? ==> f.runeRepoDir == repoRoot
  {
    match repoRoot
    case Some(root) => if pathExists(Join(root, ".git")) then FeatureFlags(repoRoot) else FeatureFlags(None)
    case None => FeatureFlags(None)
  }

  /** `FeatureFlags::set_rune_repo_dir`. */
  function SetRuneRepoDir(f: FeatureFlags, dir: Option<string>): (r: FeatureFlags)
    ensures r.runeRepoDir == dir
  {
    f.(runeRepoDir := dir)
  }

  /** The version of Rune doing the build. */
  datatype RuneVersion = RuneVersion(version: string)

  /** Everything a compilation reads. Paths are strings. */
  datatype BuildContext = BuildContext(
    name: string,
    runefile: string,
    workingDirectory: string,
    currentDirectory: string,
    optimized: bool,
    verbosity: Verbosity,
    runeVersion: Option<RuneVersion>)

  datatype IoErrorKind = NotFound | PermissionDenied | InvalidData | Other

  datatype IoError = IoError(kind: IoErrorKind, message: string)

  const NoNameMessage := "Unable to determine the current directory's name"

  /** `BuildContext::for_directory`: the Rune is named after the directory's
      file stem and its Runefile is `Runefile.yml` inside it. Reading the file
      is the `readToString` parameter; `pkgVersion` is the compiler's
      package version. */
  function ForDirectory(directory: string, readToString: string -> Result<string, IoError>, pkgVersion: string)
    : (r: Result<BuildContext, IoError>)
    ensures FileStem(directory).None? ==> r == Err(IoError(Other, NoNameMessage))
    ensures FileStem(directory).Some? ==>
              (r.Err? <==> readToString(Join(directory, "Runefile.yml")).Err?)
    ensures FileStem(directory).Some? && r.Err? ==>
              r.error == readToString(Join(directory, "Runefile.yml")).error
    ensures r.Ok? ==>
              && Some(r.value.name) == FileStem(directory)
              && Ok(r.value.runefile) == readToString(Join(r.value.currentDirectory, "Runefile.yml"))
              && r.value.currentDirectory == directory
              && r.value.workingDirectory == directory
              && r.value.optimized
              && r.value.verbosity == Normal
              && r.value.runeVersion == Some(RuneVersion(pkgVersion))
  {
    match FileStem(directory)
    case None => Err(IoError(Other, NoNameMessage))
    case Some(name) =>
      match readToString(Join(directory, "Runefile.yml"))
      case Err(e) => Err(e)
      case Ok(runefile) =>
        Ok(BuildContext(name, runefile, directory, directory, true, Normal, Some(RuneVersion(pkgVersion))))
  }

  /** A Rune in directory `n` under any parent is named `n` when `n` has no
      extension, and only a failed read can stop it. */
  lemma ForDirectoryNamesAfterDirectory(parent: string, n: string,
                                        readToString: string -> Result<string, IoError>, pkgVersion: string)
    requires |n| > 0 && '/' !in n && '.' !in n
    ensures ForDirectory(Join(parent, n), readToString, pkgVersion).Err? ==>
              readToString(Join(Join(parent, n), "Runefile.yml")).Err?
    ensures ForDirectory(Join(parent, n), readToString, pkgVersion).Ok? ==>
              ForDirectory(Join(parent, n), readToString, pkgVersion).value.name == n
  {
    assert n != "." && n != ".." by {
      assert n[0] != '.';
    }
    FileNameOfJoin(parent, n);
  }
}
