/** The `Cargo.toml` generated for a Rune: the package, the library target,
    the dependencies of the Rune's proc blocks, and the patches that redirect
    the Rune crates to a local checkout during development. */
module CargoToml {
  import opened Wrappers
  import opened Strings
  import opened FsPath
  import opened DependencyPath
  import opened Context

  const Repo := "https://github.com/hotg-ai/rune"
  const CratesIo := "crates-io"

  const CoreCrate := "hotg-rune-core"
  const ProcBlocksCrate := "hotg-rune-proc-blocks"
  const BaseImageCrate := "hotg-runicos-base-wasm"

  /** The versions of the crates the compiler was built against
      (`hotg_rune_core::VERSION` and `hotg_rune_proc_blocks::VERSION`). */
  datatype Versions = Versions(core: string, procBlocks: string)

  /** A dependency's detailed form. The remaining fields of Cargo's
      dependency table are never set by the generator. */
  datatype DependencyDetail = DependencyDetail(
    version: Option<string>,
    path: Option<string>,
    git: Option<string>,
    tag: Option<string>,
    features: seq<string>)

  datatype Dependency = Simple(version: string) | Detailed(detail: DependencyDetail)

  const EmptyDetail := DependencyDetail(None, None, None, None, [])

  /** The git repository a dependency comes from, if any. */
  function GitOf(d: Dependency): Option<string> {
    match d
    case Simple(_) => None
    case Detailed(detail) => detail.git
  }

  /** A proc block used by the Rune: the name of its crate and where it
      comes from. */
  datatype ProcBlock = ProcBlock(name: string, path: Path)

  /** `is_builtin`: the proc blocks that live in the Rune repository. */
  predicate IsBuiltin(p: Path) {
    p.base == "hotg-ai/rune"
  }

  const GitHubPrefix := "https://github.com/"

  /** The git URL of a repository hosted on GitHub. */
  function GitHubUrl(base: string): (url: string)
    ensures StartsWith(url, GitHubPrefix) && EndsWith(url, ".git")
    ensures |url| == |GitHubPrefix| + |base| + 4
  {
    GitHubPrefix + base + ".git"
  }

  /** The repository named by a GitHub URL. */
  function RepoOfGitHubUrl(url: string): string
    requires |url| >= |GitHubPrefix| + 4
  {
    url[|GitHubPrefix|..|url| - 4]
  }

  /** Different repositories get different URLs: the URL gives the
      repository back. */
  lemma GitHubUrlRoundTrip(base: string)
    ensures RepoOfGitHubUrl(GitHubUrl(base)) == base
  {
    var url := GitHubUrl(base);
    assert url == GitHubPrefix + (base + ".git");
    assert url[|GitHubPrefix|..] == base + ".git";
    assert url[|GitHubPrefix|..|url| - 4] == url[|GitHubPrefix|..][..|base|];
  }

  /** A dependency names exactly one place to fetch it from, and a tag only
      together with a git repository. */
  predicate ExactlyOneSource(d: DependencyDetail) {
    && (if d.version.Some? then 1 else 0) + (if d.path.Some? then 1 else 0) + (if d.git.Some? then 1 else 0) == 1
    && (d.tag.Some? ==> d.git.Some?)
  }

  /** A proc block from a local directory: its path is taken relative to the
      Rune's directory. */
  predicate IsLocal(p: Path) {
    !IsBuiltin(p) && StartsWith(p.base, ".")
  }

  /** A proc block published on crates.io: a plain crate name with a version
      and no sub-path. */
  predicate IsFromCratesIo(p: Path) {
    !IsBuiltin(p) && !StartsWith(p.base, ".") && p.subPath.None? && '/' !in p.base && p.version.Some?
  }

  /** `proc_block_dependency`: where a proc block is fetched from. Builtins
      come from the Rune repository at the proc blocks' release tag, paths
      starting with `.` are local directories, a versioned plain name is a
      crates.io crate, and anything else is a GitHub repository. */
  function ProcBlockDependency(p: Path, currentDir: string, procBlockVersion: string): (r: DependencyDetail)
    ensures ExactlyOneSource(r) && r.features == []
    ensures r.tag.Some? <==> IsBuiltin(p)
    ensures IsBuiltin(p) ==> r.git == Some(Repo) && r.tag == Some("v" + procBlockVersion)
    ensures r.path.Some? <==> IsLocal(p)
    ensures IsLocal(p) ==> r.path == Some(Join(currentDir, p.base))
    ensures r.version.Some? <==> IsFromCratesIo(p)
    ensures IsFromCratesIo(p) ==> r.version == p.version
    ensures r.git.Some? && !IsBuiltin(p) ==> r.git == Some(GitHubUrl(p.base))
  {
    if IsBuiltin(p) then
      EmptyDetail.(git := Some(Repo), tag := Some("v" + procBlockVersion))
    else if StartsWith(p.base, ".") then
      EmptyDetail.(path := Some(Join(currentDir, p.base)))
    else if p.subPath.None? && '/' !in p.base && p.version.Some? then
      EmptyDetail.(version := p.version)
    else
      EmptyDetail.(git := Some(GitHubUrl(p.base)))
  }

  /** The two proc-block cases the generator's tests pin down: a builtin
      uses the release tag, and `whatever@1.2` comes from crates.io. */
  lemma ProcBlockDependencyExamples(v: Versions)
    ensures ProcBlockDependency(Path("hotg-ai/rune", Some("proc_blocks/modulo"), None), ".", v.procBlocks)
              == DependencyDetail(None, None, Some(Repo), Some("v" + v.procBlocks), [])
    ensures ProcBlockDependency(Path("whatever", None, Some("1.2")), ".", v.procBlocks)
              == DependencyDetail(Some("1.2"), None, None, None, [])
  {
    assert !StartsWith("whatever", ".") by {
      assert "whatever"[0] == 'w';
    }
  }

  /** The dependencies every Rune has: logging, `lazy_static` and the three
      Rune crates. */
  function BaseDependencies(v: Versions): map<string, Dependency> {
    map[
      "log" := Detailed(EmptyDetail.(version := Some("0.4"), features := ["max_level_debug", "release_max_level_info"])),
      "lazy_static" := Detailed(EmptyDetail.(version := Some("1.0"), features := ["spin_no_std"])),
      CoreCrate := Simple(v.core),
      ProcBlocksCrate := Simple(v.procBlocks),
      BaseImageCrate := Simple(v.core)]
  }

  /** The base table the generator's test checks: five entries, the Rune
      crates at the compiler's own versions (the base image follows the core
      version), and the two third-party crates fetched by version. */
  lemma BaseDependenciesTable(v: Versions)
    ensures BaseDependencies(v).Keys == {"log", "lazy_static", CoreCrate, ProcBlocksCrate, BaseImageCrate}
    ensures |BaseDependencies(v)| == 5
    ensures BaseDependencies(v)[CoreCrate] == Simple(v.core) && BaseDependencies(v)[BaseImageCrate] == Simple(v.core)
    ensures BaseDependencies(v)[ProcBlocksCrate] == Simple(v.procBlocks)
    ensures BaseDependencies(v)["log"].Detailed? && BaseDependencies(v)["log"].detail.version == Some("0.4")
    ensures BaseDependencies(v)["lazy_static"].Detailed? && BaseDependencies(v)["lazy_static"].detail.version == Some("1.0")
  {
    var keys := BaseDependencies(v).Keys;
    assert keys == {"log", "lazy_static", CoreCrate, ProcBlocksCrate, BaseImageCrate};
    assert |{"log", "lazy_static", CoreCrate, ProcBlocksCrate, BaseImageCrate}| == 5;
  }

  /** The position of the last proc block named `n`, if any. */
  function LastNamed(pbs: seq<ProcBlock>, n: string): (r: Option<nat>)
    ensures r.None? <==> forall k :: 0 <= k < |pbs| ==> pbs[k].name != n
    ensures r.Some? ==> r.value < |pbs| && pbs[r.value].name == n
    ensures r.Some? ==> forall k :: r.value < k < |pbs| ==> pbs[k].name != n
  {
    if |pbs| == 0 then None
    else if pbs[|pbs| - 1].name == n then Some(|pbs| - 1)
    else
      var r := LastNamed(pbs[..|pbs| - 1], n);
      assert forall k :: 0 <= k < |pbs| - 1 ==> pbs[..|pbs| - 1][k] == pbs[k];
      r
  }

  /** The names of a sequence of proc blocks. */
  function Names(pbs: seq<ProcBlock>): set<string> {
    set k | 0 <= k < |pbs| :: pbs[k].name
  }

  /** `deps` is `base` with each proc block's entry inserted in order: a
      later proc block of the same name replaces an earlier one, and a proc
      block replaces a base entry of its name. */
  ghost predicate InsertedInOrder(deps: map<string, Dependency>, base: map<string, Dependency>,
                                  pbs: seq<ProcBlock>, entry: ProcBlock -> Dependency) {
    && deps.Keys == base.Keys + Names(pbs)
    && forall n :: n in deps ==>
         match LastNamed(pbs, n)
         case Some(k) => deps[n] == entry(pbs[k])
         case None => deps[n] == base[n]
  }

  /** The entry `dependencies` inserts for a proc block. */
  function ProcBlockEntry(currentDir: string, v: Versions): ProcBlock -> Dependency {
    (pb: ProcBlock) => Detailed(ProcBlockDependency(pb.path, currentDir, v.procBlocks))
  }

  /** What `dependencies` produces: the base table with one entry per proc
      block on top. */
  ghost predicate DependenciesOf(deps: map<string, Dependency>, pbs: seq<ProcBlock>, currentDir: string, v: Versions) {
    InsertedInOrder(deps, BaseDependencies(v), pbs, ProcBlockEntry(currentDir, v))
  }

  /** Appending a proc block makes it the last of its name. */
  lemma LastNamedSnoc(pbs: seq<ProcBlock>, pb: ProcBlock, n: string)
    ensures LastNamed(pbs + [pb], n) == if pb.name == n then Some(|pbs|) else LastNamed(pbs, n)
  {
    assert (pbs + [pb])[..|pbs|] == pbs;
  }

  /** Appending a proc block adds its name. */
  lemma NamesSnoc(pbs: seq<ProcBlock>, pb: ProcBlock)
    ensures Names(pbs + [pb]) == Names(pbs) + {pb.name}
  {
    var next := pbs + [pb];
    assert forall k :: 0 <= k < |pbs| ==> next[k] == pbs[k];
    assert next[|pbs|] == pb;
  }

  /** Inserting the next proc block's entry keeps the table in order. */
  lemma InsertStep(deps: map<string, Dependency>, base: map<string, Dependency>,
                   pbs: seq<ProcBlock>, pb: ProcBlock, entry: ProcBlock -> Dependency)
    requires InsertedInOrder(deps, base, pbs, entry)
    ensures InsertedInOrder(deps[pb.name := entry(pb)], base, pbs + [pb], entry)
  {
    var next := pbs + [pb];
    var d := deps[pb.name := entry(pb)];
    NamesSnoc(pbs, pb);
    forall n | n in d
      ensures match LastNamed(next, n)
              case Some(k) => d[n] == entry(next[k])
              case None => d[n] == base[n]
    {
      LastNamedSnoc(pbs, pb, n);
      if n != pb.name {
        match LastNamed(pbs, n)
        case Some(k) => assert next[k] == pbs[k];
        case None =>
      }
    }
  }

  /** The table `dependencies` builds: the base table, then each proc
      block's entry inserted in turn. */
  function DependencyTable(pbs: seq<ProcBlock>, currentDir: string, v: Versions): map<string, Dependency> {
    if |pbs| == 0 then BaseDependencies(v)
    else
      var pb := pbs[|pbs| - 1];
      DependencyTable(pbs[..|pbs| - 1], currentDir, v)[pb.name := ProcBlockEntry(currentDir, v)(pb)]
  }

  /** The built table holds the base entries and one entry per proc block
      name, the last proc block of a name winning. */
  lemma {:induction false} DependencyTableInOrder(pbs: seq<ProcBlock>, currentDir: string, v: Versions)
    ensures DependenciesOf(DependencyTable(pbs, currentDir, v), pbs, currentDir, v)
  {
    var base := BaseDependencies(v);
    var entry := ProcBlockEntry(currentDir, v);
    if |pbs| == 0 {
      assert Names(pbs) == {};
    } else {
      var init := pbs[..|pbs| - 1];
      var pb := pbs[|pbs| - 1];
      DependencyTableInOrder(init, currentDir, v);
      InsertStep(DependencyTable(init, currentDir, v), base, init, pb, entry);
      assert init + [pb] == pbs;
    }
  }

  /** `dependencies`: the base table, then each proc block inserted in
      turn. */
  method Dependencies(pbs: seq<ProcBlock>, currentDir: string, v: Versions) returns (deps: map<string, Dependency>)
    ensures deps == DependencyTable(pbs, currentDir, v)
    ensures DependenciesOf(deps, pbs, currentDir, v)
  {
    var entry := ProcBlockEntry(currentDir, v);
    deps := BaseDependencies(v);
    var i := 0;
    while i < |pbs|
      invariant 0 <= i <= |pbs|
      invariant deps == DependencyTable(pbs[..i], currentDir, v)
    {
      assert pbs[..i + 1][..i] == pbs[..i];
      deps := deps[pbs[i].name := entry(pbs[i])];
      i := i + 1;
    }
    assert pbs[..i] == pbs;
    DependencyTableInOrder(pbs, currentDir, v);
  }

  datatype Edition = E2015 | E2018 | E2021

  datatype Resolver = V1 | V2

  datatype Package = Package(name: string, edition: Edition, version: string, publish: bool, resolver: Option<Resolver>)

  /** The `[lib]` target. */
  datatype Product = Product(path: Option<string>, edition: Option<Edition>, crateType: Option<seq<string>>)

  datatype Workspace = Workspace(members: seq<string>, defaultMembers: seq<string>, exclude: seq<string>)

  /** The parts of a manifest the generator sets. `patch` maps a registry or
      repository to the dependencies it overrides. */
  datatype Manifest = Manifest(
    package: Option<Package>,
    lib: Option<Product>,
    dependencies: map<string, Dependency>,
    workspace: Option<Workspace>,
    patch: map<string, map<string, Dependency>>)

  /** `generate_manifest`: an unpublished 2018-edition package named after
      the Rune, built as a `cdylib` from `lib.rs` in a workspace of its own,
      with the Rune's dependencies and no patches. */
  method GenerateManifest(pbs: seq<ProcBlock>, name: string, currentDir: string, v: Versions) returns (m: Manifest)
    ensures m.package == Some(Package(name, E2018, "0.0.0", false, Some(V2)))
    ensures m.lib.Some? && m.lib.value.path == Some("lib.rs") && m.lib.value.edition == Some(E2018)
    ensures m.lib.Some? && m.lib.value.crateType == Some(["cdylib"])
    ensures m.workspace == Some(Workspace(["."], ["."], []))
    ensures m.dependencies == DependencyTable(pbs, currentDir, v)
    ensures m.patch == map[]
  {
    var deps := Dependencies(pbs, currentDir, v);
    m := Manifest(
      Some(Package(name, E2018, "0.0.0", false, Some(V2))),
      Some(Product(Some("lib.rs"), Some(E2018), Some(["cdylib"]))),
      deps,
      Some(Workspace(["."], ["."], [])),
      map[]);
  }

  /** `path_dependency`. */
  function PathDependency(path: string): (d: Dependency)
    ensures d.Detailed? && ExactlyOneSource(d.detail) && d.detail.path == Some(path)
  {
    Detailed(EmptyDetail.(path := Some(path)))
  }

  /** Where each known Rune crate lives inside the Rune repository. */
  const KnownPaths: seq<(string, string)> := [
    (CoreCrate, "crates/rune-core"),
    (ProcBlocksCrate, "proc-blocks/proc-blocks"),
    (BaseImageCrate, "images/runicos-base/wasm")]

  /** The first entry of `table` for `name`. */
  function Lookup(table: seq<(string, string)>, name: string): (r: Option<string>)
    ensures r.None? <==> forall k :: 0 <= k < |table| ==> table[k].0 != name
    ensures r.Some? ==> (name, r.value) in table
    ensures r.Some? ==> exists k :: && 0 <= k < |table| && table[k] == (name, r.value)
                                    && forall j :: 0 <= j < k ==> table[j].0 != name
  {
    if |table| == 0 then None
    else if table[0].0 == name then
      assert table[0] == (name, table[0].1);
      Some(table[0].1)
    else
      var r := Lookup(table[1..], name);
      if r.Some? then
        var k :| && 0 <= k < |table[1..]| && table[1..][k] == (name, r.value)
                 && forall j :: 0 <= j < k ==> table[1..][j].0 != name;
        assert table[k + 1] == (name, r.value);
        assert forall j :: 0 <= j < k + 1 ==> table[j].0 != name by {
          forall j | 0 <= j < k + 1 ensures table[j].0 != name {
            if j > 0 { assert table[j] == table[1..][j - 1]; }
          }
        }
        r
      else
        r
  }

  /** Where a Rune crate is found in a checkout: known crates at their place,
      anything else taken to be a proc block under `proc-blocks/`. */
  function OverridePath(repoDir: string, name: string): string {
    match Lookup(KnownPaths, name)
    case Some(p) => Join(repoDir, p)
    case None => Join(Join(repoDir, "proc-blocks"), name)
  }

  /** A dependency the patch redirects: a `hotg-` crate, or anything fetched
      from the Rune repository. */
  predicate UsesHotg(name: string, d: Dependency) {
    StartsWith(name, "hotg-") || GitOf(d) == Some(Repo)
  }

  /** The known places of the core and proc-blocks crates. */
  lemma KnownPathsOfForced()
    ensures Lookup(KnownPaths, CoreCrate) == Some("crates/rune-core")
    ensures Lookup(KnownPaths, ProcBlocksCrate) == Some("proc-blocks/proc-blocks")
  {
    assert KnownPaths[0].0 == CoreCrate;
    assert KnownPaths[0].0 != ProcBlocksCrate by {
      assert CoreCrate[10] != ProcBlocksCrate[10];
    }
    assert KnownPaths[1..][0] == (ProcBlocksCrate, "proc-blocks/proc-blocks");
  }

  /** Joining `a` and then `b` lands where joining `a/b` does. */
  lemma JoinTwo(repoDir: string, a: string, b: string)
    requires |a| > 0 && a[0] != '/' && a[|a| - 1] != '/'
    requires |b| > 0 && b[0] != '/'
    ensures Join(Join(repoDir, a), b) == Join(repoDir, a + "/" + b)
  {
    assert !StartsWith(b, "/");
    JoinNested(repoDir, a, b);
  }

  /** A crate whose known path is `a/b` is overridden to the same place
      by joining `a` and then `b`. */
  lemma OverrideByParts(repoDir: string, name: string, a: string, b: string)
    requires |a| > 0 && a[0] != '/' && a[|a| - 1] != '/'
    requires |b| > 0 && b[0] != '/'
    requires Lookup(KnownPaths, name) == Some(a + "/" + b)
    ensures Join(Join(repoDir, a), b) == OverridePath(repoDir, name)
  {
    JoinTwo(repoDir, a, b);
  }

  /** The core crate is overridden by joining one directory at a time,
      which lands on its known path. */
  lemma CoreOverrideIsKnown(repoDir: string)
    ensures Join(Join(repoDir, "crates"), "rune-core") == OverridePath(repoDir, CoreCrate)
  {
    KnownPathsOfForced();
    var a, b := "crates", "rune-core";
    assert |a| == 6 && a[0] == 'c' && a[5] == 's' && |b| == 9 && b[0] == 'r';
    assert a + "/" + b == "crates/rune-core";
    OverrideByParts(repoDir, CoreCrate, a, b);
  }

  /** Likewise the proc-blocks crate. */
  lemma ProcBlocksOverrideIsKnown(repoDir: string)
    ensures Join(Join(repoDir, "proc-blocks"), "proc-blocks") == OverridePath(repoDir, ProcBlocksCrate)
  {
    KnownPathsOfForced();
    var d := "proc-blocks";
    assert |d| == 11 && d[0] == 'p' && d[10] == 's';
    assert d + "/" + d == "proc-blocks/proc-blocks";
    OverrideByParts(repoDir, ProcBlocksCrate, d, d);
  }

  /** The overrides `patch_hotg_dependencies` computes: every Rune crate and
      proc block the manifest uses, plus the core and proc-blocks crates in
      any case, each redirected to its directory in the checkout. */
  function Overrides(repoDir: string, deps: map<string, Dependency>): (r: map<string, Dependency>)
    ensures forall n :: n in r ==> r[n] == PathDependency(OverridePath(repoDir, n))
  {
    var found := map n | n in deps && UsesHotg(n, deps[n]) :: PathDependency(OverridePath(repoDir, n));
    CoreOverrideIsKnown(repoDir);
    ProcBlocksOverrideIsKnown(repoDir);
    found[CoreCrate := PathDependency(Join(Join(repoDir, "crates"), "rune-core"))]
         [ProcBlocksCrate := PathDependency(Join(Join(repoDir, "proc-blocks"), "proc-blocks"))]
  }

  /** The crates overridden: exactly the Rune crates and proc blocks the
      manifest uses, plus the core and proc-blocks crates. */
  lemma OverridesKeys(repoDir: string, deps: map<string, Dependency>)
    ensures Overrides(repoDir, deps).Keys == (set n | n in deps && UsesHotg(n, deps[n])) + {CoreCrate, ProcBlocksCrate}
  {
  }

  /** `patch.entry(table).or_default().extend(entries)`. */
  function Extend(patch: map<string, map<string, Dependency>>, table: string, entries: map<string, Dependency>)
    : (r: map<string, map<string, Dependency>>)
    ensures r.Keys == patch.Keys + {table}
    ensures forall t :: t in patch && t != table ==> r[t] == patch[t]
    ensures table !in patch ==> r[table] == entries
    ensures r[table].Keys == entries.Keys + (if table in patch then patch[table].Keys else {})
    ensures forall n :: n in entries ==> r[table][n] == entries[n]
    ensures forall n :: n in r[table] && n !in entries ==> table in patch && r[table][n] == patch[table][n]
  {
    patch[table := (if table in patch then patch[table] else map[]) + entries]
  }

  /** `t` is what `table` of `patch` becomes once extended with `entries`:
      the old names and the new ones, the new entries winning, the old
      entries kept everywhere else. */
  predicate Extended(patch: map<string, map<string, Dependency>>, table: string, entries: map<string, Dependency>,
                     t: map<string, Dependency>)
  {
    && t.Keys == entries.Keys + (if table in patch then patch[table].Keys else {})
    && (forall n :: n in entries ==> t[n] == entries[n])
    && (forall n :: n in t && n !in entries ==> table in patch && t[n] == patch[table][n])
  }

  /** The two tables the overrides go into are different tables. */
  lemma PatchTablesDiffer()
    ensures CratesIo != Repo
  {
    assert CratesIo[0] != Repo[0];
  }

  /** The overrides added to the patches of both crates.io and the Rune
      repository; every other table is left alone. */
  function PatchWith(patch: map<string, map<string, Dependency>>, overrides: map<string, Dependency>)
    : (r: map<string, map<string, Dependency>>)
    ensures r.Keys == patch.Keys + {CratesIo, Repo}
    ensures forall t :: t in patch && t != CratesIo && t != Repo ==> r[t] == patch[t]
    ensures overrides.Keys <= r[CratesIo].Keys && overrides.Keys <= r[Repo].Keys
    ensures forall n :: n in overrides ==> r[CratesIo][n] == overrides[n] && r[Repo][n] == overrides[n]
    ensures Extended(patch, CratesIo, overrides, r[CratesIo]) && Extended(patch, Repo, overrides, r[Repo])
  {
    PatchTablesDiffer();
    var first := Extend(patch, CratesIo, overrides);
    var both := Extend(first, Repo, overrides);
    assert both[CratesIo] == first[CratesIo];
    both
  }

  /** `patch_hotg_dependencies`: the manifest's patches extended with the
      overrides its dependencies call for; nothing else changes. */
  function PatchHotgDependencies(repoDir: string, m: Manifest): (r: Manifest)
    ensures r == m.(patch := r.patch)
    ensures r.patch.Keys == m.patch.Keys + {CratesIo, Repo}
    ensures Overrides(repoDir, m.dependencies).Keys <= r.patch[CratesIo].Keys
    ensures Overrides(repoDir, m.dependencies).Keys <= r.patch[Repo].Keys
    ensures forall n :: n in Overrides(repoDir, m.dependencies) ==>
              r.patch[CratesIo][n] == PathDependency(OverridePath(repoDir, n)) &&
              r.patch[Repo][n] == PathDependency(OverridePath(repoDir, n))
    ensures forall t :: t in m.patch && t != CratesIo && t != Repo ==> r.patch[t] == m.patch[t]
    ensures Extended(m.patch, CratesIo, Overrides(repoDir, m.dependencies), r.patch[CratesIo])
    ensures Extended(m.patch, Repo, Overrides(repoDir, m.dependencies), r.patch[Repo])
  {
    m.(patch := PatchWith(m.patch, Overrides(repoDir, m.dependencies)))
  }

  /** Patching a manifest that had no patches creates exactly the two
      tables, each holding exactly the overrides. */
  lemma PatchFresh(repoDir: string, m: Manifest)
    requires m.patch == map[]
    ensures var o := Overrides(repoDir, m.dependencies);
            PatchHotgDependencies(repoDir, m).patch == map[CratesIo := o, Repo := o]
  {
    PatchTablesDiffer();
    var o := Overrides(repoDir, m.dependencies);
    var first := Extend(m.patch, CratesIo, o);
    assert first == map[CratesIo := o];
    var both := Extend(first, Repo, o);
    assert both == map[CratesIo := o, Repo := o];
  }

  /** Extending a table with entries it already holds changes nothing. */
  lemma ExtendAbsorbed(patch: map<string, map<string, Dependency>>, table: string, entries: map<string, Dependency>)
    requires table in patch
    requires forall n :: n in entries ==> n in patch[table] && patch[table][n] == entries[n]
    ensures Extend(patch, table, entries) == patch
  {
    var r := Extend(patch, table, entries);
    assert r[table] == patch[table];
  }

  /** Patching twice is patching once. */
  lemma PatchIdempotent(repoDir: string, m: Manifest)
    ensures PatchHotgDependencies(repoDir, PatchHotgDependencies(repoDir, m)) == PatchHotgDependencies(repoDir, m)
  {
    var once := PatchHotgDependencies(repoDir, m);
    var o := Overrides(repoDir, m.dependencies);
    assert Overrides(repoDir, once.dependencies) == o;
    ExtendAbsorbed(once.patch, CratesIo, o);
    ExtendAbsorbed(once.patch, Repo, o);
  }

  /** With a checkout configured, every builtin proc block is taken from the
      checkout's `proc-blocks` directory instead of the Rune repository. */
  lemma BuiltinProcBlocksArePatched(repoDir: string, m: Manifest, pb: ProcBlock, currentDir: string, v: Versions)
    requires pb.name in m.dependencies && IsBuiltin(pb.path)
    requires m.dependencies[pb.name] == Detailed(ProcBlockDependency(pb.path, currentDir, v.procBlocks))
    requires Lookup(KnownPaths, pb.name).None?
    ensures PatchHotgDependencies(repoDir, m).patch[CratesIo][pb.name]
              == PathDependency(Join(Join(repoDir, "proc-blocks"), pb.name))
  {
    assert UsesHotg(pb.name, m.dependencies[pb.name]);
    OverridesKeys(repoDir, m.dependencies);
  }

  /** A generated file, kept as its document before serialization. */
  datatype CargoFile = CargoFile(path: string, manifest: Manifest)

  /** The `generate_cargo_toml` pass: the manifest for the Rune's proc
      blocks, patched to a local checkout exactly when one is configured. */
  method GenerateCargoToml(ctx: BuildContext, features: FeatureFlags, pbs: seq<ProcBlock>, v: Versions)
    returns (f: CargoFile)
    ensures f.path == "Cargo.toml"
    ensures f.manifest.package == Some(Package(ctx.name, E2018, "0.0.0", false, Some(V2)))
    ensures f.manifest.lib == Some(Product(Some("lib.rs"), Some(E2018), Some(["cdylib"])))
    ensures f.manifest.workspace == Some(Workspace(["."], ["."], []))
    ensures f.manifest.package.Some? && f.manifest.package.value.name == ctx.name
    ensures f.manifest.dependencies == DependencyTable(pbs, ctx.currentDirectory, v)
    ensures f.manifest.patch == map[] <==> features.runeRepoDir.None?
    ensures features.runeRepoDir.Some? ==>
              f.manifest.patch.Keys == {CratesIo, Repo} &&
              f.manifest.patch[CratesIo] == f.manifest.patch[Repo] ==
                Overrides(features.runeRepoDir.value, f.manifest.dependencies)
  {
    var m := GenerateManifest(pbs, ctx.name, ctx.currentDirectory, v);
    if features.runeRepoDir.Some? {
      PatchFresh(features.runeRepoDir.value, m);
      m := PatchHotgDependencies(features.runeRepoDir.value, m);
    }
    f := CargoFile("Cargo.toml", m);
  }
}
