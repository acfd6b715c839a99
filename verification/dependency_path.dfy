/** The `base@version#sub_path` syntax a Runefile uses to point at a
    dependency: the `Path` record, its regex-based parser, its printer and the
    serde impls that delegate to the parser and the printer as written. */
module DependencyPath {
  import opened Wrappers

  /** `base` is a GitHub `owner/repo`, a URL or a local path; `version` is
      usually a git tag; `subPath` names a directory inside the repository. */
  datatype Path = Path(base: string, subPath: Option<string>, version: Option<string>)

  datatype PathParseError = PathParseError

  /** The regex engine's Unicode `\w` class, kept abstract: the model never
      looks inside the Unicode tables. `\d` is contained in `\w`, so the
      pattern's `[\w\d...]` classes are `\w` plus the listed punctuation. */
  type WordClass = char -> bool

  /** `\w` restricted to ASCII, where it is exactly `[0-9A-Za-z_]`; enough for
      the concrete examples below. */
  function AsciiWord(c: char): bool {
    ('a' <= c <= 'z') || ('A' <= c <= 'Z') || ('0' <= c <= '9') || c == '_'
  }

  /** `@` and `#` are punctuation, never word characters; the separators of
      the syntax depend on it. */
  predicate MarkersOutsideWords(w: WordClass) {
    !w('@') && !w('#')
  }

  /** The three character classes of the pattern: `[\w\d:/_.-]` for the base,
      `[\w\d./-]` for the version and `[\w\d._/-]` for the sub-path. */
  datatype Class = BaseClass | VersionClass | SubPathClass

  predicate In(w: WordClass, k: Class, c: char) {
    w(c) ||
    (match k
     case BaseClass => c == ':' || c == '/' || c == '_' || c == '.' || c == '-'
     case VersionClass => c == '.' || c == '/' || c == '-'
     case SubPathClass => c == '.' || c == '_' || c == '/' || c == '-')
  }

  predicate AllIn(w: WordClass, k: Class, s: string) {
    forall i :: 0 <= i < |s| ==> In(w, k, s[i])
  }

  predicate NoneIn(w: WordClass, k: Class, s: string) {
    forall i :: 0 <= i < |s| ==> !In(w, k, s[i])
  }

  /** The first position at or after `i` that holds a character of class `k`
      (`|s|` if there is none): where an unanchored search can start. */
  function SkipTo(w: WordClass, k: Class, s: string, i: nat): (j: nat)
    requires i <= |s|
    ensures i <= j <= |s|
    ensures NoneIn(w, k, s[i..j])
    ensures j < |s| ==> In(w, k, s[j])
    decreases |s| - i
  {
    if i == |s| || In(w, k, s[i]) then i
    else
      var j := SkipTo(w, k, s, i + 1);
      assert s[i..j] == [s[i]] + s[i + 1..j];
      j
  }

  lemma SkipToUnique(w: WordClass, k: Class, s: string, i: nat, j: nat)
    requires i <= j <= |s|
    requires NoneIn(w, k, s[i..j])
    requires j < |s| ==> In(w, k, s[j])
    ensures SkipTo(w, k, s, i) == j
  {
  }

  /** The end of the longest run of class-`k` characters starting at `i`: what
      a greedy `[...]+` consumes. */
  function RunEnd(w: WordClass, k: Class, s: string, i: nat): (j: nat)
    requires i <= |s|
    ensures i <= j <= |s|
    ensures AllIn(w, k, s[i..j])
    ensures j < |s| ==> !In(w, k, s[j])
    decreases |s| - i
  {
    if i < |s| && In(w, k, s[i]) then
      var j := RunEnd(w, k, s, i + 1);
      assert s[i..j] == [s[i]] + s[i + 1..j];
      j
    else
      i
  }

  lemma {:induction false} RunEndUnique(w: WordClass, k: Class, s: string, i: nat, j: nat)
    requires i <= j <= |s|
    requires AllIn(w, k, s[i..j])
    requires j < |s| ==> !In(w, k, s[j])
    ensures RunEnd(w, k, s, i) == j
    decreases j - i
  {
    if i < j {
      assert s[i..j][0] == s[i];
      assert s[i + 1..j] == s[i..j][1..];
      RunEndUnique(w, k, s, i + 1, j);
    }
  }

  /** An optional group `(?:<marker>[class]+)?` can match at `i`. */
  predicate GroupAt(w: WordClass, k: Class, marker: char, s: string, i: nat) {
    i + 1 < |s| && s[i] == marker && In(w, k, s[i + 1])
  }

  /** The optional group tried at `i`, greedily: present exactly when the
      marker is followed by a class character, and then as long as possible.
      Returns the capture and the position where matching goes on. */
  function OptionalGroup(w: WordClass, k: Class, marker: char, s: string, i: nat): (r: (Option<string>, nat))
    requires i <= |s|
    ensures i <= r.1 <= |s|
    ensures r.0.None? <==> !GroupAt(w, k, marker, s, i)
    ensures r.0.None? ==> r.1 == i
    ensures r.0.Some? ==> && r.1 == i + 1 + |r.0.value|
                          && s[i] == marker
                          && s[i + 1..r.1] == r.0.value
                          && |r.0.value| > 0
                          && AllIn(w, k, r.0.value)
                          && (r.1 < |s| ==> !In(w, k, s[r.1]))
  {
    if GroupAt(w, k, marker, s, i) then
      var e := RunEnd(w, k, s, i + 1);
      (Some(s[i + 1..e]), e)
    else
      (None, i)
  }

  /** Every component present is non-empty and drawn from its own class: the
      paths the pattern can capture. */
  predicate ValidPath(w: WordClass, p: Path) {
    && |p.base| > 0 && AllIn(w, BaseClass, p.base)
    && (p.version.Some? ==> |p.version.value| > 0 && AllIn(w, VersionClass, p.version.value))
    && (p.subPath.Some? ==> |p.subPath.value| > 0 && AllIn(w, SubPathClass, p.subPath.value))
  }

  /** `Path::from_str`: the first match of the unanchored pattern
      `(?P<base>[\w\d:/_.-]+)(?:@(?P<version>[\w\d./-]+))?(?:#(?P<sub_path>[\w\d._/-]+))?`.
      The match starts at the first base-class character; characters around
      the match are ignored. */
  function Parse(w: WordClass, s: string): (r: Result<Path, PathParseError>)
    ensures r.Err? <==> NoneIn(w, BaseClass, s)
    ensures r.Ok? ==> ValidPath(w, r.value)
  {
    var start := SkipTo(w, BaseClass, s, 0);
    assert s[0..|s|] == s;
    if start == |s| then Err(PathParseError) else Ok(Capture(w, s, start))
  }

  /** The captures of a match starting at `start`: the base, then each
      optional group, taken greedily. */
  function Capture(w: WordClass, s: string, start: nat): (p: Path)
    requires start < |s| && In(w, BaseClass, s[start])
    ensures ValidPath(w, p)
  {
    var end := RunEnd(w, BaseClass, s, start);
    assert s[start..end][0] == s[start];
    var version := OptionalGroup(w, VersionClass, '@', s, end);
    var subPath := OptionalGroup(w, SubPathClass, '#', s, version.1);
    Path(s[start..end], subPath.0, version.0)
  }

  /** The printed width of an optional component with its marker. */
  function GroupWidth(g: Option<string>): nat {
    match g
    case Some(x) => 1 + |x|
    case None => 0
  }

  /** The printer in the order the syntax is documented and parsed:
      `base`, then `@version`, then `#sub_path`. */
  function Display(p: Path): (r: string)
    ensures |r| == |p.base| + GroupWidth(p.version) + GroupWidth(p.subPath)
  {
    p.base
    + (match p.version case Some(v) => "@" + v case None => "")
    + (match p.subPath case Some(u) => "#" + u case None => "")
  }

  /** The `Display` impl as written: it prints `#sub_path` BEFORE `@version`. */
  function DisplayAsWritten(p: Path): (r: string)
    ensures |r| == |p.base| + GroupWidth(p.version) + GroupWidth(p.subPath)
    ensures r[..|p.base|] == p.base
    ensures p.subPath.Some? ==> r[|p.base|] == '#' && r[|p.base| + 1..|p.base| + 1 + |p.subPath.value|] == p.subPath.value
    ensures p.version.Some? ==> r[|r| - GroupWidth(p.version)] == '@' && r[|r| - |p.version.value|..] == p.version.value
  {
    p.base
    + (match p.subPath case Some(u) => "#" + u case None => "")
    + (match p.version case Some(v) => "@" + v case None => "")
  }

  /** The printed form of an optional component with its marker. */
  function Group(marker: char, g: Option<string>): (r: string)
    ensures |r| == GroupWidth(g)
  {
    match g
    case Some(x) => [marker] + x
    case None => ""
  }

  lemma DisplayParts(p: Path)
    ensures Display(p) == p.base + Group('@', p.version) + Group('#', p.subPath)
  {
  }

  /** No character of class `k` at position `j`: a greedy run ending at `j`
      could not go on. */
  predicate Stops(w: WordClass, k: Class, s: string, j: nat) {
    !(j < |s| && In(w, k, s[j]))
  }

  /** An optional group at `i` is captured as `g` the way a greedy pattern
      takes it: present and as long as possible, or absent because it cannot
      start there. */
  predicate GroupMaximal(w: WordClass, k: Class, marker: char, s: string, i: nat, g: Option<string>) {
    if g.Some? then Stops(w, k, s, i + GroupWidth(g)) else !GroupAt(w, k, marker, s, i)
  }

  /** What the pattern captures, stated without the scanner: `p` is captured
      by a match that starts at `i` with the base, followed by each present
      group with its marker; nothing matchable comes before it, the base and
      each group go as far as their classes allow, and a group is left out
      only when it cannot start. */
  ghost predicate MatchAt(w: WordClass, s: string, i: nat, p: Path) {
    var b := i + |p.base|;
    var v := b + GroupWidth(p.version);
    var e := v + GroupWidth(p.subPath);
    && ValidPath(w, p)
    && e <= |s|
    && s[i..b] == p.base
    && s[b..v] == Group('@', p.version)
    && s[v..e] == Group('#', p.subPath)
    && NoneIn(w, BaseClass, s[..i])
    && Stops(w, BaseClass, s, b)
    && GroupMaximal(w, VersionClass, '@', s, b, p.version)
    && GroupMaximal(w, SubPathClass, '#', s, v, p.subPath)
  }

  /** A group found by the scanner is a group the pattern would take. */
  lemma GroupFound(w: WordClass, k: Class, marker: char, s: string, i: nat)
    requires i <= |s|
    ensures var (g, e) := OptionalGroup(w, k, marker, s, i);
            && e == i + GroupWidth(g)
            && s[i..e] == Group(marker, g)
            && GroupMaximal(w, k, marker, s, i, g)
  {
    var (g, e) := OptionalGroup(w, k, marker, s, i);
    if g.Some? {
      assert s[i..e] == [s[i]] + s[i + 1..e];
    }
  }

  /** A group the pattern would take is the group the scanner finds. */
  lemma GroupMatches(w: WordClass, k: Class, marker: char, s: string, i: nat, g: Option<string>)
    requires i + GroupWidth(g) <= |s|
    requires s[i..i + GroupWidth(g)] == Group(marker, g)
    requires g.Some? ==> |g.value| > 0 && AllIn(w, k, g.value)
    requires GroupMaximal(w, k, marker, s, i, g)
    ensures OptionalGroup(w, k, marker, s, i) == (g, i + GroupWidth(g))
  {
    if g.Some? {
      var e := i + GroupWidth(g);
      assert s[i] == s[i..e][0] == marker;
      assert s[i + 1..e] == s[i..e][1..] == g.value;
      assert s[i + 1] == g.value[0];
      RunEndUnique(w, k, s, i + 1, e);
    }
  }

  lemma SliceOfSlice(s: string, i: nat, e: nat, a: nat, c: nat)
    requires i <= e <= |s| && a <= c <= e - i
    ensures s[i..e][a..c] == s[i + a..i + c]
  {
    forall k | 0 <= k < c - a
      ensures s[i..e][a..c][k] == s[i + a..i + c][k]
    {
      assert s[i..e][a..c][k] == s[i..e][a + k] == s[i + a + k];
    }
  }

  /** The three printed pieces of a path laid side by side form its printed
      form. */
  lemma DisplayFromPieces(s: string, i: nat, b: nat, v: nat, e: nat, p: Path)
    requires i <= b <= v <= e <= |s|
    requires s[i..b] == p.base
    requires s[b..v] == Group('@', p.version)
    requires s[v..e] == Group('#', p.subPath)
    ensures s[i..e] == Display(p)
  {
    DisplayParts(p);
    assert s[i..e] == s[i..b] + s[b..v] + s[v..e];
  }

  /** The printed form of a path found in `s` splits into its three pieces. */
  lemma PiecesFromDisplay(s: string, i: nat, p: Path)
    requires i + |Display(p)| <= |s|
    requires s[i..i + |Display(p)|] == Display(p)
    ensures var b := i + |p.base|;
            var v := b + GroupWidth(p.version);
            var e := v + GroupWidth(p.subPath);
            && s[i..b] == p.base
            && s[b..v] == Group('@', p.version)
            && s[v..e] == Group('#', p.subPath)
  {
    var b := i + |p.base|;
    var v := b + GroupWidth(p.version);
    var e := v + GroupWidth(p.subPath);
    var vs := Group('@', p.version);
    var us := Group('#', p.subPath);
    var d := p.base + vs + us;
    DisplayParts(p);
    assert d[..|p.base|] == p.base;
    assert d[|p.base|..|p.base| + |vs|] == vs;
    assert d[|p.base| + |vs|..] == us;
    SliceOfSlice(s, i, e, 0, b - i);
    SliceOfSlice(s, i, e, b - i, v - i);
    SliceOfSlice(s, i, e, v - i, e - i);
  }

  /** The parser returns the pattern's match. */
  lemma ParseFindsMatch(w: WordClass, s: string)
    requires Parse(w, s).Ok?
    ensures MatchAt(w, s, SkipTo(w, BaseClass, s, 0), Parse(w, s).value)
  {
    var start := SkipTo(w, BaseClass, s, 0);
    var end := RunEnd(w, BaseClass, s, start);
    var version := OptionalGroup(w, VersionClass, '@', s, end);
    var subPath := OptionalGroup(w, SubPathClass, '#', s, version.1);
    var p := Path(s[start..end], subPath.0, version.0);
    assert Parse(w, s) == Ok(p);
    GroupFound(w, VersionClass, '@', s, end);
    GroupFound(w, SubPathClass, '#', s, version.1);
    assert NoneIn(w, BaseClass, s[..start]) by {
      assert s[..start] == s[0..start];
    }
    MatchAtIntro(w, s, start, p);
  }

  /** The conjuncts of `MatchAt`, one at a time. */
  lemma MatchAtIntro(w: WordClass, s: string, i: nat, p: Path)
    requires ValidPath(w, p)
    requires i + |p.base| + GroupWidth(p.version) + GroupWidth(p.subPath) <= |s|
    requires s[i..i + |p.base|] == p.base
    requires s[i + |p.base|..i + |p.base| + GroupWidth(p.version)] == Group('@', p.version)
    requires s[i + |p.base| + GroupWidth(p.version)..i + |p.base| + GroupWidth(p.version) + GroupWidth(p.subPath)]
          == Group('#', p.subPath)
    requires NoneIn(w, BaseClass, s[..i])
    requires Stops(w, BaseClass, s, i + |p.base|)
    requires GroupMaximal(w, VersionClass, '@', s, i + |p.base|, p.version)
    requires GroupMaximal(w, SubPathClass, '#', s, i + |p.base| + GroupWidth(p.version), p.subPath)
    ensures MatchAt(w, s, i, p)
  {
  }

  /** The parser's result, given where each scanning step stops. */
  lemma ParseFromSteps(w: WordClass, s: string, i: nat, b: nat, p: Path)
    requires i < |s| && In(w, BaseClass, s[i])
    requires SkipTo(w, BaseClass, s, 0) == i
    requires RunEnd(w, BaseClass, s, i) == b && s[i..b] == p.base
    requires OptionalGroup(w, VersionClass, '@', s, b) == (p.version, b + GroupWidth(p.version))
    requires OptionalGroup(w, SubPathClass, '#', s, b + GroupWidth(p.version)).0 == p.subPath
    ensures Parse(w, s) == Ok(p)
  {
    assert Capture(w, s, i) == p;
  }

  /** A run of base characters with none before it is where the scanner
      starts and what it takes as the base. */
  lemma BaseSteps(w: WordClass, s: string, i: nat, b: nat)
    requires i < b <= |s|
    requires AllIn(w, BaseClass, s[i..b])
    requires NoneIn(w, BaseClass, s[..i])
    requires Stops(w, BaseClass, s, b)
    ensures In(w, BaseClass, s[i])
    ensures SkipTo(w, BaseClass, s, 0) == i && RunEnd(w, BaseClass, s, i) == b
  {
    assert s[i..b][0] == s[i];
    assert s[0..i] == s[..i];
    SkipToUnique(w, BaseClass, s, 0, i);
    RunEndUnique(w, BaseClass, s, i, b);
  }

  /** The pattern's match is what the parser returns. */
  lemma MatchParses(w: WordClass, s: string, i: nat, p: Path)
    requires MatchAt(w, s, i, p)
    ensures Parse(w, s) == Ok(p)
  {
    var b := i + |p.base|;
    var v := b + GroupWidth(p.version);
    BaseSteps(w, s, i, b);
    GroupMatches(w, VersionClass, '@', s, b, p.version);
    GroupMatches(w, SubPathClass, '#', s, v, p.subPath);
    ParseFromSteps(w, s, i, b, p);
  }

  /** A match spells out the printed form of what it captures. */
  lemma MatchSpellsDisplay(w: WordClass, s: string, i: nat, p: Path)
    requires MatchAt(w, s, i, p)
    ensures i + |Display(p)| <= |s| && s[i..i + |Display(p)|] == Display(p)
  {
    var b := i + |p.base|;
    var v := b + GroupWidth(p.version);
    DisplayFromPieces(s, i, b, v, v + GroupWidth(p.subPath), p);
  }

  /** Parsing undoes printing for every path the pattern can capture. */
  lemma DisplayRoundTrip(w: WordClass, p: Path)
    requires MarkersOutsideWords(w)
    requires ValidPath(w, p)
    ensures Parse(w, Display(p)) == Ok(p)
  {
    var s := Display(p);
    var b := |p.base|;
    var v := b + GroupWidth(p.version);
    DisplayParts(p);
    assert s[0..|s|] == s;
    assert b < |s| ==> s[b] == '@' || s[b] == '#';
    assert p.version.Some? && v < |s| ==> s[v] == '#';
    PiecesFromDisplay(s, 0, p);
    MatchParses(w, s, 0, p);
  }

  /** With at most one optional component the printer as written agrees with
      the documented order, so its output parses back. */
  lemma AsWrittenRoundTrip(w: WordClass, p: Path)
    requires MarkersOutsideWords(w)
    requires ValidPath(w, p)
    requires p.subPath.None? || p.version.None?
    ensures Parse(w, DisplayAsWritten(p)) == Ok(p)
  {
    assert DisplayAsWritten(p) == Display(p);
    DisplayRoundTrip(w, p);
  }

  /** With both optional components the printer as written puts `@version`
      after the sub-path, where the pattern no longer looks: the version is
      lost on re-parsing. */
  lemma AsWrittenDropsVersion(w: WordClass, p: Path)
    requires MarkersOutsideWords(w)
    requires ValidPath(w, p)
    requires p.subPath.Some? && p.version.Some?
    ensures Parse(w, DisplayAsWritten(p)) == Ok(p.(version := None))
  {
    var q := p.(version := None);
    var s := DisplayAsWritten(p);
    var e := |Display(q)|;
    DisplayParts(q);
    assert s == Display(q) + ("@" + p.version.value);
    assert s[0..e] == Display(q);
    assert s[e] == '@';
    assert s[|p.base|] == '#';
    PiecesFromDisplay(s, 0, q);
    MatchParses(w, s, 0, q);
  }

  /** The serde serializer writes `to_string()`, the printer as written. */
  function Serialize(p: Path): string {
    DisplayAsWritten(p)
  }

  /** The serializer in the documented order `base@version#sub_path`. */
  function SerializeIntended(p: Path): string {
    Display(p)
  }

  /** The serde deserializer parses the string, turning a parse failure into a
      custom error carrying the error's message. */
  function Deserialize(w: WordClass, s: string): (r: Result<Path, string>)
    ensures r.Err? <==> NoneIn(w, BaseClass, s)
    ensures r.Err? ==> r.error == "Unable to parse the path"
    ensures r.Ok? ==> ValidPath(w, r.value) && MatchAt(w, s, SkipTo(w, BaseClass, s, 0), r.value)
  {
    match Parse(w, s)
    case Ok(p) => ParseFindsMatch(w, s); Ok(p)
    case Err(_) => Err("Unable to parse the path")
  }

  /** Serde round trip: deserializing a serialized path gives it back when
      at most one of its optional components is present. */
  lemma SerdeRoundTrip(w: WordClass, p: Path)
    requires MarkersOutsideWords(w)
    requires ValidPath(w, p)
    requires p.subPath.None? || p.version.None?
    ensures Deserialize(w, Serialize(p)) == Ok(p)
  {
    AsWrittenRoundTrip(w, p);
  }

  /** With both optional components present, a serialized path comes back
      without its version. */
  lemma SerdeDropsVersion(w: WordClass, p: Path)
    requires MarkersOutsideWords(w)
    requires ValidPath(w, p)
    requires p.subPath.Some? && p.version.Some?
    ensures Deserialize(w, Serialize(p)) == Ok(p.(version := None))
  {
    AsWrittenDropsVersion(w, p);
  }

  /** The serializer in the documented order round-trips every valid path. */
  lemma SerdeIntendedRoundTrip(w: WordClass, p: Path)
    requires MarkersOutsideWords(w)
    requires ValidPath(w, p)
    ensures Deserialize(w, SerializeIntended(p)) == Ok(p)
  {
    DisplayRoundTrip(w, p);
  }

  lemma AllInConcat(w: WordClass, k: Class, a: string, b: string)
    requires AllIn(w, k, a) && AllIn(w, k, b)
    ensures AllIn(w, k, a + b)
  {
  }

  /** The parser's test vectors, read with ASCII `\w`: a bare name, a
      GitHub repository with a version, and the full `base@version#sub_path`
      form. */
  lemma ParseExampleBare()
    ensures Parse(AsciiWord, "asdf") == Ok(Path("asdf", None, None))
  {
    var p := Path("asdf", None, None);
    assert Display(p) == "asdf";
    DisplayRoundTrip(AsciiWord, p);
  }

  lemma ParseExampleVersion()
    ensures Parse(AsciiWord, "runicos/base@latest") == Ok(Path("runicos/base", None, Some("latest")))
  {
    var p := Path("runicos/base", None, Some("latest"));
    assert Display(p) == "runicos/base@latest";
    DisplayRoundTrip(AsciiWord, p);
  }

  /** The test vector with both optional components. */
  const FullExample := Path("hotg-ai/rune", Some("proc_blocks/normalize"), Some("v1.2"))

  /** Every character of the full test vector is in its component's class. */
  lemma FullExampleValid()
    ensures ValidPath(AsciiWord, FullExample)
  {
    AllInConcat(AsciiWord, BaseClass, "hotg-ai/", "rune");
    assert "hotg-ai/" + "rune" == FullExample.base;
    AllInConcat(AsciiWord, SubPathClass, "proc_blocks/", "normalize");
    assert "proc_blocks/" + "normalize" == FullExample.subPath.value;
    assert AllIn(AsciiWord, VersionClass, FullExample.version.value);
  }

  lemma ParseExampleFull()
    ensures Parse(AsciiWord, "hotg-ai/rune" + ("@" + "v1.2") + ("#" + "proc_blocks/normalize")) == Ok(FullExample)
  {
    var p := FullExample;
    assert p.base == "hotg-ai/rune" && p.subPath.value == "proc_blocks/normalize" && p.version.value == "v1.2";
    FullExampleValid();
    DisplayRoundTrip(AsciiWord, p);
  }

  /** The printer as written puts the sub-path of the full test vector
      before its version, and parsing that text loses the version. */
  lemma AsWrittenLosesExampleVersion()
    ensures DisplayAsWritten(FullExample) == "hotg-ai/rune" + ("#" + "proc_blocks/normalize") + ("@" + "v1.2")
    ensures Parse(AsciiWord, "hotg-ai/rune" + ("#" + "proc_blocks/normalize") + ("@" + "v1.2"))
         == Ok(Path("hotg-ai/rune", Some("proc_blocks/normalize"), None))
  {
    var p := FullExample;
    assert p.base == "hotg-ai/rune" && p.subPath.value == "proc_blocks/normalize" && p.version.value == "v1.2";
    FullExampleValid();
    AsWrittenDropsVersion(AsciiWord, p);
  }
}
