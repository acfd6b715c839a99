/** The parts of Rust's `std::path::Path` that the compiler relies on, for
    Unix-style paths held as strings: `join`, `file_name` and `file_stem`. */
module FsPath {
  import opened Wrappers
  import opened Strings

  /** `base.join(p)`: an absolute `p` replaces `base`; otherwise `p` is appended,
      with a separator unless `base` is empty or already ends in one. */
  function Join(base: string, p: string): (r: string)
    ensures StartsWith(p, "/") ==> r == p
    ensures !StartsWith(p, "/") ==> StartsWith(r, base) && EndsWith(r, p)
    ensures !StartsWith(p, "/") ==> |r| - |base| - |p| == (if |base| > 0 && base[|base| - 1] != '/' then 1 else 0)
  {
    if StartsWith(p, "/") then p
    else if |base| > 0 && base[|base| - 1] != '/' then base + "/" + p
    else base + p
  }

  /** Joining one relative component and then another is joining both at once. */
  lemma JoinNested(base: string, a: string, b: string)
    requires |a| > 0 && a[0] != '/' && a[|a| - 1] != '/'
    requires !StartsWith(b, "/")
    ensures Join(Join(base, a), b) == Join(base, a + "/" + b)
  {
    assert !StartsWith(a, "/");
    var ab := a + "/" + b;
    assert !StartsWith(ab, "/") by {
      assert ab[0] == a[0];
    }
    var sep := if |base| > 0 && base[|base| - 1] != '/' then "/" else "";
    var x := base + sep + a;
    assert Join(base, a) == x;
    assert Join(base, ab) == base + sep + ab;
    assert x[|x| - 1] == a[|a| - 1];
    assert Join(x, b) == x + "/" + b;
    ConcatAssoc(base + sep, a, "/");
    ConcatAssoc(base + sep, a + "/", b);
  }

  /** The position of the first `c` in `s`, or `|s|` if there is none. */
  function IndexOf(s: string, c: char): (i: nat)
    ensures i <= |s|
    ensures c !in s[..i]
    ensures i < |s| ==> s[i] == c
  {
    if |s| == 0 || s[0] == c then 0
    else
      var i := 1 + IndexOf(s[1..], c);
      assert s[..i] == [s[0]] + s[1..][..i - 1];
      i
  }

  /** The first `c` is the only position with no `c` before it and `c` at it. */
  lemma IndexOfUnique(s: string, c: char, j: nat)
    requires j <= |s| && c !in s[..j] && (j < |s| ==> s[j] == c)
    ensures IndexOf(s, c) == j
  {
  }

  /** The position of the last `c` in `s`, or -1 if there is none. */
  function LastIndexOf(s: string, c: char): (i: int)
    ensures -1 <= i < |s|
    ensures 0 <= i ==> s[i] == c
    ensures forall k :: i < k < |s| ==> s[k] != c
  {
    if |s| == 0 then -1
    else if s[|s| - 1] == c then |s| - 1
    else LastIndexOf(s[..|s| - 1], c)
  }

  /** The pieces of `s` between the separators. */
  function Segments(s: string): (r: seq<string>)
    ensures |r| > 0
    ensures forall k :: 0 <= k < |r| ==> '/' !in r[k]
    decreases |s|
  {
    var i := IndexOf(s, '/');
    if i == |s| then [s] else [s[..i]] + Segments(s[i + 1..])
  }

  /** Glues pieces back together with separators between them. */
  function Unsplit(pieces: seq<string>): string
    requires |pieces| > 0
  {
    if |pieces| == 1 then pieces[0] else pieces[0] + "/" + Unsplit(pieces[1..])
  }

  /** Splitting loses nothing: the pieces glue back into the path. */
  lemma {:induction false} SegmentsUnsplit(s: string)
    ensures Unsplit(Segments(s)) == s
    decreases |s|
  {
    var i := IndexOf(s, '/');
    if i < |s| {
      SegmentsUnsplit(s[i + 1..]);
      assert s == s[..i] + "/" + s[i + 1..];
    }
  }

  /** A trailing component without separators becomes one more segment. */
  lemma {:induction false} SegmentsAppend(x: string, n: string)
    requires '/' !in n
    ensures Segments(x + "/" + n) == Segments(x) + [n]
    decreases |x|
  {
    var s := x + "/" + n;
    var i := IndexOf(x, '/');
    if i < |x| {
      assert s[..i] == x[..i];
      IndexOfUnique(s, '/', i);
      assert s[i + 1..] == x[i + 1..] + "/" + n;
      SegmentsAppend(x[i + 1..], n);
    } else {
      assert s[..|x|] == x;
      IndexOfUnique(s, '/', |x|);
      assert s[|x| + 1..] == n;
      IndexOfUnique(n, '/', |n|);
    }
  }

  /** The normal components: the segments other than empty ones (repeated or
      trailing separators) and `.`, in order. */
  function NormalComponents(segments: seq<string>): (r: seq<string>)
    ensures forall k :: 0 <= k < |r| ==> r[k] != "" && r[k] != "." && r[k] in segments
  {
    if |segments| == 0 then []
    else
      var last := segments[|segments| - 1];
      var init := NormalComponents(segments[..|segments| - 1]);
      assert forall k :: 0 <= k < |init| ==> init[k] in segments by {
        forall k | 0 <= k < |init| ensures init[k] in segments {
          assert init[k] in segments[..|segments| - 1];
        }
      }
      if last == "" || last == "." then init else init + [last]
  }

  /** `p.file_name()`: the last component when it is a normal name, `None` for
      a path that is empty, is the root, or ends in `..`. */
  function FileName(p: string): (r: Option<string>)
    ensures r.Some? ==> |r.value| > 0 && '/' !in r.value && r.value != "." && r.value != ".."
  {
    var cs := NormalComponents(Segments(p));
    if |cs| == 0 || cs[|cs| - 1] == ".." then None else Some(cs[|cs| - 1])
  }

  /** A path whose last segment is a normal name is named by that segment. */
  lemma FileNameOfLastSegment(p: string, init: seq<string>, n: string)
    requires Segments(p) == init + [n]
    requires |n| > 0 && n != "." && n != ".."
    ensures FileName(p) == Some(n)
  {
    var segs := init + [n];
    assert segs[..|segs| - 1] == init;
  }

  /** The name of a path built by joining a normal component is that component. */
  lemma FileNameOfJoin(dir: string, n: string)
    requires |n| > 0 && '/' !in n && n != "." && n != ".."
    ensures FileName(Join(dir, n)) == Some(n)
  {
    assert !StartsWith(n, "/") by {
      assert n[0] != '/';
    }
    if |dir| == 0 {
      assert Join(dir, n) == n;
      assert n[..|n|] == n;
      IndexOfUnique(n, '/', |n|);
      FileNameOfLastSegment(n, [], n);
    } else {
      var x := if dir[|dir| - 1] != '/' then dir else dir[..|dir| - 1];
      assert Join(dir, n) == x + "/" + n;
      SegmentsAppend(x, n);
      FileNameOfLastSegment(Join(dir, n), Segments(x), n);
    }
  }

  /** The part of a file name before its last `.`, as `Path::file_stem` takes
      it: a name with no `.`, with only a leading `.`, or equal to `..` is its
      own stem. */
  function StemOf(name: string): (r: string)
    requires |name| > 0
    ensures 0 < |r| <= |name| && StartsWith(name, r)
    ensures '.' !in name ==> r == name
  {
    if name == ".." then name
    else
      var i := LastIndexOf(name, '.');
      if i <= 0 then name else name[..i]
  }

  /** `p.file_stem()`. */
  function FileStem(p: string): (r: Option<string>)
    ensures r.Some? <==> FileName(p).Some?
    ensures r.Some? ==> |r.value| > 0 && '/' !in r.value && StartsWith(FileName(p).value, r.value)
  {
    match FileName(p)
    case None => None
    case Some(name) =>
      var stem := StemOf(name);
      assert forall k :: 0 <= k < |stem| ==> stem[k] == name[k];
      Some(stem)
  }
}
