/** String helpers with the meaning of the Rust standard library methods the
    compiler calls: `starts_with`, `ends_with`, `trim_start_matches`,
    `trim_end_matches` and `trim_matches`. */
module Strings {

  predicate StartsWith(s: string, p: string) {
    p <= s
  }

  predicate EndsWith(s: string, p: string) {
    |p| <= |s| && s[|s| - |p|..] == p
  }

  /** Concatenation regroups freely. */
  lemma ConcatAssoc(a: string, b: string, c: string)
    ensures a + b + c == a + (b + c)
  {
  }

  /** `k` copies of `p` laid end to end. */
  function Repeat(p: string, k: nat): string {
    if k == 0 then [] else p + Repeat(p, k - 1)
  }

  lemma {:induction false} RepeatSnoc(p: string, k: nat)
    ensures Repeat(p, k) + p == Repeat(p, k + 1)
  {
    if k > 0 {
      RepeatSnoc(p, k - 1);
      calc {
        Repeat(p, k) + p;
        p + (Repeat(p, k - 1) + p);
        p + Repeat(p, k);
      }
    }
  }

  /** How many copies of `p` `trim_start_matches` removes from the front of `s`. */
  ghost function LeadingCopies(s: string, p: string): nat
    requires |p| > 0
    decreases |s|
  {
    if StartsWith(s, p) then 1 + LeadingCopies(s[|p|..], p) else 0
  }

  /** `s.trim_start_matches(p)` for a non-empty pattern: every leading copy of
      `p` is removed. */
  function TrimStartMatches(s: string, p: string): (r: string)
    requires |p| > 0
    ensures s == Repeat(p, LeadingCopies(s, p)) + r
    ensures !StartsWith(r, p)
    decreases |s|
  {
    if StartsWith(s, p) then
      var r := TrimStartMatches(s[|p|..], p);
      PeelFirst(s, p, r, LeadingCopies(s[|p|..], p));
      r
    else
      s
  }

  /** A string starting with `p` is one copy followed by its back. */
  lemma PeelFirst(s: string, p: string, r: string, n: nat)
    requires StartsWith(s, p) && s[|p|..] == Repeat(p, n) + r
    ensures s == Repeat(p, n + 1) + r
  {
    assert s == p + s[|p|..];
    ConcatAssoc(p, Repeat(p, n), r);
  }

  /** Any way of writing `s` as copies of `p` followed by a rest that does not
      start with `p` is the one `TrimStartMatches` finds. */
  lemma {:induction false} TrimStartMatchesUnique(s: string, p: string, k: nat, t: string)
    requires |p| > 0
    requires s == Repeat(p, k) + t
    requires !StartsWith(t, p)
    ensures TrimStartMatches(s, p) == t
  {
    if k == 0 {
      assert s == t;
    } else {
      var u := Repeat(p, k - 1) + t;
      assert s == p + u;
      assert s[|p|..] == u;
      assert StartsWith(s, p);
      TrimStartMatchesUnique(u, p, k - 1, t);
      assert TrimStartMatches(s, p) == TrimStartMatches(u, p);
    }
  }

  /** How many copies of `p` `trim_end_matches` removes from the back of `s`. */
  ghost function TrailingCopies(s: string, p: string): nat
    requires |p| > 0
    decreases |s|
  {
    if EndsWith(s, p) then 1 + TrailingCopies(s[..|s| - |p|], p) else 0
  }

  /** `s.trim_end_matches(p)` for a non-empty pattern: every trailing copy of
      `p` is removed. */
  function TrimEndMatches(s: string, p: string): (r: string)
    requires |p| > 0
    ensures s == r + Repeat(p, TrailingCopies(s, p))
    ensures !EndsWith(r, p)
    decreases |s|
  {
    if EndsWith(s, p) then
      var init := s[..|s| - |p|];
      var r := TrimEndMatches(init, p);
      PeelLast(s, p, r, TrailingCopies(init, p));
      r
    else
      s
  }

  /** A string ending in `p` is its front followed by one more copy. */
  lemma PeelLast(s: string, p: string, r: string, n: nat)
    requires EndsWith(s, p) && s[..|s| - |p|] == r + Repeat(p, n)
    ensures s == r + Repeat(p, n + 1)
  {
    assert s == s[..|s| - |p|] + p;
    ConcatAssoc(r, Repeat(p, n), p);
    RepeatSnoc(p, n);
  }

  /** Any way of writing `s` as a rest that does not end with `p` followed by
      copies of `p` is the one `TrimEndMatches` finds. */
  lemma {:induction false} TrimEndMatchesUnique(s: string, p: string, k: nat, t: string)
    requires |p| > 0
    requires s == t + Repeat(p, k)
    requires !EndsWith(t, p)
    ensures TrimEndMatches(s, p) == t
  {
    if k == 0 {
      assert s == t;
    } else {
      RepeatSnoc(p, k - 1);
      var u := t + Repeat(p, k - 1);
      assert s == u + p;
      assert s[..|s| - |p|] == u;
      assert EndsWith(s, p) by {
        assert s[|s| - |p|..] == p;
      }
      TrimEndMatchesUnique(u, p, k - 1, t);
      assert TrimEndMatches(s, p) == TrimEndMatches(u, p);
    }
  }

  /** `s.trim_matches(c)`: every leading and every trailing `c` is removed. */
  function TrimMatches(s: string, c: char): (r: string)
    ensures !StartsWith(r, [c]) && !EndsWith(r, [c])
    ensures exists a: nat, b: nat :: s == Repeat([c], a) + r + Repeat([c], b)
  {
    var t := TrimStartMatches(s, [c]);
    var r := TrimEndMatches(t, [c]);
    assert t == r + Repeat([c], TrailingCopies(t, [c]));
    assert |r| > 0 ==> r[0] == t[0];
    ConcatAssoc(Repeat([c], LeadingCopies(s, [c])), r, Repeat([c], TrailingCopies(t, [c])));
    r
  }

  /** Copies laid after copies are copies. */
  lemma {:induction false} RepeatAdd(p: string, a: nat, b: nat)
    ensures Repeat(p, a) + Repeat(p, b) == Repeat(p, a + b)
  {
    if a > 0 {
      RepeatAdd(p, a - 1, b);
      ConcatAssoc(p, Repeat(p, a - 1), Repeat(p, b));
    }
  }

  /** Any way of writing `s` as leading `c`s, a middle that neither starts nor
      ends with `c`, and trailing `c`s is the one `TrimMatches` finds. */
  lemma TrimMatchesUnique(s: string, c: char, a: nat, r: string, b: nat)
    requires s == Repeat([c], a) + r + Repeat([c], b)
    requires !StartsWith(r, [c]) && !EndsWith(r, [c])
    ensures TrimMatches(s, c) == r
  {
    if r == [] {
      RepeatAdd([c], a, b);
      assert s == Repeat([c], a + b) + [];
      TrimStartMatchesUnique(s, [c], a + b, []);
      assert TrimEndMatches([], [c]) == [];
    } else {
      var t := r + Repeat([c], b);
      ConcatAssoc(Repeat([c], a), r, Repeat([c], b));
      assert !StartsWith(t, [c]) by {
        assert t[0] == r[0];
        assert !([c] <= r);
      }
      TrimStartMatchesUnique(s, [c], a, t);
      TrimEndMatchesUnique(t, [c], b, r);
    }
  }

  /** Copies of the empty string are empty. */
  lemma {:induction false} RepeatOfEmpty(k: nat)
    ensures Repeat([], k) == []
  {
    if k > 0 {
      RepeatOfEmpty(k - 1);
    }
  }
}
