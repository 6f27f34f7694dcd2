/** The part of `pathlib.PurePosixPath` the converter relies on: `name`,
    `suffix`, `stem` and `with_suffix`, over path strings that are already in
    normal form (no repeated or trailing '/', no "." components), so that
    `str(Path(p)) == p`. The rules are those of CPython 3.8 to 3.12: a
    suffix needs a '.' that is neither the first nor the last character of
    the name, and `with_suffix` checks for a separator, then for a malformed
    suffix (including "."), then for an empty name. */
module Paths {
  import opened Basics

  /** `c` does not occur in `s`. */
  predicate Free(s: string, c: char)
  {
    forall k :: 0 <= k < |s| ==> s[k] != c
  }

  /** `s.rfind(c)`: the index of the last `c` in `s`, or -1 when there is none. */
  function RFind(s: string, c: char): (i: int)
    ensures -1 <= i < |s|
    ensures 0 <= i ==> s[i] == c
    ensures forall k :: i < k < |s| ==> s[k] != c
    decreases |s|
  {
    if s == [] then -1
    else if s[|s| - 1] == c then |s| - 1
    else RFind(s[..|s| - 1], c)
  }

  /** The text after the last '/' of `p` (all of `p` when it has none). */
  function LastSegment(p: string): (s: string)
    ensures Free(s, '/')
  {
    p[RFind(p, '/') + 1..]
  }

  /** Everything before the final component, trailing '/' included. */
  function Dir(p: string): (d: string)
    ensures d == [] || d[|d| - 1] == '/'
    ensures p == d + LastSegment(p)
  {
    p[..RFind(p, '/') + 1]
  }

  /** `Path(p).name`: the final component; the path "." has an empty name. */
  function Name(p: string): (n: string)
    ensures Free(n, '/') && n != "."
    ensures n == [] || n == LastSegment(p)
  {
    if LastSegment(p) == "." then [] else LastSegment(p)
  }

  /** A well-formed file extension: a '.' followed by at least one character,
      none of them '.' or '/'. */
  predicate IsExtension(x: string)
  {
    |x| >= 2 && x[0] == '.' && forall k :: 1 <= k < |x| ==> x[k] != '.' && x[k] != '/'
  }

  /** `Path(p).suffix`: the final component's last '.'-segment, or "" when the
      component has no '.', starts with its only '.', or ends in '.'. */
  function Suffix(p: string): (x: string)
    ensures x == [] || IsExtension(x)
    ensures x != [] ==> |x| < |Name(p)| && x == Name(p)[|Name(p)| - |x|..]
  {
    var n := Name(p);
    var i := RFind(n, '.');
    if 0 < i < |n| - 1 then n[i..] else []
  }

  /** `Path(p).stem`: the final component without its suffix. */
  function Stem(p: string): (s: string)
    ensures Name(p) == s + Suffix(p)
    ensures Name(p) != [] ==> s != []
  {
    var n, x := Name(p), Suffix(p);
    SplitAt(n, |n| - |x|);
    n[..|n| - |x|]
  }

  /** The `ValueError`s that `with_suffix` raises. */
  datatype PathError = InvalidSuffix(suffix: string) | EmptyName(path: string)

  /** `Path(p).with_suffix(x)`: replaces the suffix of the final component by
      `x` (or appends `x` when there is none). */
  function WithSuffix(p: string, x: string): (r: Result<string, PathError>)
    ensures r.Err? <==> !Free(x, '/') || (x != [] && x[0] != '.') || x == "." || Name(p) == []
  {
    if !Free(x, '/') || (x != [] && x[0] != '.') || x == "." then Err(InvalidSuffix(x))
    else if Name(p) == [] then Err(EmptyName(p))
    else Ok(Dir(p) + Stem(p) + x)
  }

  lemma SplitAt(s: string, k: nat)
    requires k <= |s|
    ensures s == s[..k] + s[k..]
  {
  }

  /** The contract of `RFind` pins its result down: an occurrence of `c` with
      none after it is the one `RFind` finds. */
  lemma RFindAt(s: string, c: char, i: int)
    requires -1 <= i < |s|
    requires 0 <= i ==> s[i] == c
    requires forall k :: i < k < |s| ==> s[k] != c
    ensures RFind(s, c) == i
  {
  }

  /** Appending a '/'-free text to a directory prefix makes it the last segment. */
  lemma LastSegmentOfJoin(d: string, t: string)
    requires d == [] || d[|d| - 1] == '/'
    requires Free(t, '/')
    ensures LastSegment(d + t) == t
    ensures Dir(d + t) == d
  {
    var p := d + t;
    RFindAt(p, '/', |d| - 1);
    assert p[|d|..] == t;
    assert p[..|d|] == d;
  }

  /** A '/'-free final component other than "." is the name of the path. */
  lemma NameOfJoin(d: string, t: string)
    requires d == [] || d[|d| - 1] == '/'
    requires Free(t, '/') && t != "."
    ensures Name(d + t) == t
    ensures Dir(d + t) == d
  {
    LastSegmentOfJoin(d, t);
  }

  lemma Assoc(a: string, b: string, c: string)
    ensures a + b + c == a + (b + c)
  {
  }

  /** A file named `stem` + `x` in directory `d` has suffix `x`, whatever
      `stem` holds (further dots included), as long as `stem` is not empty. */
  lemma SuffixOfSplit(d: string, stem: string, x: string)
    requires d == [] || d[|d| - 1] == '/'
    requires stem != [] && Free(stem, '/')
    requires IsExtension(x)
    ensures Name(d + stem + x) == stem + x
    ensures Suffix(d + stem + x) == x
  {
    var n := stem + x;
    Assoc(d, stem, x);
    assert |n| != |"."| && Free(n, '/');
    NameOfJoin(d, n);
    RFindAt(n, '.', |stem|);
    assert n[|stem|..] == x;
  }

  /** A final component whose only '.' is its first character (".bashrc") has
      no suffix. */
  lemma LeadingDotNoSuffix(d: string, x: string)
    requires d == [] || d[|d| - 1] == '/'
    requires IsExtension(x)
    ensures Name(d + x) == x
    ensures Suffix(d + x) == []
  {
    assert |x| != |"."|;
    NameOfJoin(d, x);
    RFindAt(x, '.', 0);
  }

  lemma CancelRight(a: string, b: string, c: string)
    requires a + c == b + c
    ensures a == b
  {
    assert a == (a + c)[..|a|];
  }

  /** `with_suffix` keeps the directory and the stem, and a well-formed
      extension put on with it is the suffix read back. */
  lemma WithSuffixThenSuffix(p: string, x: string)
    requires WithSuffix(p, x).Ok?
    requires IsExtension(x)
    ensures Dir(WithSuffix(p, x).value) == Dir(p)
    ensures Name(WithSuffix(p, x).value) == Stem(p) + x
    ensures Stem(WithSuffix(p, x).value) == Stem(p)
    ensures Suffix(WithSuffix(p, x).value) == x
  {
    var q := WithSuffix(p, x).value;
    var s := Stem(p);
    assert Free(s, '/') by {
      assert forall k :: 0 <= k < |s| ==> s[k] == Name(p)[k];
    }
    SuffixOfSplit(Dir(p), s, x);
    Assoc(Dir(p), s, x);
    assert Free(s + x, '/') && s + x != ".";
    NameOfJoin(Dir(p), s + x);
    CancelRight(Stem(q), s, x);
  }

  /** `with_suffix` with any non-empty suffix it accepts, dots inside it
      included (".writer.lua"), keeps the directory and names the file stem
      + suffix. */
  lemma WithSuffixName(p: string, x: string)
    requires WithSuffix(p, x).Ok?
    requires x != []
    ensures Dir(WithSuffix(p, x).value) == Dir(p)
    ensures Name(WithSuffix(p, x).value) == Stem(p) + x
  {
    var s := Stem(p);
    assert Free(s, '/') by {
      assert forall k :: 0 <= k < |s| ==> s[k] == Name(p)[k];
    }
    assert WithSuffix(p, x).value == Dir(p) + s + x;
    Assoc(Dir(p), s, x);
    FreeAppend(s, x, '/');
    assert |s + x| != |"."|;
    NameOfJoin(Dir(p), s + x);
  }

  lemma FreeAppend(a: string, b: string, c: char)
    requires Free(a, c) && Free(b, c)
    ensures Free(a + b, c)
  {
    assert forall k :: |a| <= k < |a + b| ==> (a + b)[k] == b[k - |a|];
  }

  /** Putting on the same extension twice changes nothing the second time. */
  lemma WithSuffixIdempotent(p: string, x: string)
    requires WithSuffix(p, x).Ok?
    requires IsExtension(x)
    ensures WithSuffix(WithSuffix(p, x).value, x) == WithSuffix(p, x)
  {
    WithSuffixThenSuffix(p, x);
  }
}
