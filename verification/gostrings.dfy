/**
 * The few functions of Go's `strings` and `path/filepath` packages that the tool
 * uses to derive names from paths, for the Unix path separator '/'.
 */
module GoStrings {
  import opened Wrappers

  const Separator: char := '/'

  /** sep occurs in s starting at position i. */
  predicate OccursAt(s: string, sep: string, i: nat) {
    i + |sep| <= |s| && s[i..i + |sep|] == sep
  }

  /** strings.Index: the first position at which sep occurs in s. */
  function Index(s: string, sep: string): (r: Option<nat>)
    ensures r.Some? ==> OccursAt(s, sep, r.value)
    ensures r.Some? ==> forall j: nat :: j < r.value ==> !OccursAt(s, sep, j)
    ensures r.None? ==> forall j: nat :: !OccursAt(s, sep, j)
  {
    IndexFrom(s, sep, 0)
  }

  function IndexFrom(s: string, sep: string, k: nat): (r: Option<nat>)
    ensures r.Some? ==> k <= r.value && OccursAt(s, sep, r.value)
    ensures r.Some? ==> forall j: nat :: k <= j < r.value ==> !OccursAt(s, sep, j)
    ensures r.None? ==> forall j: nat :: k <= j ==> !OccursAt(s, sep, j)
    decreases |s| - k
  {
    if k + |sep| > |s| then None
    else if OccursAt(s, sep, k) then Some(k)
    else IndexFrom(s, sep, k + 1)
  }

  /**
   * strings.SplitAfter: cuts s after every occurrence of sep; the pieces keep
   * their separator, and the last piece is what follows the last occurrence.
   */
  function SplitAfter(s: string, sep: string): (r: seq<string>)
    requires |sep| > 0
    ensures |r| >= 1
    decreases |s|
  {
    match Index(s, sep)
    case None => [s]
    case Some(i) => [s[..i + |sep|]] + SplitAfter(s[i + |sep|..], sep)
  }

  function Concat(pieces: seq<string>): string {
    if |pieces| == 0 then "" else pieces[0] + Concat(pieces[1..])
  }

  /** If sep occurs in s at i and nowhere before, it occurs nowhere before i in any prefix of s either. */
  lemma FirstOccurrenceInPrefix(s: string, sep: string, i: nat, m: nat)
    requires OccursAt(s, sep, i) && forall j: nat :: j < i ==> !OccursAt(s, sep, j)
    requires i + |sep| <= m <= |s|
    ensures Index(s[..m], sep) == Some(i)
  {
    var p := s[..m];
    assert p[i..i + |sep|] == s[i..i + |sep|];
    assert OccursAt(p, sep, i);
    forall j: nat | j < i
      ensures !OccursAt(p, sep, j)
    {
      if OccursAt(p, sep, j) {
        assert p[j..j + |sep|] == s[j..j + |sep|];
        assert OccursAt(s, sep, j);
      }
    }
  }

  /** The pieces of SplitAfter glue back to s. */
  lemma {:induction false} SplitAfterConcat(s: string, sep: string)
    requires |sep| > 0
    ensures Concat(SplitAfter(s, sep)) == s
    decreases |s|
  {
    match Index(s, sep)
    case None =>
    case Some(i) =>
      SplitAfterConcat(s[i + |sep|..], sep);
      assert s[..i + |sep|] + s[i + |sep|..] == s;
  }

  /** There are at least two pieces exactly when sep occurs in s. */
  lemma SplitAfterCount(s: string, sep: string)
    requires |sep| > 0
    ensures |SplitAfter(s, sep)| >= 2 <==> Index(s, sep).Some?
  {
    match Index(s, sep)
    case None =>
    case Some(i) =>
      assert |SplitAfter(s, sep)| == 1 + |SplitAfter(s[i + |sep|..], sep)|;
  }

  /** Every piece of SplitAfter but the last ends with its first and only occurrence of sep. */
  lemma {:induction false} SplitAfterPiece(s: string, sep: string, k: nat)
    requires |sep| > 0
    requires k < |SplitAfter(s, sep)| - 1
    ensures EndsWithFirst(SplitAfter(s, sep)[k], sep)
    decreases k
  {
    var i := Index(s, sep).value;
    var tail := s[i + |sep|..];
    assert SplitAfter(s, sep) == [s[..i + |sep|]] + SplitAfter(tail, sep);
    if k == 0 {
      FirstOccurrenceInPrefix(s, sep, i, i + |sep|);
    } else {
      SplitAfterPiece(tail, sep, k - 1);
    }
  }

  /** The last piece of SplitAfter holds no sep. */
  lemma {:induction false} SplitAfterLast(s: string, sep: string)
    requires |sep| > 0
    ensures Index(SplitAfter(s, sep)[|SplitAfter(s, sep)| - 1], sep).None?
    decreases |s|
  {
    match Index(s, sep)
    case None =>
    case Some(i) =>
      var tail := s[i + |sep|..];
      SplitAfterLast(tail, sep);
      assert SplitAfter(s, sep) == [s[..i + |sep|]] + SplitAfter(tail, sep);
  }

  /** s ends with sep, and that is the first place sep occurs in s. */
  predicate EndsWithFirst(s: string, sep: string) {
    |s| >= |sep| && Index(s, sep) == Some(|s| - |sep|)
  }

  /** strings.Split for a one-character separator: the text between separators. */
  function Split(s: string, sep: char): (r: seq<string>)
    ensures |r| >= 1
  {
    if |s| == 0 then [""]
    else
      var rest := Split(s[1..], sep);
      if s[0] == sep then [""] + rest else [[s[0]] + rest[0]] + rest[1..]
  }

  /** strings.Join: the parts with sep between consecutive ones. */
  function Join(parts: seq<string>, sep: string): string {
    if |parts| == 0 then ""
    else if |parts| == 1 then parts[0]
    else parts[0] + sep + Join(parts[1..], sep)
  }

  /**
   * No parts give the empty text; otherwise the joined text starts with the
   * first part, ends with the last, and is as long as all parts together plus
   * one sep per gap.
   */
  lemma {:induction false} JoinShape(parts: seq<string>, sep: string)
    ensures |parts| == 0 ==> Join(parts, sep) == ""
    ensures |parts| > 0 ==> |Join(parts, sep)| == TotalLength(parts) + (|parts| - 1) * |sep|
    ensures |parts| > 0 ==> parts[0] <= Join(parts, sep)
    ensures |parts| > 0 ==>
      var r := Join(parts, sep);
      |parts[|parts| - 1]| <= |r| && r[|r| - |parts[|parts| - 1]|..] == parts[|parts| - 1]
  {
    if |parts| > 1 {
      var rest := parts[1..];
      JoinShape(rest, sep);
      assert rest[|rest| - 1] == parts[|parts| - 1];
      assert TotalLength(parts) == |parts[0]| + TotalLength(rest);
      var r := Join(parts, sep);
      assert r == (parts[0] + sep) + Join(rest, sep);
    }
  }

  /** The summed lengths of the parts. */
  function TotalLength(parts: seq<string>): nat {
    if |parts| == 0 then 0 else |parts[0]| + TotalLength(parts[1..])
  }

  /** s with every occurrence of `from` replaced by `to`. */
  function Replace(s: string, from: char, to: char): (r: string)
    ensures |r| == |s|
  {
    seq(|s|, i requires 0 <= i < |s| => if s[i] == from then to else s[i])
  }

  /** Joining the pieces of a split with another character replaces the separator. */
  lemma {:induction false} JoinSplit(s: string, from: char, to: char)
    ensures Join(Split(s, from), [to]) == Replace(s, from, to)
  {
    if |s| > 0 {
      var rest := Split(s[1..], from);
      JoinSplit(s[1..], from, to);
      assert Replace(s, from, to) == [if s[0] == from then to else s[0]] + Replace(s[1..], from, to);
      if s[0] == from {
        assert Split(s, from) == [""] + rest;
      } else {
        assert Split(s, from) == [[s[0]] + rest[0]] + rest[1..];
        if |rest| > 1 {
          assert ([[s[0]] + rest[0]] + rest[1..])[1..] == rest[1..];
        }
      }
    }
  }

  /** strings.TrimSuffix: s without suffix, when s ends with it. */
  function TrimSuffix(s: string, suffix: string): (r: string)
    ensures |suffix| <= |s| && s[|s| - |suffix|..] == suffix ==> r + suffix == s
    ensures !(|suffix| <= |s| && s[|s| - |suffix|..] == suffix) ==> r == s
  {
    if |suffix| <= |s| && s[|s| - |suffix|..] == suffix then s[..|s| - |suffix|] else s
  }

  /** The position of the last c in s, if any. */
  function LastIndexOf(s: string, c: char): (r: Option<nat>)
    ensures r.Some? ==> r.value < |s| && s[r.value] == c && c !in s[r.value + 1..]
    ensures r.None? ==> c !in s
  {
    if |s| == 0 then None
    else if s[|s| - 1] == c then Some(|s| - 1)
    else
      assert s == s[..|s| - 1] + [s[|s| - 1]];
      LastIndexOf(s[..|s| - 1], c)
  }

  /**
   * filepath.Split: cuts p just after its last separator into a directory part,
   * empty or ending in a separator, and a file part holding none.
   */
  function FilepathSplit(p: string): (r: (string, string))
    ensures r.0 + r.1 == p
    ensures Separator !in r.1
    ensures r.0 == "" || r.0[|r.0| - 1] == Separator
  {
    match LastIndexOf(p, Separator)
    case None => ("", p)
    case Some(i) => (p[..i + 1], p[i + 1..])
  }

  /** Those three properties pin filepath.Split down: any split of p that has them is its result. */
  lemma FilepathSplitUnique(p: string, dir: string, file: string)
    requires dir + file == p && Separator !in file
    requires dir == "" || dir[|dir| - 1] == Separator
    ensures FilepathSplit(p) == (dir, file)
  {
    var (d, f) := FilepathSplit(p);
    assert d == p[..|d|] && dir == p[..|dir|];
  }
}
