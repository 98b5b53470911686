/** The string functions of Python's standard library that the core relies on. */
module Text {

  /** A file-system path as its sequence of segments; the root is []. */
  type Path = seq<string>

  /** `os.path.dirname`: the parent directory; the root is its own parent. */
  function Dirname(p: Path): (q: Path)
    ensures p == [] ==> q == []
    ensures p != [] ==> p == q + [p[|p| - 1]]
  {
    if p == [] then [] else p[..|p| - 1]
  }

  /** `sep.join(parts)` */
  function Join(parts: seq<string>, sep: char): string {
    if parts == [] then ""
    else if |parts| == 1 then parts[0]
    else parts[0] + [sep] + Join(parts[1..], sep)
  }

  /** `s.split(sep)`: there is always at least one part, no part holds the
      separator, and joining the parts gives back `s`. */
  function Split(s: string, sep: char): (parts: seq<string>)
    ensures |parts| >= 1
    ensures forall i :: 0 <= i < |parts| ==> sep !in parts[i]
    ensures Join(parts, sep) == s
  {
    if s == [] then [""]
    else
      var rest := Split(s[1..], sep);
      if s[0] == sep then
        [""] + rest
      else
        assert s == [s[0]] + s[1..];
        [[s[0]] + rest[0]] + rest[1..]
  }

  /** The parts that are not empty, in order. */
  function NonEmpty(parts: seq<string>): (r: seq<string>)
    ensures forall x :: x in r ==> x in parts && x != ""
    ensures forall x :: x in parts && x != "" ==> x in r
    ensures (forall i :: 0 <= i < |parts| ==> parts[i] != "") ==> r == parts
  {
    if parts == [] then []
    else (if parts[0] == "" then [] else [parts[0]]) + NonEmpty(parts[1..])
  }

  /** Dropping the empty parts keeps the order of the others: it commutes
      with concatenation. */
  lemma {:induction false} NonEmptyAppend(a: seq<string>, b: seq<string>)
    ensures NonEmpty(a + b) == NonEmpty(a) + NonEmpty(b)
  {
    if a == [] {
      assert a + b == b;
    } else {
      assert (a + b)[1..] == a[1..] + b;
      NonEmptyAppend(a[1..], b);
    }
  }

  /** The segments one component not starting with '/' adds to a path under
      `os.path.join`: its '/'-separated pieces, without the empty ones, as
      POSIX reads "a//b" as "a/b" and "a/" as "a". */
  function Pieces(part: string): (r: seq<string>)
    ensures forall x :: x in r ==> x != "" && '/' !in x
    ensures forall x :: x in Split(part, '/') && x != "" ==> x in r
    ensures part != "" && '/' !in part ==> r == [part]
  {
    assert part != "" && '/' !in part ==> Split(part, '/') == [part] by {
      if '/' !in part { SplitFree(part, '/'); }
    }
    NonEmpty(Split(part, '/'))
  }

  /** Splitting a join of separator-free parts gives the parts back. */
  lemma {:induction false} SplitJoin(parts: seq<string>, sep: char)
    requires |parts| >= 1
    requires forall i :: 0 <= i < |parts| ==> sep !in parts[i]
    ensures Split(Join(parts, sep), sep) == parts
  {
    if |parts| == 1 {
      SplitFree(parts[0], sep);
    } else {
      SplitJoin(parts[1..], sep);
      SplitPrefix(parts[0], Join(parts[1..], sep), sep);
      assert Join(parts, sep) == parts[0] + [sep] + Join(parts[1..], sep);
    }
  }

  /** A string without the separator splits into itself. */
  lemma {:induction false} SplitFree(s: string, sep: char)
    requires sep !in s
    ensures Split(s, sep) == [s]
  {
    if s != [] {
      SplitFree(s[1..], sep);
    }
  }

  /** Splitting `a + [sep] + b`, where `a` is separator-free, puts `a` first. */
  lemma {:induction false} SplitPrefix(a: string, b: string, sep: char)
    requires sep !in a
    ensures Split(a + [sep] + b, sep) == [a] + Split(b, sep)
  {
    if a == [] {
      assert ([] + [sep] + b)[1..] == b;
    } else {
      SplitPrefix(a[1..], b, sep);
      assert (a + [sep] + b)[1..] == a[1..] + [sep] + b;
      assert [a[0]] + a[1..] == a;
    }
  }

  /** Number of parts `s.split(sep)` yields: one more than the separators in `s`. */
  lemma {:induction false} SplitCount(s: string, sep: char)
    ensures |Split(s, sep)| == 1 + multiset(s)[sep]
  {
    if s != [] {
      SplitCount(s[1..], sep);
      assert s == [s[0]] + s[1..];
    }
  }

  /** Index of the last occurrence of `c` in `s`, or -1: `s.rfind(c)`. */
  function RFind(s: string, c: char): (i: int)
    ensures -1 <= i < |s|
    ensures i >= 0 ==> s[i] == c
    ensures forall j :: i < j < |s| ==> s[j] != c
  {
    if s == [] then -1
    else if s[|s| - 1] == c then |s| - 1
    else RFind(s[..|s| - 1], c)
  }

  /** `os.path.splitext` on a POSIX path: the extension starts at the last dot
      of the last path component, unless that component is all dots up to it
      (so ".bashrc" has no extension). */
  function SplitExt(p: string): (r: (string, string))
    ensures r.0 + r.1 == p
    ensures r.1 == "" || (r.1[0] == '.' && '/' !in r.1 && '.' !in r.1[1..])
    ensures r.1 != "" ==> exists i :: RFind(p, '/') < i < RFind(p, '.') && p[i] != '.'
    ensures (RFind(p, '.') > RFind(p, '/') && exists i :: RFind(p, '/') < i < RFind(p, '.') && p[i] != '.') ==>
      r == (p[..RFind(p, '.')], p[RFind(p, '.')..])
  {
    var sepIndex := RFind(p, '/');
    var dotIndex := RFind(p, '.');
    if dotIndex > sepIndex && exists i :: sepIndex < i < dotIndex && p[i] != '.' then
      assert p[..dotIndex] + p[dotIndex..] == p;
      (p[..dotIndex], p[dotIndex..])
    else
      (p, "")
  }
}
