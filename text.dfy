/** The JavaScript string and `path` operations the core uses, over
    `string` (a sequence of characters). */
module Text {
  import opened Results

  predicate StartsWith(s: string, prefix: string) {
    |prefix| <= |s| && s[..|prefix|] == prefix
  }

  predicate EndsWith(s: string, suffix: string) {
    |suffix| <= |s| && s[|s| - |suffix|..] == suffix
  }

  /** `s[i]`: `undefined` outside the string. */
  function CharAt(s: string, i: int): Option<char> {
    if 0 <= i < |s| then Some(s[i]) else None
  }

  /** `p` occurs in `s` starting at index `k`. */
  predicate OccursAt(s: string, p: string, k: int) {
    0 <= k && k + |p| <= |s| && s[k..k + |p|] == p
  }

  /** `s.indexOf(p, from)` for a non-empty `p`: the first occurrence at or
      after `from`, or -1. */
  function IndexOf(s: string, p: string, from: nat): (r: int)
    requires p != []
    ensures r == -1 || (from <= r && r + |p| <= |s|)
    decreases |s| - from
  {
    if from + |p| > |s| then -1
    else if s[from..from + |p|] == p then from
    else IndexOf(s, p, from + 1)
  }

  /** `IndexOf` finds the first occurrence at or after `from`, and -1 exactly
      when there is none. */
  lemma {:induction false} IndexOfSpec(s: string, p: string, from: nat)
    requires p != []
    ensures var r := IndexOf(s, p, from);
      && (r == -1 || (from <= r && OccursAt(s, p, r)))
      && (r == -1 ==> forall k :: from <= k ==> !OccursAt(s, p, k))
      && (r >= 0 ==> forall k :: from <= k < r ==> !OccursAt(s, p, k))
    decreases |s| - from
  {
    if from + |p| <= |s| && s[from..from + |p|] != p {
      IndexOfSpec(s, p, from + 1);
    }
  }

  /** A character absent from `s[..n]` occurs nowhere before `n`. */
  lemma NoOccurrenceBefore(s: string, c: char, n: nat)
    requires n <= |s| && c !in s[..n]
    ensures forall j :: 0 <= j < n ==> !OccursAt(s, [c], j)
  {
    forall j | 0 <= j < n ensures !OccursAt(s, [c], j) {
      assert s[j] == s[..n][j];
      assert s[j..j + 1][0] == s[j];
    }
  }

  /** The first occurrence at or after `from` is what `IndexOf` returns. */
  lemma IndexOfFirst(s: string, p: string, from: nat, k: nat)
    requires p != [] && from <= k && OccursAt(s, p, k)
    requires forall j :: from <= j < k ==> !OccursAt(s, p, j)
    ensures IndexOf(s, p, from) == k
  {
    IndexOfSpec(s, p, from);
  }

  /** `s.substr(start, length)`: a negative start counts from the end, both
      bounds are clamped to the string. */
  function Substr(s: string, start: int, length: int): (r: string)
    ensures 0 <= start && 0 <= length && start + length <= |s| ==> r == s[start..start + length]
    ensures 0 <= start <= |s| && start + length >= |s| ==> r == s[start..]
    ensures |r| <= |s|
  {
    var b := if start < 0 then (if |s| + start < 0 then 0 else |s| + start)
             else if start > |s| then |s| else start;
    var e := if length <= 0 then b else if b + length > |s| then |s| else b + length;
    s[b..e]
  }

  /** The characters `String.prototype.trim` removes (white space and line
      terminators). */
  predicate IsSpace(c: char) {
    c in {' ', '\t', '\n', '\r', '\U{000B}', '\U{000C}', '\U{00A0}', '\U{FEFF}',
          '\U{1680}', '\U{2000}', '\U{2001}', '\U{2002}', '\U{2003}', '\U{2004}',
          '\U{2005}', '\U{2006}', '\U{2007}', '\U{2008}', '\U{2009}', '\U{200A}',
          '\U{2028}', '\U{2029}', '\U{202F}', '\U{205F}', '\U{3000}'}
  }

  /** `trimLeft`: the longest suffix not starting with white space, all of
      whose dropped characters are white space. */
  function TrimLeft(s: string): (r: string)
    ensures |r| <= |s| && r == s[|s| - |r|..]
    ensures r == [] || !IsSpace(r[0])
    ensures forall i :: 0 <= i < |s| - |r| ==> IsSpace(s[i])
  {
    if s != [] && IsSpace(s[0]) then TrimLeft(s[1..]) else s
  }

  /** The longest prefix not ending in white space, all of whose dropped
      characters are white space. */
  function TrimRight(s: string): (r: string)
    ensures |r| <= |s| && r == s[..|r|]
    ensures r == [] || !IsSpace(r[|r| - 1])
    ensures forall i :: |r| <= i < |s| ==> IsSpace(s[i])
  {
    if s != [] && IsSpace(s[|s| - 1]) then TrimRight(s[..|s| - 1]) else s
  }

  /** `trim`: white space removed at both ends. */
  function Trim(s: string): (r: string)
    ensures |r| <= |s|
    ensures r == [] || (!IsSpace(r[0]) && !IsSpace(r[|r| - 1]))
    ensures s == [] || (!IsSpace(s[0]) && !IsSpace(s[|s| - 1])) ==> r == s
  {
    TrimRight(TrimLeft(s))
  }

  /** `s.split(sep)` for a one-character separator. */
  function Split(s: string, sep: char): (parts: seq<string>)
    ensures |parts| >= 1
    ensures forall i :: 0 <= i < |parts| ==> sep !in parts[i]
  {
    if s == [] then [""]
    else
      var rest := Split(s[1..], sep);
      if s[0] == sep then [""] + rest
      else [[s[0]] + rest[0]] + rest[1..]
  }

  /** `parts.join(sep)`. */
  function JoinWith(parts: seq<string>, sep: char): string
    requires |parts| >= 1
  {
    if |parts| == 1 then parts[0] else parts[0] + [sep] + JoinWith(parts[1..], sep)
  }

  /** Joining the pieces of a split gives back the text. */
  lemma {:induction false} SplitJoin(s: string, sep: char)
    ensures JoinWith(Split(s, sep), sep) == s
  {
    if s != [] {
      var rest := Split(s[1..], sep);
      SplitJoin(s[1..], sep);
      if s[0] == sep {
        assert ([""] + rest)[1..] == rest;
      } else {
        var parts := [[s[0]] + rest[0]] + rest[1..];
        if |rest| > 1 {
          assert parts[1..] == rest[1..];
          assert JoinWith(rest, sep) == rest[0] + [sep] + JoinWith(rest[1..], sep);
        }
      }
    }
  }

  /** Splitting a join of separator-free pieces gives back the pieces. */
  lemma {:induction false} JoinSplit(parts: seq<string>, sep: char)
    requires |parts| >= 1
    requires forall i :: 0 <= i < |parts| ==> sep !in parts[i]
    ensures Split(JoinWith(parts, sep), sep) == parts
    decreases |parts|, |parts[0]|
  {
    var p := parts[0];
    if p == [] {
      if |parts| > 1 {
        JoinSplit(parts[1..], sep);
        assert JoinWith(parts, sep) == [sep] + JoinWith(parts[1..], sep);
        assert (JoinWith(parts, sep))[1..] == JoinWith(parts[1..], sep);
        assert [""] + parts[1..] == parts;
      }
    } else {
      var tail := [p[1..]] + parts[1..];
      assert tail[1..] == parts[1..];
      JoinSplit(tail, sep);
      assert JoinWith(parts, sep) == [p[0]] + JoinWith(tail, sep) by {
        if |parts| > 1 {
          assert JoinWith(tail, sep) == p[1..] + [sep] + JoinWith(parts[1..], sep);
        }
      }
      assert JoinWith(parts, sep)[1..] == JoinWith(tail, sep);
      assert p[0] != sep by { assert p[0] in parts[0]; }
      assert [p[0]] + p[1..] == p;
      assert [[p[0]] + tail[0]] + tail[1..] == parts;
    }
  }

  /** `path.join(folder, name)`: the platform separator is `/`. */
  function JoinPath(folder: string, name: string): (r: string)
    ensures StartsWith(r, folder) && EndsWith(r, name)
  {
    folder + "/" + name
  }

  /** `path.basename`: the last segment, ignoring trailing separators. */
  function Basename(p: string): (r: string)
    ensures '/' !in r
    ensures |r| <= |p|
  {
    if p == [] then ""
    else if p[|p| - 1] == '/' then Basename(p[..|p| - 1])
    else AfterLastSlash(p)
  }

  function AfterLastSlash(p: string): (r: string)
    ensures '/' !in r
    ensures |r| <= |p| && r == p[|p| - |r|..]
    ensures |r| < |p| ==> p[|p| - |r| - 1] == '/'
  {
    if p == [] then ""
    else if p[|p| - 1] == '/' then ""
    else AfterLastSlash(p[..|p| - 1]) + [p[|p| - 1]]
  }

  /** The base name of a joined path is the joined name. */
  lemma {:induction false} BasenameJoin(folder: string, name: string)
    requires name != [] && '/' !in name
    ensures Basename(JoinPath(folder, name)) == name
  {
    var p := JoinPath(folder, name);
    assert p[|p| - 1] == name[|name| - 1];
    var r := AfterLastSlash(p);
    assert p[|p| - |name| - 1] == '/';
  }

  /** String order of `Array.prototype.sort` without a comparator:
      lexicographic by character code. */
  predicate StrLe(a: string, b: string) {
    if a == [] then true
    else if b == [] then false
    else a[0] < b[0] || (a[0] == b[0] && StrLe(a[1..], b[1..]))
  }

  lemma {:induction false} StrLeTotal(a: string, b: string)
    ensures StrLe(a, b) || StrLe(b, a)
  {
    if a != [] && b != [] && a[0] == b[0] {
      StrLeTotal(a[1..], b[1..]);
    }
  }

  lemma {:induction false} StrLeTransitive(a: string, b: string, c: string)
    requires StrLe(a, b) && StrLe(b, c)
    ensures StrLe(a, c)
  {
    if a != [] && b != [] && c != [] && a[0] == b[0] && b[0] == c[0] {
      StrLeTransitive(a[1..], b[1..], c[1..]);
    }
  }

  lemma {:induction false} StrLeAntisymmetric(a: string, b: string)
    requires StrLe(a, b) && StrLe(b, a)
    ensures a == b
  {
    if a != [] && b != [] {
      StrLeAntisymmetric(a[1..], b[1..]);
      assert a == [a[0]] + a[1..] && b == [b[0]] + b[1..];
    }
  }
}
