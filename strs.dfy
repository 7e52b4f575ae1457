/**
 * The few operations of Go's strings, bytes and path/filepath packages that the
 * core uses, on strings as sequences of characters and byte slices as sequences
 * of bytes. Paths are joined with '/' but not cleaned (no "..", no "//" folding).
 */
module Strs {
  type byte = b: int | 0 <= b < 256

  predicate HasPrefix<T(==)>(s: seq<T>, p: seq<T>) { |p| <= |s| && s[..|p|] == p }

  predicate HasSuffix<T(==)>(s: seq<T>, p: seq<T>) { |p| <= |s| && s[|s| - |p|..] == p }

  /** strings.Contains for a single character. */
  predicate ContainsChar(s: string, c: char) { c in s }

  /** strings.TrimPrefix: drops p once when s starts with it. */
  function TrimPrefix(s: string, p: string): (r: string)
    ensures HasPrefix(s, p) ==> s == p + r
    ensures !HasPrefix(s, p) ==> r == s
  {
    if HasPrefix(s, p) then s[|p|..] else s
  }

  /** strings.TrimSuffix: drops p once when s ends with it. */
  function TrimSuffix(s: string, p: string): (r: string)
    ensures HasSuffix(s, p) ==> s == r + p
    ensures !HasSuffix(s, p) ==> r == s
  {
    if HasSuffix(s, p) then s[..|s| - |p|] else s
  }

  /** strings.ReplaceAll for a one-character pattern and replacement. */
  function ReplaceChar(s: string, from: char, to: char): (r: string)
    ensures |r| == |s|
    ensures forall i :: 0 <= i < |s| ==> r[i] == (if s[i] == from then to else s[i])
  {
    if s == [] then [] else [if s[0] == from then to else s[0]] + ReplaceChar(s[1..], from, to)
  }

  /**
   * bytes.Split / strings.Split on a one-element separator: the pieces between
   * separators, always at least one (the empty input gives one empty piece).
   */
  function Split<T(==)>(d: seq<T>, sep: T): (parts: seq<seq<T>>)
    ensures |parts| >= 1
  {
    if d == [] then [[]]
    else
      var rest := Split(d[1..], sep);
      if d[0] == sep then [[]] + rest else [[d[0]] + rest[0]] + rest[1..]
  }

  /** The first i + 1 elements are the first i and then element i. */
  lemma TakeSnoc<T>(s: seq<T>, i: nat)
    requires i < |s|
    ensures s[..i + 1] == s[..i] + [s[i]]
  {
  }

  /** A sequence is what comes before position k, element k, and what comes after. */
  lemma Around<T>(s: seq<T>, k: nat)
    requires k < |s|
    ensures s == s[..k] + [s[k]] + s[k + 1..]
  {
  }

  /** strings.Join with a one-element separator: the inverse of Split. */
  function JoinWith<T>(parts: seq<seq<T>>, sep: T): seq<T>
  {
    if parts == [] then []
    else if |parts| == 1 then parts[0]
    else parts[0] + [sep] + JoinWith(parts[1..], sep)
  }

  lemma {:induction false} SplitJoin<T>(d: seq<T>, sep: T)
    ensures JoinWith(Split(d, sep), sep) == d
    ensures forall i :: 0 <= i < |Split(d, sep)| ==> sep !in Split(d, sep)[i]
  {
    if d != [] {
      SplitJoin(d[1..], sep);
      var rest := Split(d[1..], sep);
      if d[0] == sep {
        assert Split(d, sep) == [[]] + rest;
        assert JoinWith([[]] + rest, sep) == [] + [sep] + JoinWith(rest, sep);
      } else {
        var parts := Split(d, sep);
        assert parts == [[d[0]] + rest[0]] + rest[1..];
        if |rest| == 1 {
          assert JoinWith(parts, sep) == [d[0]] + rest[0];
        } else {
          assert parts[1..] == rest[1..];
          assert JoinWith(rest, sep) == rest[0] + [sep] + JoinWith(rest[1..], sep);
          assert JoinWith(parts, sep) == [d[0]] + rest[0] + [sep] + JoinWith(rest[1..], sep);
        }
        forall i | 0 <= i < |parts| ensures sep !in parts[i] {
          if i > 0 { assert parts[i] == rest[i]; }
        }
      }
    }
  }

  /** A character of the joined pieces is the separator or lies in one piece. */
  lemma {:induction false} InJoin<T>(parts: seq<seq<T>>, sep: T, c: T)
    requires c in JoinWith(parts, sep)
    ensures c == sep || exists p :: p in parts && c in p
  {
    if |parts| == 1 {
      assert parts[0] in parts;
    } else if |parts| > 1 {
      assert parts[0] in parts;
      var rest := JoinWith(parts[1..], sep);
      assert JoinWith(parts, sep) == parts[0] + [sep] + rest;
      if c in rest {
        InJoin(parts[1..], sep, c);
        if c != sep {
          var p :| p in parts[1..] && c in p;
          assert p in parts;
        }
      }
    }
  }

  /** The piece before the first separator is the first piece. */
  lemma {:induction false} SplitFirst<T>(d: seq<T>, sep: T, k: nat)
    requires k <= |d|
    requires sep !in d[..k]
    requires k == |d| || d[k] == sep
    ensures Split(d, sep)[0] == d[..k]
  {
    if k > 0 {
      assert d[1..][..k - 1] == d[1..k];
      assert d[..k][1..] == d[1..k];
      SplitFirst(d[1..], sep, k - 1);
      assert d[0] == d[..k][0];
      assert d[..k] == [d[0]] + d[1..k];
    }
  }

  /** The last piece is everything after the last separator. */
  /** The first piece of a split runs to the end or to the first separator. */
  lemma {:induction false} SplitFirstStops<T>(d: seq<T>, sep: T)
    ensures |Split(d, sep)[0]| <= |d|
    ensures |Split(d, sep)[0]| == |d| || d[|Split(d, sep)[0]|] == sep
  {
    if d != [] && d[0] != sep {
      SplitFirstStops(d[1..], sep);
    }
  }

  lemma {:induction false} SplitLast<T>(d: seq<T>, sep: T, k: nat)
    requires k <= |d|
    requires sep !in d[k..]
    requires k == 0 || d[k - 1] == sep
    ensures Split(d, sep)[|Split(d, sep)| - 1] == d[k..]
    decreases |d|
  {
    if k == 0 {
      assert d[k..] == d;
      NoSepSingle(d, sep);
    } else {
      assert d[1..][k - 1..] == d[k..];
      SplitLast(d[1..], sep, k - 1);
      SplitLastCons(d, sep, k);
    }
  }

  /** The last piece survives putting one more element in front. */
  lemma SplitLastCons<T>(d: seq<T>, sep: T, k: nat)
    requires 0 < k <= |d| && d[k - 1] == sep
    requires Split(d[1..], sep)[|Split(d[1..], sep)| - 1] == d[k..]
    ensures Split(d, sep)[|Split(d, sep)| - 1] == d[k..]
  {
    var rest := Split(d[1..], sep);
    if d[0] != sep {
      assert d[1..][k - 2] == sep;
      SepSplits(d[1..], sep, k - 2);
      assert Split(d, sep) == [[d[0]] + rest[0]] + rest[1..];
    }
  }

  /** A separator after a separator-free prefix splits that prefix off as the first piece. */
  lemma {:induction false} SplitAfter<T>(a: seq<T>, sep: T, b: seq<T>)
    requires sep !in a
    ensures Split(a + [sep] + b, sep) == [a] + Split(b, sep)
  {
    var d := a + [sep] + b;
    if a == [] {
      assert d[1..] == b;
    } else {
      assert d[1..] == a[1..] + [sep] + b;
      SplitAfter(a[1..], sep, b);
      assert a == [a[0]] + a[1..];
    }
  }

  lemma {:induction false} SepSplits<T>(d: seq<T>, sep: T, j: nat)
    requires j < |d| && d[j] == sep
    ensures |Split(d, sep)| >= 2
  {
    if d[0] != sep {
      SepSplits(d[1..], sep, j - 1);
    }
  }

  lemma {:induction false} NoSepSingle<T>(d: seq<T>, sep: T)
    requires sep !in d
    ensures Split(d, sep) == [d]
  {
    if d != [] {
      assert sep !in d[1..];
      NoSepSingle(d[1..], sep);
      assert d == [d[0]] + d[1..];
    }
  }

  /** filepath.Ext: the suffix from the last '.' of the last path element, or "". */
  function Ext(p: string): (e: string)
    ensures HasSuffix(p, e)
    ensures e != [] ==> e[0] == '.' && '/' !in e && '.' !in e[1..]
  {
    if |p| == 0 || p[|p| - 1] == '/' then ""
    else if p[|p| - 1] == '.' then "."
    else
      var e := Ext(p[..|p| - 1]);
      if e == "" then "" else e + [p[|p| - 1]]
  }

  /** filepath.Base for a path without trailing separators: the last element. */
  function Base(p: string): (b: string)
    ensures '/' !in b
    ensures HasSuffix(p, b) || b == "."
  {
    if p == "" then "." else BaseOf(p)
  }

  function BaseOf(p: string): (b: string)
    ensures '/' !in b && HasSuffix(p, b)
  {
    if p == [] || p[|p| - 1] == '/' then "" else BaseOf(p[..|p| - 1]) + [p[|p| - 1]]
  }

  /** filepath.Dir for a path without trailing separators: all but the last element. */
  function Dir(p: string): (d: string)
  {
    var b := BaseOf(p);
    if |b| == |p| then "."
    else if |b| + 1 == |p| then "/"
    else p[..|p| - |b| - 1]
  }

  /** filepath.Join (without Clean): the non-empty elements joined by '/'. */
  function Join(elems: seq<string>): string
  {
    JoinWith(NonEmpty(elems), '/')
  }

  function NonEmpty(elems: seq<string>): (r: seq<string>)
    ensures forall i :: 0 <= i < |r| ==> r[i] != ""
  {
    if elems == [] then []
    else if elems[0] == "" then NonEmpty(elems[1..])
    else [elems[0]] + NonEmpty(elems[1..])
  }

  /** strings.Contains: p occurs somewhere in s. */
  predicate Contains<T(==)>(s: seq<T>, p: seq<T>)
  {
    HasPrefix(s, p) || (s != [] && Contains(s[1..], p))
  }

  lemma {:induction false} ContainsMiddle<T>(a: seq<T>, p: seq<T>, b: seq<T>)
    ensures Contains(a + p + b, p)
  {
    if a == [] {
      assert (a + p + b)[..|p|] == p;
    } else {
      ContainsMiddle(a[1..], p, b);
      assert (a + p + b)[1..] == a[1..] + p + b;
    }
  }

  lemma {:induction false} NonEmptyAppend(a: seq<string>, b: seq<string>)
    ensures NonEmpty(a + b) == NonEmpty(a) + NonEmpty(b)
  {
    if a != [] {
      assert (a + b)[1..] == a[1..] + b;
      NonEmptyAppend(a[1..], b);
    } else {
      assert a + b == b;
    }
  }

  lemma {:induction false} JoinWithAppend<T>(a: seq<seq<T>>, b: seq<seq<T>>, sep: T)
    requires a != [] && b != []
    ensures JoinWith(a + b, sep) == JoinWith(a, sep) + [sep] + JoinWith(b, sep)
  {
    if |a| > 1 {
      assert (a + b)[1..] == a[1..] + b;
      JoinWithAppend(a[1..], b, sep);
    } else {
      assert (a + b)[1..] == b;
    }
  }

  /** Joining two lists that each hold a non-empty element puts one '/' between them. */
  lemma JoinAppend(a: seq<string>, b: seq<string>)
    requires NonEmpty(a) != [] && NonEmpty(b) != []
    ensures Join(a + b) == Join(a) + "/" + Join(b)
  {
    NonEmptyAppend(a, b);
    JoinWithAppend(NonEmpty(a), NonEmpty(b), '/');
  }

  lemma JoinTwo(a: string, b: string)
    requires a != "" && b != ""
    ensures Join([a, b]) == a + "/" + b
  {
    assert NonEmpty([b]) == [b] + NonEmpty([]) by { assert [b][1..] == []; }
    assert NonEmpty([a, b]) == [a] + NonEmpty([b]) by { assert [a, b][1..] == [b]; }
    assert NonEmpty([a, b]) == [a, b];
    assert JoinWith([a, b], '/') == a + "/" + JoinWith([b], '/') by { assert [a, b][1..] == [b]; }
  }

  lemma JoinOne(a: string)
    requires a != ""
    ensures Join([a]) == a
  {
    assert NonEmpty([a]) == [a] + NonEmpty([]) by { assert [a][1..] == []; }
  }
}
