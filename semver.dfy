/**
 * The part of semantic versioning (github.com/Masterminds/semver/v3) the core
 * relies on: versions, their precedence (section 11 of Semantic Versioning
 * 2.0.0, as that library implements it), the lenient parser NewVersion, the
 * renderer String, and the constraint forms the core writes.
 */
module Semver {
  import opened Wrappers
  import Strs
  import Decimal

  /** A parsed version; the build metadata never takes part in precedence. */
  datatype Version = Version(major: nat, minor: nat, patch: nat, pre: string, meta: string)

  predicate IdentChar(c: char)
  {
    Decimal.IsDigit(c) || 'a' <= c <= 'z' || 'A' <= c <= 'Z' || c == '-'
  }

  predicate ValidIdent(p: string) { |p| > 0 && forall i :: 0 <= i < |p| ==> IdentChar(p[i]) }

  /** Dot-separated non-empty identifiers; numeric pre-release identifiers have no leading zero. */
  predicate ValidIdents(s: string, noLeadingZero: bool)
  {
    forall p :: p in Strs.Split(s, '.') ==>
      ValidIdent(p) && (noLeadingZero && Decimal.IsNumeric(p) ==> |p| == 1 || p[0] != '0')
  }

  predicate ValidPre(pre: string) { pre == "" || ValidIdents(pre, true) }

  predicate ValidMeta(meta: string) { meta == "" || ValidIdents(meta, false) }

  /** What NewVersion can produce. */
  predicate Valid(v: Version) { ValidPre(v.pre) && ValidMeta(v.meta) }

  // ----- precedence -----

  function CompareNat(a: nat, b: nat): int { if a > b then 1 else if a < b then -1 else 0 }

  /** Go's string comparison s > o, byte by byte. */
  predicate StrGreater(s: string, o: string)
  {
    if s == [] then false
    else if o == [] then true
    else if s[0] != o[0] then s[0] > o[0]
    else StrGreater(s[1..], o[1..])
  }

  /** comparePrePart: numbers before alphanumerics, a missing identifier first. */
  function ComparePart(s: string, o: string): int
  {
    if s == o then 0
    else if s == "" then -1
    else if o == "" then 1
    else if !Decimal.IsNumeric(s) && !Decimal.IsNumeric(o) then (if StrGreater(s, o) then 1 else -1)
    else if !Decimal.IsNumeric(o) then -1
    else if !Decimal.IsNumeric(s) then 1
    else if Decimal.Value(s) > Decimal.Value(o) then 1 else -1
  }

  /** comparePrerelease over the dot-separated identifiers, padded with "". */
  function ComparePre(s: seq<string>, o: seq<string>): int
    decreases |s| + |o|
  {
    if s == [] && o == [] then 0
    else
      var d := ComparePart(if s == [] then "" else s[0], if o == [] then "" else o[0]);
      if d != 0 then d else ComparePre(if s == [] then [] else s[1..], if o == [] then [] else o[1..])
  }

  /** Version.Compare: -1, 0 or 1. */
  function Compare(a: Version, b: Version): int
  {
    if a.major != b.major then CompareNat(a.major, b.major)
    else if a.minor != b.minor then CompareNat(a.minor, b.minor)
    else if a.patch != b.patch then CompareNat(a.patch, b.patch)
    else if a.pre == "" && b.pre == "" then 0
    else if a.pre == "" then 1
    else if b.pre == "" then -1
    else ComparePre(Strs.Split(a.pre, '.'), Strs.Split(b.pre, '.'))
  }

  predicate LessThan(a: Version, b: Version) { Compare(a, b) < 0 }

  predicate GreaterThan(a: Version, b: Version) { Compare(a, b) > 0 }

  /** (major, minor, patch) of a is at least that of b, lexicographically. */
  predicate TripleAtLeast(a: Version, b: Version)
  {
    a.major > b.major || (a.major == b.major && (a.minor > b.minor || (a.minor == b.minor && a.patch >= b.patch)))
  }

  /** Comparing with a missing identifier never gives -1. */
  lemma {:induction false} ComparePreWithNothing(s: seq<string>)
    ensures ComparePre(s, []) >= 0
  {
    if s != [] { ComparePreWithNothing(s[1..]); }
  }

  /** "0" is the least pre-release: no valid pre-release of the same triple precedes it. */
  lemma ZeroPreIsLeast(v: Version, z: Version)
    requires Valid(v) && v.pre != ""
    requires z.pre == "0" && z.major == v.major && z.minor == v.minor && z.patch == v.patch
    ensures Compare(v, z) >= 0
  {
    var parts := Strs.Split(v.pre, '.');
    assert parts[0] in parts;
    Strs.NoSepSingle("0", '.');
    var p := parts[0];
    assert Decimal.IsNumeric("0");
    if p == "0" {
      assert ["0"][1..] == [];
      assert ComparePre(parts, ["0"]) == ComparePre(parts[1..], []);
      ComparePreWithNothing(parts[1..]);
    } else if Decimal.IsNumeric(p) {
      if Decimal.Value(p) == 0 {
        Decimal.ValueZero(p);
      }
    }
  }

  // ----- constraints -----

  /** The constraint forms written in the core. */
  datatype Constraint =
    | Wildcard(major: nat, minor: nat)                              // "M.m.x"
    | WildcardRange(loMajor: nat, loMinor: nat, hiMajor: nat, hiMinor: nat)  // "A.B.x - C.D.x"
    | AtLeast(min: Version)                                         // ">=v"
    | Exact(v: Version)                                             // "= v"
    | Between(lo: Version, hi: Version)                             // "lo - hi"

  /** A pre-release only satisfies a constraint that itself names a pre-release. */
  predicate PreAllowed(v: Version, c: Version) { v.pre == "" || c.pre != "" }

  /** Constraints.Check. */
  predicate Check(c: Constraint, v: Version)
  {
    match c
    case Wildcard(maj, min) => v.pre == "" && v.major == maj && v.minor == min
    case WildcardRange(a, b, x, y) =>
      v.pre == "" && TripleAtLeast(v, Version(a, b, 0, "", "")) &&
      (v.major < x || (v.major == x && v.minor <= y))
    case AtLeast(m) => PreAllowed(v, m) && Compare(v, m) >= 0
    case Exact(e) => PreAllowed(v, e) && Compare(v, e) == 0
    case Between(lo, hi) => PreAllowed(v, lo) && PreAllowed(v, hi) && Compare(v, lo) >= 0 && Compare(v, hi) <= 0
  }

  /** ">=M.m.p-0" admits exactly the versions, pre-releases included, whose triple is at least M.m.p. */
  lemma AtLeastZeroPre(v: Version, m: Version)
    requires Valid(v) && m.pre == "0"
    ensures Check(AtLeast(m), v) <==> TripleAtLeast(v, m)
  {
    if v.major == m.major && v.minor == m.minor && v.patch == m.patch && v.pre != "" {
      ZeroPreIsLeast(v, m);
    }
  }

  // ----- rendering and parsing -----

  /** Version.String: "M.m.p", then "-pre" and "+meta" when present. */
  function Format(v: Version): string
  {
    TripleString(v) + TailString(v)
  }

  function TailString(v: Version): (t: string)
    ensures t == "" || t[0] == '-' || t[0] == '+'
  {
    (if v.pre != "" then "-" + v.pre else "") + (if v.meta != "" then "+" + v.meta else "")
  }

  function TripleString(v: Version): string
  {
    Decimal.Format(v.major) + "." + Decimal.Format(v.minor) + "." + Decimal.Format(v.patch)
  }

  /** Length of the longest prefix of decimal digits. */
  function Digits(s: string): (n: nat)
    ensures n <= |s|
  {
    if s == [] || !Decimal.IsDigit(s[0]) then 0 else Digits(s[1..]) + 1
  }

  /** Position of the first '+', or the length. */
  function PlusAt(s: string): (k: nat)
    ensures k <= |s| && '+' !in s[..k] && (k == |s| || s[k] == '+')
  {
    if s == [] || s[0] == '+' then 0
    else
      var k := PlusAt(s[1..]);
      assert s[..k + 1] == [s[0]] + s[1..][..k];
      k + 1
  }

  datatype Step = Step(value: nat, rest: string)

  /** An optional ".N" component; None when a '.' is not followed by digits. */
  function OptPart(r: string): Option<Step>
  {
    if |r| > 0 && r[0] == '.' then
      var n := Digits(r[1..]);
      if n == 0 then None else Some(Step(Decimal.Value(r[1..][..n]), r[1..][n..]))
    else Some(Step(0, r))
  }

  /** The "-pre" and "+meta" tail. */
  function Tail(r: string): Option<(string, string)>
  {
    if r == "" then Some(("", ""))
    else if r[0] == '-' then
      var body := r[1..];
      var k := PlusAt(body);
      var pre := body[..k];
      if pre == "" || !ValidPre(pre) then None
      else if k == |body| then Some((pre, ""))
      else
        var meta := body[k + 1..];
        if meta == "" || !ValidMeta(meta) then None else Some((pre, meta))
    else if r[0] == '+' then
      var meta := r[1..];
      if meta == "" || !ValidMeta(meta) then None else Some(("", meta))
    else None
  }

  /** NewVersion: "v" optional, one to three numeric parts, then the optional pre-release and metadata. */
  function Parse(s: string): Option<Version>
  {
    ParseCore(if |s| > 0 && s[0] == 'v' then s[1..] else s)
  }

  function ParseCore(t: string): Option<Version>
  {
    var n := Digits(t);
    if n == 0 then None else ParseMinor(Decimal.Value(t[..n]), t[n..])
  }

  function ParseMinor(major: nat, r: string): Option<Version>
  {
    match OptPart(r)
    case None => None
    case Some(minor) => ParsePatch(major, minor.value, minor.rest)
  }

  function ParsePatch(major: nat, minor: nat, r: string): Option<Version>
  {
    match OptPart(r)
    case None => None
    case Some(patch) => ParseTail(major, minor, patch.value, patch.rest)
  }

  function ParseTail(major: nat, minor: nat, patch: nat, r: string): Option<Version>
  {
    match Tail(r)
    case None => None
    case Some(tail) => Some(Version(major, minor, patch, tail.0, tail.1))
  }

  lemma ParseValid(s: string)
    requires Parse(s).Some?
    ensures Valid(Parse(s).value)
  {
  }

  lemma DigitsOfFormat(n: nat, r: string)
    requires r == "" || !Decimal.IsDigit(r[0])
    ensures Digits(Decimal.Format(n) + r) == |Decimal.Format(n)|
    ensures (Decimal.Format(n) + r)[..|Decimal.Format(n)|] == Decimal.Format(n)
    ensures (Decimal.Format(n) + r)[|Decimal.Format(n)|..] == r
  {
    DigitsOfNumeric(Decimal.Format(n), r);
  }

  lemma {:induction false} DigitsOfNumeric(d: string, r: string)
    requires Decimal.AllDigits(d)
    requires r == "" || !Decimal.IsDigit(r[0])
    ensures Digits(d + r) == |d|
  {
    if d != [] {
      assert (d + r)[1..] == d[1..] + r;
      DigitsOfNumeric(d[1..], r);
    } else {
      assert d + r == r;
    }
  }

  lemma OptPartOfFormat(n: nat, r: string)
    requires r == "" || !Decimal.IsDigit(r[0])
    ensures OptPart("." + Decimal.Format(n) + r) == Some(Step(n, r))
  {
    var f := Decimal.Format(n);
    var s := "." + f + r;
    var t := f + r;
    assert s[1..] == t;
    DigitsOfFormat(n, r);
    Decimal.ValueOfFormat(n);
    assert Digits(s[1..]) == |f|;
  }

  lemma TailOfFormat(v: Version)
    requires Valid(v)
    ensures Tail(TailString(v)) == Some((v.pre, v.meta))
  {
    var mpart := if v.meta != "" then "+" + v.meta else "";
    if v.pre != "" {
      assert TailString(v) == "-" + v.pre + mpart;
      TailOfPre(v.pre, v.meta);
    } else {
      assert TailString(v) == mpart;
      TailOfMeta(v.meta);
    }
  }

  lemma TailOfPre(pre: string, meta: string)
    requires pre != "" && ValidPre(pre) && (meta == "" || ValidMeta(meta))
    ensures Tail("-" + pre + (if meta != "" then "+" + meta else "")) == Some((pre, meta))
  {
    PlusFree(pre);
    if meta == "" {
      TailOfPreAlone(pre);
    } else {
      TailOfPreMeta(pre, meta);
    }
  }

  lemma TailOfPreAlone(pre: string)
    requires pre != "" && ValidPre(pre) && '+' !in pre
    ensures Tail("-" + pre + "") == Some((pre, ""))
  {
    var r := "-" + pre + "";
    assert r[1..] == pre;
    PlusAtSkips(pre, "");
    assert pre + "" == pre;
    assert pre[..|pre|] == pre;
  }

  lemma TailOfPreMeta(pre: string, meta: string)
    requires pre != "" && ValidPre(pre) && '+' !in pre && meta != "" && ValidMeta(meta)
    ensures Tail("-" + pre + ("+" + meta)) == Some((pre, meta))
  {
    var body := pre + ("+" + meta);
    var r := "-" + pre + ("+" + meta);
    assert r == "-" + body;
    DropDash(body);
    PlusAtSkips(pre, "+" + meta);
    AroundPlus(pre, meta);
  }

  lemma AroundPlus(a: string, b: string)
    ensures (a + ("+" + b))[..|a|] == a && (a + ("+" + b))[|a| + 1..] == b
  {
    var s := a + ("+" + b);
    assert s[..|a|] == a;
    assert forall i :: 0 <= i < |b| ==> s[|a| + 1..][i] == s[|a| + 1 + i] == b[i];
  }

  lemma DropDash(body: string)
    ensures ("-" + body)[0] == '-' && ("-" + body)[1..] == body
  {
  }

  lemma TailOfMeta(meta: string)
    requires meta == "" || ValidMeta(meta)
    ensures Tail(if meta != "" then "+" + meta else "") == Some(("", meta))
  {
    if meta != "" {
      assert ("+" + meta)[1..] == meta;
    }
  }

  lemma PlusFree(pre: string)
    requires pre != "" && ValidPre(pre)
    ensures '+' !in pre
  {
    var parts := Strs.Split(pre, '.');
    Strs.SplitJoin(pre, '.');
    forall i | 0 <= i < |pre| ensures pre[i] != '+' {
      if pre[i] != '.' {
        Strs.InJoin(parts, '.', pre[i]);
        var p :| p in parts && pre[i] in p;
        var j :| 0 <= j < |p| && p[j] == pre[i];
        assert IdentChar(p[j]);
      }
    }
  }

  lemma PlusAtSkips(pre: string, m: string)
    requires '+' !in pre
    requires m == "" || m[0] == '+'
    ensures PlusAt(pre + m) == |pre|
  {
    assert (pre + m)[..|pre|] == pre;
    PlusAtIs(pre + m, |pre|);
  }

  /** PlusAt finds the first '+', and only that one. */
  lemma {:induction false} PlusAtIs(s: string, k: nat)
    requires k <= |s| && '+' !in s[..k] && (k == |s| || s[k] == '+')
    ensures PlusAt(s) == k
    decreases k
  {
    if k > 0 {
      assert s[0] == s[..k][0];
      assert s[1..][..k - 1] == s[..k][1..];
      PlusAtIs(s[1..], k - 1);
    }
  }

  lemma ParseCoreOfFormat(n: nat, r: string)
    requires r == "" || !Decimal.IsDigit(r[0])
    ensures ParseCore(Decimal.Format(n) + r) == ParseMinor(n, r)
  {
    DigitsOfFormat(n, r);
    Decimal.ValueOfFormat(n);
  }

  /** Parsing a rendered triple followed by a tail reduces to parsing the tail. */
  lemma ParseOfTriple(v: Version, tail: string, w: Version)
    requires tail == "" || tail[0] == '-' || tail[0] == '+'
    requires ParseTail(v.major, v.minor, v.patch, tail) == Some(w)
    ensures Parse(TripleString(v) + tail) == Some(w)
  {
    var f1, f2, f3 := Decimal.Format(v.major), Decimal.Format(v.minor), Decimal.Format(v.patch);
    var r2 := "." + f3 + tail;
    var r1 := "." + f2 + r2;
    assert TripleString(v) + tail == f1 + r1 by {
      var d: string := ".";
      assert TripleString(v) == f1 + d + f2 + d + f3;
      SeqAssoc5(f1, d, f2, d, f3, tail);
    }
    OptPartOfFormat(v.patch, tail);
    assert ParsePatch(v.major, v.minor, r2) == Some(w);
    OptPartOfFormat(v.minor, r2);
    assert ParseMinor(v.major, r1) == Some(w);
    ParseCoreOfFormat(v.major, r1);
    assert (f1 + r1)[0] == f1[0] && Decimal.IsDigit(f1[0]);
  }

  lemma SeqAssoc5(a: string, b: string, c: string, d: string, e: string, f: string)
    ensures a + b + c + d + e + f == a + (b + (c + (d + e + f)))
  {
  }

  /** Parsing what Version.String renders gives the version back. */
  lemma RoundTrip(v: Version)
    requires Valid(v)
    ensures Parse(Format(v)) == Some(v)
  {
    TailOfFormat(v);
    ParseOfTriple(v, TailString(v), v);
  }

  /** Two valid versions that render alike are the same version. */
  lemma FormatInjective(a: Version, b: Version)
    requires Valid(a) && Valid(b) && Format(a) == Format(b)
    ensures a == b
  {
    RoundTrip(a);
    RoundTrip(b);
  }
}
