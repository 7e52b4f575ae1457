/**
 * The package record and download loop that cmd/apkdownload/apkdownload.go and
 * cmd/debdownload/debdownload.go both define: a package found on an index
 * page, and the step that fetches each one into a local archive unless that
 * archive already exists. The HTTP transfer and file creation are a parameter
 * (`fetched`: whether downloading a link into a file succeeds).
 */
module Packages {
  import opened Wrappers
  import Strs
  import Decimal
  import Semver

  /** The immutable part of a package: what the index listing yields. */
  datatype Package = Package(link: string, name: string, variant: string, version: Semver.Version, arch: string)

  /** pkg: a listed package and, once downloaded, the path of its archive. */
  class Pkg {
    const info: Package
    var downloadedArchive: string

    constructor (info: Package)
      ensures this.info == info && downloadedArchive == ""
    {
      this.info := info;
      downloadedArchive := "";
    }
  }

  /** "maj.min.patch" of a version: prerelease and metadata dropped. */
  function Triple(v: Semver.Version): string
  {
    Semver.TripleString(v)
  }

  /** The extraction directory: out/arch/maj.min.patch/(variant, or "main" when there is none). */
  function TargetDir(outputDir: string, p: Package): string
  {
    Strs.Join([outputDir, p.arch, Triple(p.version), if p.variant != "" then p.variant else "main"])
  }

  /**
   * Packages of different architecture, triple or variant never share an
   * extraction directory (a variant literally named "main" shares the one of
   * the package without a variant).
   */
  lemma TargetDirDistinguishes(outputDir: string, p: Package, q: Package)
    requires outputDir != "" && p.arch != "" && q.arch != "" && '/' !in p.arch && '/' !in q.arch
    requires '/' !in p.variant && '/' !in q.variant
    requires TargetDir(outputDir, p) == TargetDir(outputDir, q)
    ensures p.arch == q.arch && p.version.major == q.version.major && p.version.minor == q.version.minor
    ensures p.version.patch == q.version.patch
    ensures (if p.variant != "" then p.variant else "main") == (if q.variant != "" then q.variant else "main")
  {
    var vp := if p.variant != "" then p.variant else "main";
    var vq := if q.variant != "" then q.variant else "main";
    assert vp != "" && '/' !in vp && vq != "" && '/' !in vq;
    TripleShape(p.version);
    TripleShape(q.version);
    JoinParts(outputDir, p.arch, Triple(p.version), vp, q.arch, Triple(q.version), vq);
    TripleInjective(p.version, q.version);
  }

  /** out/a/t/v names its three parts back when none of them holds '/'. */
  lemma JoinParts(outputDir: string, a1: string, t1: string, v1: string, a2: string, t2: string, v2: string)
    requires outputDir != "" && a1 != "" && t1 != "" && v1 != "" && a2 != "" && t2 != "" && v2 != ""
    requires '/' !in a1 && '/' !in t1 && '/' !in v1 && '/' !in a2 && '/' !in t2 && '/' !in v2
    requires Strs.Join([outputDir, a1, t1, v1]) == Strs.Join([outputDir, a2, t2, v2])
    ensures a1 == a2 && t1 == t2 && v1 == v2
  {
    JoinFour(outputDir, a1, t1, v1);
    JoinFour(outputDir, a2, t2, v2);
    var tp := a1 + ['/'] + t1 + ['/'] + v1;
    var tq := a2 + ['/'] + t2 + ['/'] + v2;
    assert Strs.Join([outputDir, a1, t1, v1]) == (outputDir + "/") + tp;
    assert Strs.Join([outputDir, a2, t2, v2]) == (outputDir + "/") + tq;
    PrefixCancel(outputDir + "/", tp, tq);
    SplitSep3(a1, t1, v1, a2, t2, v2, '/');
  }

  lemma PrefixCancel(a: string, x: string, y: string)
    requires a + x == a + y
    ensures x == y
  {
    assert x == (a + x)[|a|..];
    assert y == (a + y)[|a|..];
  }

  lemma JoinFour(a: string, b: string, c: string, d: string)
    requires a != "" && b != "" && c != "" && d != ""
    ensures Strs.Join([a, b, c, d]) == a + "/" + b + "/" + c + "/" + d
  {
    assert [a, b, c, d] == [a] + [b, c, d];
    assert [b, c, d] == [b] + [c, d];
    Strs.JoinOne(a);
    Strs.JoinOne(b);
    Strs.JoinTwo(c, d);
    assert Strs.NonEmpty([a]) == [a] + Strs.NonEmpty([]) by { assert [a][1..] == []; }
    assert Strs.NonEmpty([b]) == [b] + Strs.NonEmpty([]) by { assert [b][1..] == []; }
    assert Strs.NonEmpty([c, d]) != [] by { assert [c, d][1..] == [d]; }
    Strs.NonEmptyAppend([b], [c, d]);
    Strs.JoinAppend([b], [c, d]);
    Strs.JoinAppend([a], [b, c, d]);
  }

  /** A triple is digits and dots, never empty and never containing '/'. */
  lemma TripleShape(v: Semver.Version)
    ensures Triple(v) != "" && '/' !in Triple(v)
  {
    var s := Triple(v);
    var a := Decimal.Format(v.major);
    assert s[0] == a[0];
    forall i | 0 <= i < |s| ensures s[i] != '/' {
      var b := Decimal.Format(v.minor);
      var c := Decimal.Format(v.patch);
      assert s == a + "." + b + "." + c;
      if i < |a| { assert s[i] == a[i]; }
      else if i == |a| { }
      else if i < |a| + 1 + |b| { assert s[i] == b[i - |a| - 1]; }
      else if i == |a| + 1 + |b| { }
      else { assert s[i] == c[i - |a| - 2 - |b|]; }
    }
  }

  /** Splitting "x.y.z" at its separators, when no piece holds one. */
  lemma SplitSep3(x1: string, y1: string, z1: string, x2: string, y2: string, z2: string, sep: char)
    requires sep !in x1 && sep !in y1 && sep !in z1 && sep !in x2 && sep !in y2 && sep !in z2
    requires x1 + [sep] + y1 + [sep] + z1 == x2 + [sep] + y2 + [sep] + z2
    ensures x1 == x2 && y1 == y2 && z1 == z2
  {
    Parts3(x1, y1, z1, sep);
    Parts3(x2, y2, z2, sep);
  }

  lemma Parts3(x: string, y: string, z: string, sep: char)
    requires sep !in x && sep !in y && sep !in z
    ensures Strs.Split(x + [sep] + y + [sep] + z, sep) == [x, y, z]
  {
    assert x + [sep] + y + [sep] + z == x + [sep] + (y + [sep] + z);
    Strs.SplitAfter(x, sep, y + [sep] + z);
    Strs.SplitAfter(y, sep, z);
    Strs.NoSepSingle(z, sep);
  }

  /** Equal triples come from equal major, minor and patch numbers. */
  lemma TripleInjective(a: Semver.Version, b: Semver.Version)
    requires Triple(a) == Triple(b)
    ensures a.major == b.major && a.minor == b.minor && a.patch == b.patch
  {
    var a1, a2, a3 := Decimal.Format(a.major), Decimal.Format(a.minor), Decimal.Format(a.patch);
    var b1, b2, b3 := Decimal.Format(b.major), Decimal.Format(b.minor), Decimal.Format(b.patch);
    DigitsNoDot(a1); DigitsNoDot(a2); DigitsNoDot(a3);
    DigitsNoDot(b1); DigitsNoDot(b2); DigitsNoDot(b3);
    assert Triple(a) == a1 + ['.'] + a2 + ['.'] + a3;
    assert Triple(b) == b1 + ['.'] + b2 + ['.'] + b3;
    SplitSep3(a1, a2, a3, b1, b2, b3, '.');
    Decimal.FormatInjective(a.major, b.major);
    Decimal.FormatInjective(a.minor, b.minor);
    Decimal.FormatInjective(a.patch, b.patch);
  }

  lemma DigitsNoDot(s: string)
    requires Decimal.IsNumeric(s)
    ensures '.' !in s && '/' !in s
  {
    forall i | 0 <= i < |s| ensures s[i] != '.' && s[i] != '/' {
      assert Decimal.IsDigit(s[i]);
    }
  }

  // ----- download -----

  /** Where download puts p's archive. */
  function Target(tempDir: string, fileName: Package -> string, p: Package): string
  {
    Strs.Join([tempDir, fileName(p)])
  }

  /** The archive paths of the packages, in order. */
  function Targets(infos: seq<Package>, tempDir: string, fileName: Package -> string): (ts: seq<string>)
    ensures |ts| == |infos|
    ensures forall i :: 0 <= i < |infos| ==> ts[i] == Target(tempDir, fileName, infos[i])
  {
    seq(|infos|, i requires 0 <= i < |infos| => Target(tempDir, fileName, infos[i]))
  }

  lemma TargetsSnoc(infos: seq<Package>, i: nat, tempDir: string, fileName: Package -> string)
    requires i < |infos|
    ensures Targets(infos[..i + 1], tempDir, fileName) ==
            Targets(infos[..i], tempDir, fileName) + [Target(tempDir, fileName, infos[i])]
  {
    var a := Targets(infos[..i + 1], tempDir, fileName);
    var b := Targets(infos[..i], tempDir, fileName) + [Target(tempDir, fileName, infos[i])];
    assert |a| == |b|;
    forall k | 0 <= k < |a| ensures a[k] == b[k] {
      assert infos[..i + 1][k] == infos[k];
    }
  }

  /**
   * Whether package i finds its archive on disk: it was there before the
   * loop, or an earlier package of the loop recorded the same path (each
   * earlier package got past its iteration, so its archive exists).
   */
  predicate OnDisk(infos: seq<Package>, i: nat, tempDir: string, fileName: Package -> string, present: string -> bool)
    requires i < |infos|
  {
    var t := Target(tempDir, fileName, infos[i]);
    present(t) || t in Targets(infos[..i], tempDir, fileName)
  }

  /** Whether downloading package i fails: its archive is not on disk and the transfer fails. */
  predicate FailsAt(infos: seq<Package>, i: nat, tempDir: string, fileName: Package -> string,
                    present: string -> bool, fetched: string -> bool)
    requires i < |infos|
  {
    !OnDisk(infos, i, tempDir, fileName, present) && !fetched(infos[i].link)
  }

  /** The index of the first package from k on whose download fails, or the count when none does. */
  function FirstFailureFrom(infos: seq<Package>, k: nat, tempDir: string, fileName: Package -> string,
                            present: string -> bool, fetched: string -> bool): (n: nat)
    requires k <= |infos|
    decreases |infos| - k
    ensures k <= n <= |infos|
    ensures forall i :: k <= i < n ==> !FailsAt(infos, i, tempDir, fileName, present, fetched)
    ensures n < |infos| ==> FailsAt(infos, n, tempDir, fileName, present, fetched)
  {
    if k == |infos| then k
    else if FailsAt(infos, k, tempDir, fileName, present, fetched) then k
    else FirstFailureFrom(infos, k + 1, tempDir, fileName, present, fetched)
  }

  /** The index of the first package whose download fails, or the count when none does. */
  function FirstFailure(infos: seq<Package>, tempDir: string, fileName: Package -> string,
                        present: string -> bool, fetched: string -> bool): (n: nat)
    ensures n <= |infos|
    ensures forall i :: 0 <= i < n ==> !FailsAt(infos, i, tempDir, fileName, present, fetched)
    ensures n < |infos| ==> FailsAt(infos, n, tempDir, fileName, present, fetched)
  {
    FirstFailureFrom(infos, 0, tempDir, fileName, present, fetched)
  }

  /** Past a prefix without failures, package i either fails first or extends the prefix. */
  lemma FirstFailureStep(infos: seq<Package>, i: nat, tempDir: string, fileName: Package -> string,
                         present: string -> bool, fetched: string -> bool)
    requires i < |infos| && i <= FirstFailure(infos, tempDir, fileName, present, fetched)
    ensures FailsAt(infos, i, tempDir, fileName, present, fetched) <==>
            FirstFailure(infos, tempDir, fileName, present, fetched) == i
  {
  }

  /** The links actually transferred: those whose archive is not on disk when their turn comes, in order. */
  function Transfers(infos: seq<Package>, tempDir: string, fileName: Package -> string, present: string -> bool): (ls: seq<string>)
    ensures |ls| <= |infos|
    ensures forall l :: l in ls ==> exists i :: 0 <= i < |infos| && infos[i].link == l
  {
    if infos == [] then []
    else
      var rest := Transfers(infos[..|infos| - 1], tempDir, fileName, present);
      var p := infos[|infos| - 1];
      if OnDisk(infos, |infos| - 1, tempDir, fileName, present) then rest else rest + [p.link]
  }

  /** Whether package i is on disk depends only on it and the packages before it. */
  lemma OnDiskPrefix(infos: seq<Package>, i: nat, m: nat, tempDir: string, fileName: Package -> string, present: string -> bool)
    requires i < m <= |infos|
    ensures OnDisk(infos[..m], i, tempDir, fileName, present) == OnDisk(infos, i, tempDir, fileName, present)
  {
    assert infos[..m][..i] == infos[..i];
  }

  lemma TransfersSnoc(infos: seq<Package>, i: nat, tempDir: string, fileName: Package -> string, present: string -> bool)
    requires i < |infos|
    ensures Transfers(infos[..i + 1], tempDir, fileName, present) ==
      Transfers(infos[..i], tempDir, fileName, present) +
      (if OnDisk(infos, i, tempDir, fileName, present) then [] else [infos[i].link])
  {
    assert infos[..i + 1][..i] == infos[..i];
    OnDiskPrefix(infos, i, i + 1, tempDir, fileName, present);
  }

  /**
   * A package whose archive path an earlier package already recorded is
   * never transferred and never fails: os.Stat finds the file the earlier
   * iteration wrote.
   */
  lemma LaterSameTargetReused(infos: seq<Package>, j: nat, i: nat, tempDir: string, fileName: Package -> string,
                              present: string -> bool, fetched: string -> bool)
    requires j < i < |infos|
    requires Target(tempDir, fileName, infos[j]) == Target(tempDir, fileName, infos[i])
    ensures !FailsAt(infos, i, tempDir, fileName, present, fetched)
    ensures Transfers(infos[..i + 1], tempDir, fileName, present) == Transfers(infos[..i], tempDir, fileName, present)
  {
    assert Targets(infos[..i], tempDir, fileName)[j] == Target(tempDir, fileName, infos[j]);
    TransfersSnoc(infos, i, tempDir, fileName, present);
  }

  function Infos(packages: seq<Pkg>): (s: seq<Package>)
    ensures |s| == |packages| && forall i :: 0 <= i < |packages| ==> s[i] == packages[i].info
  {
    seq(|packages|, i requires 0 <= i < |packages| => packages[i].info)
  }

  /**
   * One iteration of download: p records `target`, fetching its link unless
   * the target is on disk (present before the loop, or among the archives
   * `written` by earlier iterations); None when the transfer fails,
   * otherwise the links transferred.
   */
  method DownloadOne(p: Pkg, target: string, present: string -> bool, written: seq<string>, fetched: string -> bool)
    returns (r: Option<seq<string>>)
    modifies p
    ensures r.None? <==> !present(target) && target !in written && !fetched(p.info.link)
    ensures r.Some? ==> r.value == if present(target) || target in written then [] else [p.info.link]
    ensures r.Some? ==> p.downloadedArchive == target
    ensures r.None? ==> p.downloadedArchive == old(p.downloadedArchive)
  {
    if present(target) || target in written {
      p.downloadedArchive := target;
      return Some([]);
    }
    if !fetched(p.info.link) {
      return None;
    }
    p.downloadedArchive := target;
    return Some([p.info.link]);
  }

  lemma TakeOneMore<T>(s: seq<T>, i: nat)
    requires i < |s|
    ensures forall x :: x in s[..i + 1] <==> x in s[..i] || x == s[i]
  {
    assert s[..i + 1] == s[..i] + [s[i]];
  }

  /**
   * download: for each package in order, the archive tempDir/fileName is
   * reused when it exists (before the loop, or because an earlier package
   * wrote it) and fetched otherwise; either way the package records it. The
   * first failed transfer stops the loop with an error.
   */
  method Download(packages: seq<Pkg>, tempDir: string, fileName: Package -> string,
                  present: string -> bool, fetched: string -> bool) returns (ok: bool, transfers: seq<string>)
    modifies set p | p in packages
    ensures var n := FirstFailure(Infos(packages), tempDir, fileName, present, fetched);
      (ok <==> n == |packages|) &&
      transfers == Transfers(Infos(packages)[..n], tempDir, fileName, present) &&
      (forall p :: p in packages[..n] ==> p.downloadedArchive == Target(tempDir, fileName, p.info)) &&
      (forall p :: p in packages && p !in packages[..n] ==> p.downloadedArchive == old(p.downloadedArchive))
  {
    var infos := Infos(packages);
    ghost var n := FirstFailure(infos, tempDir, fileName, present, fetched);
    transfers := [];
    var written: seq<string> := [];
    for i := 0 to |packages|
      invariant i <= n
      invariant transfers == Transfers(infos[..i], tempDir, fileName, present)
      invariant written == Targets(infos[..i], tempDir, fileName)
      invariant forall k :: 0 <= k < i ==> packages[k].downloadedArchive == Target(tempDir, fileName, packages[k].info)
      invariant forall p :: p in packages && p !in packages[..i] ==> p.downloadedArchive == old(p.downloadedArchive)
    {
      TakeOneMore(packages, i);
      var next := DownloadAt(packages, i, tempDir, fileName, present, fetched, transfers, written);
      if next.None? {
        return false, transfers;
      }
      transfers := next.value;
      written := written + [Target(tempDir, fileName, packages[i].info)];
    }
    assert n == |packages|;
    assert infos[..|packages|] == infos;
    return true, transfers;
  }

  /** The loop body of download at package i, past a prefix without failures. */
  method DownloadAt(packages: seq<Pkg>, i: nat, tempDir: string, fileName: Package -> string,
                    present: string -> bool, fetched: string -> bool, transfers: seq<string>, written: seq<string>)
    returns (r: Option<seq<string>>)
    requires i < |packages| && i <= FirstFailure(Infos(packages), tempDir, fileName, present, fetched)
    requires transfers == Transfers(Infos(packages)[..i], tempDir, fileName, present)
    requires written == Targets(Infos(packages)[..i], tempDir, fileName)
    modifies packages[i]
    ensures r.None? <==> FirstFailure(Infos(packages), tempDir, fileName, present, fetched) == i
    ensures r.Some? ==> r.value == Transfers(Infos(packages)[..i + 1], tempDir, fileName, present)
    ensures r.Some? ==> packages[i].downloadedArchive == Target(tempDir, fileName, packages[i].info)
    ensures r.None? ==> packages[i].downloadedArchive == old(packages[i].downloadedArchive)
    ensures written + [Target(tempDir, fileName, packages[i].info)] == Targets(Infos(packages)[..i + 1], tempDir, fileName)
  {
    var infos := Infos(packages);
    var p := packages[i];
    assert infos[i] == p.info;
    TargetsSnoc(infos, i, tempDir, fileName);
    TransfersSnoc(infos, i, tempDir, fileName, present);
    FirstFailureStep(infos, i, tempDir, fileName, present, fetched);
    var target := Target(tempDir, fileName, p.info);
    assert OnDisk(infos, i, tempDir, fileName, present) <==> present(target) || target in written;
    var fetchedNow := DownloadOne(p, target, present, written, fetched);
    if fetchedNow.Some? {
      r := Some(transfers + fetchedNow.value);
    } else {
      r := None;
    }
  }
}
