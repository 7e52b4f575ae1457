/**
 * cmd/apkdownload/apkdownload.go: list the Alpine packages of one name on an
 * index page per architecture, keep the newest of each (variant,
 * major.minor, architecture), download their archives and locate the data
 * tarball inside each .apk (the third gzip member of the file).
 *
 * The HTTP fetches, HTML parsing, the package regular expression and the
 * version constraint are parameters; gzip/tar decompression is not modelled,
 * extraction yields the directory and the offset decompression would start at.
 */
module ApkDownload {
  import opened Wrappers
  import Strs
  import Decimal
  import Semver
  import Packages

  type byte = Strs.byte

  const DefaultBaseUrl := "https://dl-cdn.alpinelinux.org/alpine/latest-stable/main/"

  /** Variants kept besides the main package. */
  const AllowedVariants: set<string> := {"dbg"}

  // ----- names -----

  /** convertArch: Go's architecture names to Alpine's directory names. */
  function ConvertArch(arch: string): (r: string)
    ensures r != arch <==> arch == "amd64" || arch == "arm64"
  {
    if arch == "amd64" then "x86_64"
    else if arch == "arm64" then "aarch64"
    else arch
  }

  /** Two architectures that are not already Alpine names never share a directory. */
  lemma ConvertArchInjective(a: string, b: string)
    requires a != "x86_64" && a != "aarch64" && b != "x86_64" && b != "aarch64"
    requires ConvertArch(a) == ConvertArch(b)
    ensures a == b
  {
  }

  /** shortVersion: "major.minor". */
  function ShortVersion(v: Semver.Version): string
  {
    Decimal.Format(v.major) + "." + Decimal.Format(v.minor)
  }

  /** Versions with the same short version agree on major and minor. */
  lemma ShortVersionInjective(a: Semver.Version, b: Semver.Version)
    requires ShortVersion(a) == ShortVersion(b)
    ensures a.major == b.major && a.minor == b.minor
  {
    var a1, a2 := Decimal.Format(a.major), Decimal.Format(a.minor);
    var b1, b2 := Decimal.Format(b.major), Decimal.Format(b.minor);
    Packages.DigitsNoDot(a1); Packages.DigitsNoDot(a2);
    Packages.DigitsNoDot(b1); Packages.DigitsNoDot(b2);
    assert ShortVersion(a) == a1 + ['.'] + a2;
    assert ShortVersion(b) == b1 + ['.'] + b2;
    Strs.SplitAfter(a1, '.', a2);
    Strs.SplitAfter(b1, '.', b2);
    Strs.NoSepSingle(a2, '.');
    Strs.NoSepSingle(b2, '.');
    assert [a1, a2] == Strs.Split(ShortVersion(a), '.') == [b1, b2];
    Decimal.FormatInjective(a.major, b.major);
    Decimal.FormatInjective(a.minor, b.minor);
  }

  /** url.JoinPath of a base and one element, without escaping or cleaning. */
  function UrlJoin(base: string, elem: string): (u: string)
    ensures Strs.HasPrefix(u, base) && Strs.HasSuffix(u, elem)
  {
    if Strs.HasSuffix(base, "/") then base + elem else base + "/" + elem
  }

  /** The index page of one architecture. */
  function ArchUrl(baseUrl: string, arch: string): string
  {
    UrlJoin(baseUrl, ConvertArch(arch))
  }

  // ----- gzip header scan -----

  const GzipId1: byte := 0x1f
  const GzipId2: byte := 0x8b
  const GzipDeflate: byte := 8

  /** buf starts with ID1, ID2 and CM = deflate (section 2.3.1 of RFC 1952). */
  predicate HasMagic(buf: seq<byte>)
  {
    |buf| >= 3 && buf[0] == GzipId1 && buf[1] == GzipId2 && buf[2] == GzipDeflate
  }

  /** A buffer that ends before readGZIPHeader can decide: it indexes past the end. */
  predicate CutShort(buf: seq<byte>)
  {
    buf == [] || buf == [GzipId1] || buf == [GzipId1, GzipId2]
  }

  /** A Go runtime panic: an index past the end of a slice of the given length. */
  datatype Panic = IndexOutOfRange(index: nat, length: nat)

  /** readGZIPHeader as written: the three bytes are read without a length check. */
  function ReadGzipHeader(buf: seq<byte>): (r: Result<bool, Panic>)
    ensures r.Err? <==> CutShort(buf)
    ensures r.Ok? ==> (r.value <==> HasMagic(buf))
  {
    if |buf| < 1 then Err(IndexOutOfRange(0, |buf|))
    else if buf[0] != GzipId1 then Ok(false)
    else if |buf| < 2 then Err(IndexOutOfRange(1, |buf|))
    else if buf[1] != GzipId2 then Ok(false)
    else if |buf| < 3 then Err(IndexOutOfRange(2, |buf|))
    else Ok(buf[2] == GzipDeflate)
  }

  /** The offsets below n at which a gzip header starts, in ascending order. */
  function MagicOffsets(b: seq<byte>, n: nat): seq<nat>
    requires n <= |b|
  {
    if n == 0 then [] else MagicOffsets(b, n - 1) + (if HasMagic(b[n - 1..]) then [n - 1] else [])
  }

  /** MagicOffsets holds every header offset below n, and nothing else, strictly ascending. */
  lemma {:induction false} MagicOffsetsExact(b: seq<byte>, n: nat)
    requires n <= |b|
    ensures forall k: nat :: k in MagicOffsets(b, n) <==> k < n && HasMagic(b[k..])
    ensures forall i, j :: 0 <= i < j < |MagicOffsets(b, n)| ==> MagicOffsets(b, n)[i] < MagicOffsets(b, n)[j]
    ensures forall i :: 0 <= i < |MagicOffsets(b, n)| ==> MagicOffsets(b, n)[i] < n
  {
    if n > 0 {
      MagicOffsetsExact(b, n - 1);
    }
  }

  /** The headers before the i-th one are exactly the first i. */
  lemma {:induction false} MagicOffsetsPrefix(b: seq<byte>, n: nat, i: nat)
    requires n <= |b| && i < |MagicOffsets(b, n)|
    ensures MagicOffsets(b, n)[i] < n
    ensures MagicOffsets(b, MagicOffsets(b, n)[i]) == MagicOffsets(b, n)[..i]
  {
    var o := MagicOffsets(b, n - 1);
    if i < |o| {
      MagicOffsetsPrefix(b, n - 1, i);
      assert MagicOffsets(b, n)[..i] == o[..i];
    } else {
      assert MagicOffsets(b, n)[..i] == o;
    }
  }

  /** The archive ends in 1f or in 1f 8b, the tails on which readGZIPHeader panics. */
  predicate EndsCutShort(b: seq<byte>)
  {
    Strs.HasSuffix(b, [GzipId1]) || Strs.HasSuffix(b, [GzipId1, GzipId2])
  }

  lemma CutShortTail(b: seq<byte>, k: nat)
    requires k < |b| && CutShort(b[k..])
    ensures EndsCutShort(b)
  {
    if |b[k..]| == 1 {
      assert k == |b| - 1;
    } else {
      assert k == |b| - 2;
    }
  }

  lemma NoCutShortTail(b: seq<byte>)
    requires forall k :: 0 <= k < |b| ==> !CutShort(b[k..])
    ensures !EndsCutShort(b)
  {
    if Strs.HasSuffix(b, [GzipId1]) {
      assert CutShort(b[|b| - 1..]);
    } else if Strs.HasSuffix(b, [GzipId1, GzipId2]) {
      assert CutShort(b[|b| - 2..]);
    }
  }

  /**
   * The offset scan of extract as written: readGZIPHeader at every offset of
   * the archive. It panics exactly when the archive ends in 1f or 1f 8b, and
   * otherwise collects every header offset in ascending order.
   */
  method GzipOffsets(b: seq<byte>) returns (r: Result<seq<nat>, Panic>)
    ensures r.Err? <==> EndsCutShort(b)
    ensures r.Ok? ==> r.value == MagicOffsets(b, |b|)
  {
    var offsets: seq<nat> := [];
    for i := 0 to |b|
      invariant offsets == MagicOffsets(b, i)
      invariant forall k :: 0 <= k < i ==> !CutShort(b[k..])
    {
      var h := ReadGzipHeader(b[i..]);
      if h.Err? {
        CutShortTail(b, i);
        return Err(h.error);
      }
      if h.value {
        offsets := offsets + [i];
      }
    }
    NoCutShortTail(b);
    return Ok(offsets);
  }

  /** The scan with the length checked before the bytes are read: it never panics. */
  method GzipOffsetsFixed(b: seq<byte>) returns (offsets: seq<nat>)
    ensures offsets == MagicOffsets(b, |b|)
  {
    offsets := [];
    for i := 0 to |b|
      invariant offsets == MagicOffsets(b, i)
    {
      if HasMagic(b[i..]) {
        offsets := offsets + [i];
      }
    }
  }

  /**
   * An archive of three gzip members whose last byte is 1f (the high byte of
   * the last member's ISIZE field): all three headers are there, yet the scan
   * as written panics on the final byte.
   */
  lemma TrailingHeaderByte()
    ensures var b: seq<byte> := [0x1f, 0x8b, 8, 0x1f, 0x8b, 8, 0x1f, 0x8b, 8, 0x1f];
      EndsCutShort(b) && |MagicOffsets(b, |b|)| == 3
  {
    var b: seq<byte> := [0x1f, 0x8b, 8, 0x1f, 0x8b, 8, 0x1f, 0x8b, 8, 0x1f];
    assert b[9..] == [0x1f];
    assert b[8..] == [8, 0x1f];
    assert b[7..] == [0x8b, 8, 0x1f];
    assert HasMagic(b[6..]) && !HasMagic(b[7..]) && !HasMagic(b[8..]) && !HasMagic(b[9..]);
    assert HasMagic(b[3..]) && !HasMagic(b[4..]) && !HasMagic(b[5..]);
    assert HasMagic(b[0..]) && !HasMagic(b[1..]) && !HasMagic(b[2..]);
    assert MagicOffsets(b, 3) == [0];
    assert MagicOffsets(b, 6) == [0, 3];
    assert MagicOffsets(b, 10) == [0, 3, 6];
  }

  // ----- list -----

  /** What fetching an index page gives: 404, another failure, or the page's links in document order. */
  datatype Listing = NotFound | Failed(reason: string) | Page(hrefs: seq<string>)

  /** Submatches 1 and 2 of the pattern name(-.*)?-([0-9]\.[0-9]\.[0-9][0-9]?).*\.apk. */
  datatype ApkMatch = ApkMatch(variant: string, version: string)

  datatype ListError =
    | FetchFailed(url: string, reason: string)   // a non-404 failure status or unparsable HTML
    | BadVersion(text: string)                   // semver.MustParse panics

  /** What list makes of one link: nothing, a package, or the MustParse panic. */
  function Candidate(href: string, pkgName: string, arch: string, archUrl: string,
                     matcher: string -> Option<ApkMatch>, admits: Option<Semver.Version -> bool>)
    : (r: Result<Option<Packages.Package>, ListError>)
    ensures r.Ok? && r.value.Some? ==>
      var p := r.value.value;
      p.name == pkgName && p.arch == arch && p.link == UrlJoin(archUrl, href) &&
      (p.variant == "" || p.variant in AllowedVariants) &&
      (admits.Some? ==> admits.value(p.version))
    ensures r.Err? <==> matcher(href).Some? && Semver.Parse(Strs.ReplaceChar(matcher(href).value.version, '~', '+')).None?
  {
    match matcher(href)
    case None => Ok(None)
    case Some(m) =>
      match Semver.Parse(Strs.ReplaceChar(m.version, '~', '+'))
      case None => Err(BadVersion(m.version))
      case Some(v) =>
        if admits.Some? && !admits.value(v) then Ok(None)
        else
          var variant := Strs.TrimPrefix(m.variant, "-");
          if variant != "" && variant !in AllowedVariants then Ok(None)
          else Ok(Some(Packages.Package(UrlJoin(archUrl, href), pkgName, variant, v, arch)))
  }

  /** Every package a name, an architecture and the allowed variants admit. */
  predicate Admitted(p: Packages.Package, pkgName: string, archs: seq<string>)
  {
    p.name == pkgName && p.arch in archs && (p.variant == "" || p.variant in AllowedVariants)
  }

  /** One link's worth of list: a panic stops it, a package is added. */
  function Step(prefix: Result<seq<Packages.Package>, ListError>, c: Result<Option<Packages.Package>, ListError>)
    : Result<seq<Packages.Package>, ListError>
  {
    if prefix.Err? then prefix
    else
      match c
      case Err(e) => Err(e)
      case Ok(None) => prefix
      case Ok(Some(p)) => Ok(prefix.value + [p])
  }

  /** The packages on one page, in document order, or the first panic. */
  function PageCandidates(hrefs: seq<string>, pkgName: string, arch: string, archUrl: string,
                          matcher: string -> Option<ApkMatch>, admits: Option<Semver.Version -> bool>)
    : (r: Result<seq<Packages.Package>, ListError>)
    ensures r.Ok? ==> forall p :: p in r.value ==>
      (p.name == pkgName && p.arch == arch && (p.variant == "" || p.variant in AllowedVariants))
  {
    if hrefs == [] then Ok([])
    else
      Step(PageCandidates(hrefs[..|hrefs| - 1], pkgName, arch, archUrl, matcher, admits),
           Candidate(hrefs[|hrefs| - 1], pkgName, arch, archUrl, matcher, admits))
  }

  lemma PageSnoc(hrefs: seq<string>, j: nat, pkgName: string, arch: string, archUrl: string,
                 matcher: string -> Option<ApkMatch>, admits: Option<Semver.Version -> bool>)
    requires j < |hrefs|
    ensures PageCandidates(hrefs[..j + 1], pkgName, arch, archUrl, matcher, admits) ==
            Step(PageCandidates(hrefs[..j], pkgName, arch, archUrl, matcher, admits),
                 Candidate(hrefs[j], pkgName, arch, archUrl, matcher, admits))
  {
    assert hrefs[..j + 1][..j] == hrefs[..j];
  }

  /** The packages of one architecture's page: none when it is missing (404). */
  function ArchCandidates(arch: string, baseUrl: string, pkgName: string, listing: string -> Listing,
                          matcher: string -> Option<ApkMatch>, admits: Option<Semver.Version -> bool>)
    : Result<seq<Packages.Package>, ListError>
  {
    var url := ArchUrl(baseUrl, arch);
    match listing(url)
    case NotFound => Ok([])
    case Failed(reason) => Err(FetchFailed(url, reason))
    case Page(hrefs) => PageCandidates(hrefs, pkgName, arch, url, matcher, admits)
  }

  /** The packages over all architectures in order, or the first error. */
  function AllCandidates(archs: seq<string>, baseUrl: string, pkgName: string, listing: string -> Listing,
                         matcher: string -> Option<ApkMatch>, admits: Option<Semver.Version -> bool>)
    : (r: Result<seq<Packages.Package>, ListError>)
    ensures r.Ok? ==> forall p :: p in r.value ==> Admitted(p, pkgName, archs)
  {
    if archs == [] then Ok([])
    else
      var prefix := AllCandidates(archs[..|archs| - 1], baseUrl, pkgName, listing, matcher, admits);
      var page := ArchCandidates(archs[|archs| - 1], baseUrl, pkgName, listing, matcher, admits);
      if prefix.Err? then prefix
      else if page.Err? then Err(page.error)
      else Ok(prefix.value + page.value)
  }

  lemma AllSnoc(archs: seq<string>, i: nat, baseUrl: string, pkgName: string, listing: string -> Listing,
                matcher: string -> Option<ApkMatch>, admits: Option<Semver.Version -> bool>)
    requires i < |archs|
    ensures var prefix := AllCandidates(archs[..i], baseUrl, pkgName, listing, matcher, admits);
      var page := ArchCandidates(archs[i], baseUrl, pkgName, listing, matcher, admits);
      AllCandidates(archs[..i + 1], baseUrl, pkgName, listing, matcher, admits) ==
        if prefix.Err? then prefix else if page.Err? then Err(page.error) else Ok(prefix.value + page.value)
  {
    assert archs[..i + 1][..i] == archs[..i];
  }

  /**
   * A link gives a package exactly when it matches, its version parses once
   * '~' is replaced by '+', the constraint admits that version and capture 1
   * without its leading '-' is empty or an allowed variant. The package is
   * the link joined to the page URL, the listed name and architecture, that
   * variant and the parsed version.
   */
  lemma CandidateShape(href: string, pkgName: string, arch: string, archUrl: string,
                       matcher: string -> Option<ApkMatch>, admits: Option<Semver.Version -> bool>)
    ensures var r := Candidate(href, pkgName, arch, archUrl, matcher, admits);
      var m := matcher(href);
      (r.Ok? && r.value.Some? <==>
         m.Some? && Semver.Parse(Strs.ReplaceChar(m.value.version, '~', '+')).Some? &&
         (admits.None? || admits.value(Semver.Parse(Strs.ReplaceChar(m.value.version, '~', '+')).value)) &&
         (Strs.TrimPrefix(m.value.variant, "-") == "" || Strs.TrimPrefix(m.value.variant, "-") in AllowedVariants)) &&
      (r.Ok? && r.value.Some? ==>
         r.value.value == Packages.Package(UrlJoin(archUrl, href), pkgName, Strs.TrimPrefix(m.value.variant, "-"),
                                           Semver.Parse(Strs.ReplaceChar(m.value.version, '~', '+')).value, arch))
  {
  }

  /** The results of f over xs gathered in order, stopping at the first error. */
  function Gather<X, T, E>(xs: seq<X>, f: X -> Result<Option<T>, E>): Result<seq<T>, E>
  {
    if xs == [] then Ok([])
    else
      var prefix := Gather(xs[..|xs| - 1], f);
      var c := f(xs[|xs| - 1]);
      if prefix.Err? then prefix
      else if c.Err? then Err(c.error)
      else if c.value.None? then prefix
      else Ok(prefix.value + [c.value.value])
  }

  /** Gather fails exactly when f fails on some item. */
  lemma {:induction false} GatherFails<X, T, E>(xs: seq<X>, f: X -> Result<Option<T>, E>)
    ensures Gather(xs, f).Err? <==> exists i :: 0 <= i < |xs| && f(xs[i]).Err?
    decreases |xs|
  {
    if xs != [] {
      var n := |xs| - 1;
      var init := xs[..n];
      GatherFails(init, f);
      if Gather(init, f).Err? {
        var i :| 0 <= i < n && f(init[i]).Err?;
        assert init[i] == xs[i];
      } else if !f(xs[n]).Err? {
        forall i | 0 <= i < |xs| ensures f(xs[i]).Ok? {
          if i < n { assert init[i] == xs[i]; }
        }
      }
    }
  }

  /** When Gather succeeds it holds exactly the values f gives. */
  lemma {:induction false} GatherMembers<X, T, E>(xs: seq<X>, f: X -> Result<Option<T>, E>)
    ensures Gather(xs, f).Ok? ==> forall p :: p in Gather(xs, f).value <==>
      exists i :: 0 <= i < |xs| && f(xs[i]) == Ok(Some(p))
    decreases |xs|
  {
    if xs != [] {
      var n := |xs| - 1;
      var init := xs[..n];
      GatherMembers(init, f);
      var prev := Gather(init, f);
      var c := f(xs[n]);
      var r := Gather(xs, f);
      if r.Ok? {
        forall p ensures p in r.value <==> exists i :: 0 <= i < |xs| && f(xs[i]) == Ok(Some(p)) {
          if p in prev.value {
            var i :| 0 <= i < n && f(init[i]) == Ok(Some(p));
            assert init[i] == xs[i];
          } else if c == Ok(Some(p)) {
            assert p in r.value;
          } else {
            assert p !in r.value;
            forall i | 0 <= i < |xs| ensures f(xs[i]) != Ok(Some(p)) {
              if i < n { assert init[i] == xs[i]; }
            }
          }
        }
      }
    }
  }

  /** A page's packages are its links' candidates gathered in document order. */
  lemma {:induction false} PageIsGather(hrefs: seq<string>, pkgName: string, arch: string, archUrl: string,
                                        matcher: string -> Option<ApkMatch>, admits: Option<Semver.Version -> bool>)
    ensures PageCandidates(hrefs, pkgName, arch, archUrl, matcher, admits) == Gather(hrefs, h => Candidate(h, pkgName, arch, archUrl, matcher, admits))
    decreases |hrefs|
  {
    if hrefs != [] {
      PageIsGather(hrefs[..|hrefs| - 1], pkgName, arch, archUrl, matcher, admits);
    }
  }

  /**
   * A page fails exactly when one of its links panics; otherwise its packages
   * are exactly the packages its links give (in document order, by Step).
   */
  lemma PageComplete(hrefs: seq<string>, pkgName: string, arch: string, archUrl: string,
                     matcher: string -> Option<ApkMatch>, admits: Option<Semver.Version -> bool>)
    ensures var r := PageCandidates(hrefs, pkgName, arch, archUrl, matcher, admits);
      (r.Err? <==> exists i :: 0 <= i < |hrefs| && Candidate(hrefs[i], pkgName, arch, archUrl, matcher, admits).Err?) &&
      (r.Ok? ==> forall p :: p in r.value <==>
         exists i :: 0 <= i < |hrefs| && Candidate(hrefs[i], pkgName, arch, archUrl, matcher, admits) == Ok(Some(p)))
  {
    var f := h => Candidate(h, pkgName, arch, archUrl, matcher, admits);
    PageIsGather(hrefs, pkgName, arch, archUrl, matcher, admits);
    GatherFails(hrefs, f);
    GatherMembers(hrefs, f);
  }

  /** The results of f over xs concatenated in order, stopping at the first error. */
  function Concat<X, T, E>(xs: seq<X>, f: X -> Result<seq<T>, E>): Result<seq<T>, E>
  {
    if xs == [] then Ok([])
    else
      var prefix := Concat(xs[..|xs| - 1], f);
      var page := f(xs[|xs| - 1]);
      if prefix.Err? then prefix
      else if page.Err? then Err(page.error)
      else Ok(prefix.value + page.value)
  }

  /** Concat fails exactly when f fails on some item. */
  lemma {:induction false} ConcatFails<X, T, E>(xs: seq<X>, f: X -> Result<seq<T>, E>)
    ensures Concat(xs, f).Err? <==> exists i :: 0 <= i < |xs| && f(xs[i]).Err?
    decreases |xs|
  {
    if xs != [] {
      var n := |xs| - 1;
      var init := xs[..n];
      ConcatFails(init, f);
      if Concat(init, f).Err? {
        var i :| 0 <= i < n && f(init[i]).Err?;
        assert init[i] == xs[i];
      } else if !f(xs[n]).Err? {
        forall i | 0 <= i < |xs| ensures f(xs[i]).Ok? {
          if i < n { assert init[i] == xs[i]; }
        }
      }
    }
  }

  /** When Concat succeeds it holds exactly the members of every item's result. */
  lemma {:induction false} ConcatMembers<X, T, E>(xs: seq<X>, f: X -> Result<seq<T>, E>)
    ensures Concat(xs, f).Ok? ==> forall p :: p in Concat(xs, f).value <==>
      exists i :: 0 <= i < |xs| && f(xs[i]).Ok? && p in f(xs[i]).value
    decreases |xs|
  {
    if xs != [] {
      var n := |xs| - 1;
      var init := xs[..n];
      ConcatMembers(init, f);
      var prev := Concat(init, f);
      var r := Concat(xs, f);
      if r.Ok? {
        assert r.value == prev.value + f(xs[n]).value;
        forall p ensures p in r.value <==> exists i :: 0 <= i < |xs| && f(xs[i]).Ok? && p in f(xs[i]).value {
          if p in prev.value {
            var i :| 0 <= i < n && f(init[i]).Ok? && p in f(init[i]).value;
            assert init[i] == xs[i];
          } else if p in f(xs[n]).value {
            assert p in r.value;
          } else {
            assert p !in r.value;
            forall i | 0 <= i < |xs| && f(xs[i]).Ok? ensures p !in f(xs[i]).value {
              if i < n { assert init[i] == xs[i]; }
            }
          }
        }
      }
    }
  }

  /** AllCandidates concatenates the architectures' pages in order. */
  lemma {:induction false} AllIsConcat(archs: seq<string>, baseUrl: string, pkgName: string, listing: string -> Listing,
                                       matcher: string -> Option<ApkMatch>, admits: Option<Semver.Version -> bool>)
    ensures AllCandidates(archs, baseUrl, pkgName, listing, matcher, admits) == Concat(archs, a => ArchCandidates(a, baseUrl, pkgName, listing, matcher, admits))
    decreases |archs|
  {
    if archs != [] {
      AllIsConcat(archs[..|archs| - 1], baseUrl, pkgName, listing, matcher, admits);
    }
  }

  /**
   * The listing over all architectures fails exactly when one architecture's
   * page fails; otherwise it holds exactly the packages of every page.
   */
  lemma AllComplete(archs: seq<string>, baseUrl: string, pkgName: string, listing: string -> Listing,
                    matcher: string -> Option<ApkMatch>, admits: Option<Semver.Version -> bool>)
    ensures var r := AllCandidates(archs, baseUrl, pkgName, listing, matcher, admits);
      (r.Err? <==> exists i :: 0 <= i < |archs| && ArchCandidates(archs[i], baseUrl, pkgName, listing, matcher, admits).Err?) &&
      (r.Ok? ==> forall p :: p in r.value <==>
         exists i :: 0 <= i < |archs| && ArchCandidates(archs[i], baseUrl, pkgName, listing, matcher, admits).Ok? &&
                     p in ArchCandidates(archs[i], baseUrl, pkgName, listing, matcher, admits).value)
  {
    var f := a => ArchCandidates(a, baseUrl, pkgName, listing, matcher, admits);
    AllIsConcat(archs, baseUrl, pkgName, listing, matcher, admits);
    ConcatFails(archs, f);
    ConcatMembers(archs, f);
  }

  /** The dedup key: name-variant-major.minor-arch. */
  function Key(p: Packages.Package): string
  {
    Strs.JoinWith([p.name, p.variant, ShortVersion(p.version), p.arch], '-')
  }

  /** Packages that agree on name, variant, major.minor and arch share a key. */
  lemma SameKey(p: Packages.Package, q: Packages.Package)
    requires p.name == q.name && p.variant == q.variant && p.arch == q.arch
    requires p.version.major == q.version.major && p.version.minor == q.version.minor
    ensures Key(p) == Key(q)
  {
  }

  /**
   * One insertion into the table: a package is stored under its key unless
   * a package already there has a version at least as great.
   */
  function Insert(table: map<string, Packages.Package>, p: Packages.Package): map<string, Packages.Package>
  {
    var k := Key(p);
    if k in table && !Semver.GreaterThan(p.version, table[k].version) then table else table[k := p]
  }

  /**
   * Insertion adds p's key and touches no other; the stored package changes
   * only to p and only when p's version is strictly greater (or the key was new).
   */
  lemma InsertReplacesOnlyByGreater(table: map<string, Packages.Package>, p: Packages.Package)
    ensures Insert(table, p).Keys == table.Keys + {Key(p)}
    ensures forall k :: k in table && k != Key(p) ==> Insert(table, p)[k] == table[k]
    ensures Insert(table, p)[Key(p)] == p || (Key(p) in table && Insert(table, p)[Key(p)] == table[Key(p)])
    ensures Key(p) in table && Insert(table, p)[Key(p)] != table[Key(p)] ==>
              Semver.GreaterThan(p.version, table[Key(p)].version)
    ensures Key(p) in table && Semver.GreaterThan(p.version, table[Key(p)].version) ==> Insert(table, p)[Key(p)] == p
    ensures Key(p) !in table ==> Insert(table, p)[Key(p)] == p
  {
  }

  /** The table after inserting ps in order. */
  function InsertAll(table: map<string, Packages.Package>, ps: seq<Packages.Package>): map<string, Packages.Package>
  {
    if ps == [] then table else Insert(InsertAll(table, ps[..|ps| - 1]), ps[|ps| - 1])
  }

  /** Every key of the table is that of the package stored under it. */
  lemma {:induction false} KeysConsistent(ps: seq<Packages.Package>)
    ensures forall k :: k in InsertAll(map[], ps) ==> Key(InsertAll(map[], ps)[k]) == k
  {
    if ps != [] {
      KeysConsistent(ps[..|ps| - 1]);
    }
  }

  /** Every stored package is one of the candidates. */
  lemma {:induction false} StoredAreCandidates(ps: seq<Packages.Package>)
    ensures forall k :: k in InsertAll(map[], ps) ==> InsertAll(map[], ps)[k] in ps
  {
    if ps != [] {
      var front := ps[..|ps| - 1];
      StoredAreCandidates(front);
      assert forall q :: q in front ==> q in ps;
    }
  }

  /** Every candidate's key is in the table: no package is lost, only superseded. */
  lemma {:induction false} CandidatesKeyed(ps: seq<Packages.Package>)
    ensures forall p :: p in ps ==> Key(p) in InsertAll(map[], ps)
  {
    if ps != [] {
      var front := ps[..|ps| - 1];
      CandidatesKeyed(front);
      assert ps == front + [ps[|ps| - 1]];
    }
  }

  /** At most one listed package per variant, major.minor and architecture. */
  lemma OnePerKey(table: map<string, Packages.Package>, p: Packages.Package, q: Packages.Package)
    requires forall k :: k in table ==> Key(table[k]) == k
    requires p in table.Values && q in table.Values
    requires p.name == q.name && p.variant == q.variant && p.arch == q.arch
    requires p.version.major == q.version.major && p.version.minor == q.version.minor
    ensures p == q
  {
    var kp :| kp in table && table[kp] == p;
    var kq :| kq in table && table[kq] == q;
    SameKey(p, q);
  }

  /**
   * list: fetch each architecture's page (404 skips it), match every link,
   * and keep per key the package of greatest version. The Go map's values
   * come back in unspecified order: here, some order without repetition.
   */
  method List(archs: seq<string>, baseUrl: string, pkgName: string, listing: string -> Listing,
              matcher: string -> Option<ApkMatch>, admits: Option<Semver.Version -> bool>)
    returns (r: Result<seq<Packages.Package>, ListError>)
    ensures var all := AllCandidates(archs, baseUrl, pkgName, listing, matcher, admits);
      (r.Err? <==> all.Err?) &&
      (r.Err? ==> r.error == all.error) &&
      (r.Ok? ==> |r.value| == |InsertAll(map[], all.value).Keys| &&
                 (forall p :: p in r.value <==> p in InsertAll(map[], all.value).Values))
  {
    var table := ListTable(archs, baseUrl, pkgName, listing, matcher, admits);
    if table.Err? {
      return Err(table.error);
    }
    var values := Enumerate(table.value);
    return Ok(values);
  }

  /** The table list fills: the candidates of all pages inserted in order, or the first error. */
  function Listed(archs: seq<string>, baseUrl: string, pkgName: string, listing: string -> Listing,
                  matcher: string -> Option<ApkMatch>, admits: Option<Semver.Version -> bool>)
    : Result<map<string, Packages.Package>, ListError>
  {
    match AllCandidates(archs, baseUrl, pkgName, listing, matcher, admits)
    case Err(e) => Err(e)
    case Ok(cands) => Ok(InsertAll(map[], cands))
  }

  /** The loops of list over the architectures and their pages, filling the table in place. */
  method ListTable(archs: seq<string>, baseUrl: string, pkgName: string, listing: string -> Listing,
                   matcher: string -> Option<ApkMatch>, admits: Option<Semver.Version -> bool>)
    returns (r: Result<map<string, Packages.Package>, ListError>)
    ensures r == Listed(archs, baseUrl, pkgName, listing, matcher, admits)
  {
    var table: map<string, Packages.Package> := map[];
    ghost var cands: seq<Packages.Package> := [];
    for i := 0 to |archs|
      invariant AllCandidates(archs[..i], baseUrl, pkgName, listing, matcher, admits) == Ok(cands)
      invariant table == InsertAll(map[], cands)
    {
      AllSnoc(archs, i, baseUrl, pkgName, listing, matcher, admits);
      var arch := archs[i];
      var url := ArchUrl(baseUrl, arch);
      match listing(url)
      case NotFound =>
        assert cands + [] == cands;
      case Failed(reason) =>
        AllCandidatesPrefixError(archs, i + 1, baseUrl, pkgName, listing, matcher, admits);
        return Err(FetchFailed(url, reason));
      case Page(hrefs) =>
        var scanned := ScanPage(hrefs, pkgName, arch, url, matcher, admits, table);
        if scanned.Err? {
          AllCandidatesPrefixError(archs, i + 1, baseUrl, pkgName, listing, matcher, admits);
          return Err(scanned.error);
        }
        ghost var page := PageCandidates(hrefs, pkgName, arch, url, matcher, admits).value;
        InsertAllAppend(map[], cands, page);
        table := scanned.value;
        cands := cands + page;
    }
    assert archs[..|archs|] == archs;
    return Ok(table);
  }

  /** The process walk over one page: each matching link is inserted into the table in document order. */
  method ScanPage(hrefs: seq<string>, pkgName: string, arch: string, archUrl: string,
                  matcher: string -> Option<ApkMatch>, admits: Option<Semver.Version -> bool>,
                  table0: map<string, Packages.Package>)
    returns (r: Result<map<string, Packages.Package>, ListError>)
    ensures var page := PageCandidates(hrefs, pkgName, arch, archUrl, matcher, admits);
      (r.Err? <==> page.Err?) &&
      (r.Err? ==> r.error == page.error) &&
      (r.Ok? ==> r.value == InsertAll(table0, page.value))
  {
    var table := table0;
    ghost var page: seq<Packages.Package> := [];
    for j := 0 to |hrefs|
      invariant PageCandidates(hrefs[..j], pkgName, arch, archUrl, matcher, admits) == Ok(page)
      invariant table == InsertAll(table0, page)
    {
      PageSnoc(hrefs, j, pkgName, arch, archUrl, matcher, admits);
      var c := Candidate(hrefs[j], pkgName, arch, archUrl, matcher, admits);
      match c
      case Err(e) =>
        PageError(hrefs, j + 1, pkgName, arch, archUrl, matcher, admits);
        return Err(e);
      case Ok(None) =>
      case Ok(Some(p)) =>
        InsertAllSnoc(table0, page, p);
        table := Insert(table, p);
        page := page + [p];
    }
    assert hrefs[..|hrefs|] == hrefs;
    return Ok(table);
  }

  lemma InsertAllSnoc(table: map<string, Packages.Package>, ps: seq<Packages.Package>, p: Packages.Package)
    ensures InsertAll(table, ps + [p]) == Insert(InsertAll(table, ps), p)
  {
    assert (ps + [p])[..|ps|] == ps;
  }

  lemma {:induction false} InsertAllAppend(table: map<string, Packages.Package>, a: seq<Packages.Package>, b: seq<Packages.Package>)
    ensures InsertAll(table, a + b) == InsertAll(InsertAll(table, a), b)
  {
    if b != [] {
      assert (a + b)[..|a + b| - 1] == a + b[..|b| - 1];
      InsertAllAppend(table, a, b[..|b| - 1]);
    } else {
      assert a + b == a;
    }
  }

  /** A panic among the first n links is the outcome of the whole page. */
  lemma {:induction false} PageError(hrefs: seq<string>, n: nat, pkgName: string, arch: string, archUrl: string,
                                      matcher: string -> Option<ApkMatch>, admits: Option<Semver.Version -> bool>)
    requires n <= |hrefs|
    requires PageCandidates(hrefs[..n], pkgName, arch, archUrl, matcher, admits).Err?
    ensures PageCandidates(hrefs, pkgName, arch, archUrl, matcher, admits) ==
            PageCandidates(hrefs[..n], pkgName, arch, archUrl, matcher, admits)
  {
    if n < |hrefs| {
      var front := hrefs[..|hrefs| - 1];
      assert front[..n] == hrefs[..n];
      PageError(front, n, pkgName, arch, archUrl, matcher, admits);
    } else {
      assert hrefs[..n] == hrefs;
    }
  }

  /** An error on the first n architectures is the error of the whole listing. */
  lemma {:induction false} AllCandidatesPrefixError(archs: seq<string>, n: nat, baseUrl: string, pkgName: string,
                                                     listing: string -> Listing, matcher: string -> Option<ApkMatch>,
                                                     admits: Option<Semver.Version -> bool>)
    requires n <= |archs|
    requires AllCandidates(archs[..n], baseUrl, pkgName, listing, matcher, admits).Err?
    ensures AllCandidates(archs, baseUrl, pkgName, listing, matcher, admits) ==
            AllCandidates(archs[..n], baseUrl, pkgName, listing, matcher, admits)
  {
    if n < |archs| {
      var front := archs[..|archs| - 1];
      assert front[..n] == archs[..n];
      AllCandidatesPrefixError(front, n, baseUrl, pkgName, listing, matcher, admits);
    } else {
      assert archs[..n] == archs;
    }
  }

  /** maps.Values: the table's values in some order, each once. */
  method Enumerate(table: map<string, Packages.Package>) returns (values: seq<Packages.Package>)
    ensures |values| == |table.Keys|
    ensures forall p :: p in values <==> p in table.Values
  {
    values := [];
    var left := table.Keys;
    while left != {}
      invariant left <= table.Keys
      invariant |values| + |left| == |table.Keys|
      invariant forall p :: p in values <==> exists k :: k in table && k !in left && table[k] == p
      decreases |left|
    {
      var k :| k in left;
      values := values + [table[k]];
      left := left - {k};
    }
  }

  // ----- download and extract -----

  /** The archive file name: name-variant_version_arch.apk, or name_version_arch.apk without a variant. */
  function ArchiveName(p: Packages.Package): string
  {
    (if p.variant != "" then p.name + "-" + p.variant else p.name)
      + "_" + Semver.Format(p.version) + "_" + p.arch + ".apk"
  }

  /** Every archive download records ends in ".apk", so extract never skips it by suffix. */
  lemma ArchivesAreApk(tempDir: string, p: Packages.Package)
    ensures Strs.HasSuffix(Packages.Target(tempDir, ArchiveName, p), ".apk")
  {
    var name := ArchiveName(p);
    if tempDir == "" {
      assert Strs.NonEmpty([tempDir, name]) == Strs.NonEmpty([name]) by { assert [tempDir, name][1..] == [name]; }
      Strs.JoinOne(name);
    } else {
      Strs.JoinTwo(tempDir, name);
    }
  }

  /** What extract would decompress: the third gzip member of archive into dir. */
  datatype Job = Job(dir: string, archive: string, start: nat)

  datatype ExtractError =
    | OpenFailed(archive: string)
    | ReadFailed(archive: string)
    | TooFewHeaders(archive: string, count: nat)   // offsets[2] out of range: a panic in Go

  /**
   * extract for one package, with the corrected header scan. The target
   * directory counts as existing when it was there before the loop
   * (`dirExists`) or an earlier package unpacked into it (`made`).
   */
  function ExtractOne(info: Packages.Package, archive: string, outputDir: string, opens: string -> bool,
                      dirExists: string -> bool, made: set<string>, contents: string -> Option<seq<byte>>)
    : Result<Option<Job>, ExtractError>
  {
    if archive == "" || !Strs.HasSuffix(archive, ".apk") then Ok(None)
    else if !opens(archive) then Err(OpenFailed(archive))
    else
      var dir := Packages.TargetDir(outputDir, info);
      if dirExists(dir) || dir in made then Ok(None)
      else
        match contents(archive)
        case None => Err(ReadFailed(archive))
        case Some(b) =>
          var offsets := MagicOffsets(b, |b|);
          if |offsets| < 3 then Err(TooFewHeaders(archive, |offsets|))
          else Ok(Some(Job(dir, archive, offsets[2])))
  }

  /** The directories a list of jobs unpacks into. */
  function Dirs(jobs: seq<Job>): set<string>
  {
    set j | j in jobs :: j.dir
  }

  /** extract over the packages in order: the first error stops it. */
  function ExtractAll(downloads: seq<(Packages.Package, string)>, outputDir: string, opens: string -> bool,
                      dirExists: string -> bool, contents: string -> Option<seq<byte>>)
    : Result<seq<Job>, ExtractError>
  {
    if downloads == [] then Ok([])
    else
      var prefix := ExtractAll(downloads[..|downloads| - 1], outputDir, opens, dirExists, contents);
      var last := downloads[|downloads| - 1];
      if prefix.Err? then prefix
      else
        match ExtractOne(last.0, last.1, outputDir, opens, dirExists, Dirs(prefix.value), contents)
        case Err(e) => Err(e)
        case Ok(None) => prefix
        case Ok(Some(job)) => Ok(prefix.value + [job])
  }

  /**
   * The directories unpacked into before package i: those of the jobs of
   * the packages before it (none when those already failed).
   */
  function Made(downloads: seq<(Packages.Package, string)>, i: nat, outputDir: string, opens: string -> bool,
                dirExists: string -> bool, contents: string -> Option<seq<byte>>): set<string>
    requires i <= |downloads|
  {
    var prefix := ExtractAll(downloads[..i], outputDir, opens, dirExists, contents);
    if prefix.Ok? then Dirs(prefix.value) else {}
  }

  /** Package i's part of extract, against the directories that exist when its turn comes. */
  function StepAt(downloads: seq<(Packages.Package, string)>, i: nat, outputDir: string, opens: string -> bool,
                  dirExists: string -> bool, contents: string -> Option<seq<byte>>): Result<Option<Job>, ExtractError>
    requires i < |downloads|
  {
    ExtractOne(downloads[i].0, downloads[i].1, outputDir, opens, dirExists,
               Made(downloads, i, outputDir, opens, dirExists, contents), contents)
  }

  /** A job is what extract should do for one of the packages. */
  predicate Sound(job: Job, downloads: seq<(Packages.Package, string)>, outputDir: string, opens: string -> bool,
                  dirExists: string -> bool, contents: string -> Option<seq<byte>>)
  {
    (exists i :: 0 <= i < |downloads| && downloads[i].1 == job.archive &&
       job.dir == Packages.TargetDir(outputDir, downloads[i].0) &&
       job.dir !in Made(downloads, i, outputDir, opens, dirExists, contents)) &&
    Strs.HasSuffix(job.archive, ".apk") && !dirExists(job.dir) &&
    contents(job.archive).Some? &&
    job.start < |contents(job.archive).value| &&
    HasMagic(contents(job.archive).value[job.start..]) &&
    |MagicOffsets(contents(job.archive).value, job.start)| == 2
  }

  /** A successful extract is that of all but the last package followed by the last one's job, if any. */
  lemma ExtractAllLast(downloads: seq<(Packages.Package, string)>, outputDir: string, opens: string -> bool,
                       dirExists: string -> bool, contents: string -> Option<seq<byte>>)
    requires downloads != []
    requires ExtractAll(downloads, outputDir, opens, dirExists, contents).Ok?
    ensures var n := |downloads| - 1;
      var one := StepAt(downloads, n, outputDir, opens, dirExists, contents);
      ExtractAll(downloads[..n], outputDir, opens, dirExists, contents).Ok? && one.Ok? &&
      ExtractAll(downloads, outputDir, opens, dirExists, contents).value ==
        ExtractAll(downloads[..n], outputDir, opens, dirExists, contents).value +
        (if one.value.Some? then [one.value.value] else [])
  {
  }

  /** The job of the last package, if any, is sound. */
  lemma LastSound(downloads: seq<(Packages.Package, string)>, outputDir: string, opens: string -> bool,
                  dirExists: string -> bool, contents: string -> Option<seq<byte>>)
    requires downloads != []
    requires var one := StepAt(downloads, |downloads| - 1, outputDir, opens, dirExists, contents);
      one.Ok? && one.value.Some?
    ensures Sound(StepAt(downloads, |downloads| - 1, outputDir, opens, dirExists, contents).value.value,
                  downloads, outputDir, opens, dirExists, contents)
  {
    var last := downloads[|downloads| - 1];
    var job := StepAt(downloads, |downloads| - 1, outputDir, opens, dirExists, contents).value.value;
    var b := contents(last.1).value;
    MagicOffsetsExact(b, |b|);
    MagicOffsetsPrefix(b, |b|, 2);
    assert MagicOffsets(b, |b|)[..2] == [MagicOffsets(b, |b|)[0], MagicOffsets(b, |b|)[1]];
    assert job.start in MagicOffsets(b, |b|);
  }

  /**
   * Every job starts at a gzip header preceded by exactly two others, for an
   * .apk archive of one of the packages, in a directory that neither existed
   * before the loop nor was unpacked into by an earlier package.
   */
  lemma {:induction false} ExtractSound(downloads: seq<(Packages.Package, string)>, outputDir: string,
                                        opens: string -> bool, dirExists: string -> bool,
                                        contents: string -> Option<seq<byte>>)
    requires ExtractAll(downloads, outputDir, opens, dirExists, contents).Ok?
    ensures forall job :: job in ExtractAll(downloads, outputDir, opens, dirExists, contents).value ==>
      Sound(job, downloads, outputDir, opens, dirExists, contents)
  {
    if downloads != [] {
      var front := downloads[..|downloads| - 1];
      ExtractAllLast(downloads, outputDir, opens, dirExists, contents);
      ExtractSound(front, outputDir, opens, dirExists, contents);
      SoundExtends(ExtractAll(front, outputDir, opens, dirExists, contents).value, front, downloads,
                   outputDir, opens, dirExists, contents);
      if StepAt(downloads, |front|, outputDir, opens, dirExists, contents).value.Some? {
        LastSound(downloads, outputDir, opens, dirExists, contents);
      }
    }
  }

  /** What extract does for the packages before i does not depend on the packages after them. */
  lemma MadeExtends(front: seq<(Packages.Package, string)>, downloads: seq<(Packages.Package, string)>, i: nat,
                    outputDir: string, opens: string -> bool, dirExists: string -> bool,
                    contents: string -> Option<seq<byte>>)
    requires front <= downloads && i <= |front|
    ensures Made(front, i, outputDir, opens, dirExists, contents) == Made(downloads, i, outputDir, opens, dirExists, contents)
  {
    assert front[..i] == downloads[..i];
  }

  lemma SoundExtends(jobs: seq<Job>, front: seq<(Packages.Package, string)>, downloads: seq<(Packages.Package, string)>,
                     outputDir: string, opens: string -> bool, dirExists: string -> bool,
                     contents: string -> Option<seq<byte>>)
    requires front <= downloads
    requires forall j :: j in jobs ==> Sound(j, front, outputDir, opens, dirExists, contents)
    ensures forall j :: j in jobs ==> Sound(j, downloads, outputDir, opens, dirExists, contents)
  {
    forall j | j in jobs ensures Sound(j, downloads, outputDir, opens, dirExists, contents) {
      var i :| 0 <= i < |front| && front[i].1 == j.archive && j.dir == Packages.TargetDir(outputDir, front[i].0) &&
               j.dir !in Made(front, i, outputDir, opens, dirExists, contents);
      assert downloads[i] == front[i];
      MadeExtends(front, downloads, i, outputDir, opens, dirExists, contents);
    }
  }

  /**
   * No package is skipped silently: each .apk archive whose directory
   * neither existed before the loop nor was unpacked into by an earlier
   * package gets a job.
   */
  lemma {:induction false} ExtractComplete(downloads: seq<(Packages.Package, string)>, outputDir: string,
                                           opens: string -> bool, dirExists: string -> bool,
                                           contents: string -> Option<seq<byte>>, i: nat)
    requires i < |downloads|
    requires ExtractAll(downloads, outputDir, opens, dirExists, contents).Ok?
    requires Strs.HasSuffix(downloads[i].1, ".apk") && !dirExists(Packages.TargetDir(outputDir, downloads[i].0))
    requires Packages.TargetDir(outputDir, downloads[i].0) !in Made(downloads, i, outputDir, opens, dirExists, contents)
    ensures exists job :: (job in ExtractAll(downloads, outputDir, opens, dirExists, contents).value &&
      job.archive == downloads[i].1 && job.dir == Packages.TargetDir(outputDir, downloads[i].0))
  {
    var front := downloads[..|downloads| - 1];
    ExtractAllLast(downloads, outputDir, opens, dirExists, contents);
    var prefix := ExtractAll(front, outputDir, opens, dirExists, contents).value;
    if i < |front| {
      assert front[i] == downloads[i];
      MadeExtends(front, downloads, i, outputDir, opens, dirExists, contents);
      ExtractComplete(front, outputDir, opens, dirExists, contents, i);
      var job :| job in prefix && job.archive == downloads[i].1 && job.dir == Packages.TargetDir(outputDir, downloads[i].0);
      assert job in ExtractAll(downloads, outputDir, opens, dirExists, contents).value;
    } else {
      assert downloads[i].1 != "";
      var job := StepAt(downloads, i, outputDir, opens, dirExists, contents).value.value;
      assert job in ExtractAll(downloads, outputDir, opens, dirExists, contents).value;
    }
  }

  /** Extracting a longer run of packages only adds jobs after those of a shorter one. */
  lemma {:induction false} ExtractGrows(downloads: seq<(Packages.Package, string)>, m: nat, n: nat, outputDir: string,
                                        opens: string -> bool, dirExists: string -> bool,
                                        contents: string -> Option<seq<byte>>)
    requires m <= n <= |downloads|
    requires ExtractAll(downloads[..n], outputDir, opens, dirExists, contents).Ok?
    ensures ExtractAll(downloads[..m], outputDir, opens, dirExists, contents).Ok?
    ensures ExtractAll(downloads[..m], outputDir, opens, dirExists, contents).value <=
            ExtractAll(downloads[..n], outputDir, opens, dirExists, contents).value
  {
    if m < n {
      var d := downloads[..n];
      assert d[..n - 1] == downloads[..n - 1];
      ExtractAllLast(d, outputDir, opens, dirExists, contents);
      ExtractGrows(downloads, m, n - 1, outputDir, opens, dirExists, contents);
    }
  }

  /**
   * A directory is unpacked into by one package only: once package i has a
   * job for it, a later package k with the same directory gets none; at
   * most its archive fails to open, which extract checks first.
   */
  lemma UnpackedOnce(downloads: seq<(Packages.Package, string)>, i: nat, k: nat, outputDir: string,
                     opens: string -> bool, dirExists: string -> bool, contents: string -> Option<seq<byte>>)
    requires i < k < |downloads|
    requires ExtractAll(downloads, outputDir, opens, dirExists, contents).Ok?
    requires StepAt(downloads, i, outputDir, opens, dirExists, contents).Ok?
    requires StepAt(downloads, i, outputDir, opens, dirExists, contents).value.Some?
    requires Packages.TargetDir(outputDir, downloads[i].0) == Packages.TargetDir(outputDir, downloads[k].0)
    ensures StepAt(downloads, k, outputDir, opens, dirExists, contents) in
            {Ok(None), Err(OpenFailed(downloads[k].1))}
  {
    assert downloads[..|downloads|] == downloads;
    ExtractGrows(downloads, k, |downloads|, outputDir, opens, dirExists, contents);
    ExtractGrows(downloads, i + 1, k, outputDir, opens, dirExists, contents);
    ExtractSnoc(downloads, i, outputDir, opens, dirExists, contents);
    var job := StepAt(downloads, i, outputDir, opens, dirExists, contents).value.value;
    var before := ExtractAll(downloads[..i + 1], outputDir, opens, dirExists, contents).value;
    var after := ExtractAll(downloads[..k], outputDir, opens, dirExists, contents).value;
    var dir := Packages.TargetDir(outputDir, downloads[i].0);
    assert job.dir == dir;
    assert job in before;
    assert before <= after;
    assert job in after;
    assert dir in Made(downloads, k, outputDir, opens, dirExists, contents);
  }

  /** The (package, archive) pairs extract reads. */
  function Downloads(packages: seq<Packages.Pkg>): (d: seq<(Packages.Package, string)>)
    reads set p | p in packages
    ensures |d| == |packages|
    ensures forall i :: 0 <= i < |packages| ==> d[i] == (packages[i].info, packages[i].downloadedArchive)
  {
    seq(|packages|, i requires 0 <= i < |packages| reads set p | p in packages => (packages[i].info, packages[i].downloadedArchive))
  }

  /**
   * extract: one job per package whose archive it would unpack, in order, or
   * the first error; `made` holds the directories unpacked into so far,
   * which os.Stat then finds.
   */
  method Extract(packages: seq<Packages.Pkg>, outputDir: string, opens: string -> bool,
                 dirExists: string -> bool, contents: string -> Option<seq<byte>>)
    returns (r: Result<seq<Job>, ExtractError>)
    ensures r == ExtractAll(Downloads(packages), outputDir, opens, dirExists, contents)
  {
    var downloads := Downloads(packages);
    var jobs: seq<Job> := [];
    var made: set<string> := {};
    for i := 0 to |packages|
      invariant ExtractAll(downloads[..i], outputDir, opens, dirExists, contents) == Ok(jobs)
      invariant made == Dirs(jobs)
    {
      var info := packages[i].info;
      var archive := packages[i].downloadedArchive;
      var one := ExtractPackage(info, archive, outputDir, opens, dirExists, made, contents);
      ExtractSnoc(downloads, i, outputDir, opens, dirExists, contents);
      match one
      case Err(e) =>
        ExtractPrefixError(downloads, i + 1, outputDir, opens, dirExists, contents);
        return Err(e);
      case Ok(None) =>
      case Ok(Some(job)) =>
        assert forall j :: j in jobs + [job] <==> j in jobs || j == job;
        jobs := jobs + [job];
        made := made + {job.dir};
    }
    assert downloads[..|packages|] == downloads;
    return Ok(jobs);
  }

  /** The body of extract's loop for one package, up to where decompression would start. */
  method ExtractPackage(info: Packages.Package, archive: string, outputDir: string, opens: string -> bool,
                        dirExists: string -> bool, made: set<string>, contents: string -> Option<seq<byte>>)
    returns (r: Result<Option<Job>, ExtractError>)
    ensures r == ExtractOne(info, archive, outputDir, opens, dirExists, made, contents)
  {
    if archive == "" || !Strs.HasSuffix(archive, ".apk") {
      return Ok(None);
    }
    if !opens(archive) {
      return Err(OpenFailed(archive));
    }
    var dir := Packages.TargetDir(outputDir, info);
    if dirExists(dir) || dir in made {
      return Ok(None);
    }
    if contents(archive).None? {
      return Err(ReadFailed(archive));
    }
    var b := contents(archive).value;
    var offsets := GzipOffsetsFixed(b);
    if |offsets| < 3 {
      return Err(TooFewHeaders(archive, |offsets|));
    }
    return Ok(Some(Job(dir, archive, offsets[2])));
  }

  lemma ExtractSnoc(downloads: seq<(Packages.Package, string)>, i: nat, outputDir: string, opens: string -> bool,
                    dirExists: string -> bool, contents: string -> Option<seq<byte>>)
    requires i < |downloads|
    ensures var prefix := ExtractAll(downloads[..i], outputDir, opens, dirExists, contents);
      var one := StepAt(downloads, i, outputDir, opens, dirExists, contents);
      ExtractAll(downloads[..i + 1], outputDir, opens, dirExists, contents) ==
        if prefix.Err? then prefix
        else if one.Err? then Err(one.error)
        else if one.value.None? then prefix
        else Ok(prefix.value + [one.value.value])
  {
    assert downloads[..i + 1][..i] == downloads[..i];
  }

  lemma {:induction false} ExtractPrefixError(downloads: seq<(Packages.Package, string)>, n: nat, outputDir: string,
                                               opens: string -> bool, dirExists: string -> bool,
                                               contents: string -> Option<seq<byte>>)
    requires n <= |downloads|
    requires ExtractAll(downloads[..n], outputDir, opens, dirExists, contents).Err?
    ensures ExtractAll(downloads, outputDir, opens, dirExists, contents) ==
            ExtractAll(downloads[..n], outputDir, opens, dirExists, contents)
  {
    if n < |downloads| {
      var front := downloads[..|downloads| - 1];
      assert front[..n] == downloads[..n];
      ExtractPrefixError(front, n, outputDir, opens, dirExists, contents);
    } else {
      assert downloads[..n] == downloads;
    }
  }
}
