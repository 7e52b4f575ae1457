/**
 * cmd/debdownload/debdownload.go: list every .deb of one name on a single
 * index page, download each archive and pick the ar members named
 * data.tar.xz to unpack.
 *
 * The HTTP fetch, HTML parsing, the package regular expression and the
 * version constraint are parameters; the ar reader is a parameter giving the
 * member names of an archive, and xz/tar decompression is not modelled.
 */
module DebDownload {
  import opened Wrappers
  import Strs
  import Semver
  import Packages

  /** What fetching the index page gives: a failure, or the page's links in document order. */
  datatype Listing = Failed(reason: string) | Page(hrefs: seq<string>)

  /** Submatches 1 to 4 of the pattern (name)(-.*)?_(.*)_(arch1|arch2|...)\.deb. */
  datatype DebMatch = DebMatch(name: string, variant: string, version: string, arch: string)

  datatype ListError =
    | FetchFailed(url: string, reason: string)   // a failure status or unparsable HTML
    | BadVersion(text: string)                   // semver.MustParse panics

  /** url.JoinPath of a base and one element, without escaping or cleaning. */
  function UrlJoin(base: string, elem: string): (u: string)
    ensures Strs.HasPrefix(u, base) && Strs.HasSuffix(u, elem)
  {
    if Strs.HasSuffix(base, "/") then base + elem else base + "/" + elem
  }

  /** What list makes of one link: nothing, a package, or the MustParse panic. */
  function Candidate(href: string, pkgUrl: string, matcher: string -> Option<DebMatch>,
                     admits: Option<Semver.Version -> bool>)
    : Result<Option<Packages.Package>, ListError>
  {
    match matcher(href)
    case None => Ok(None)
    case Some(m) =>
      match Semver.Parse(m.version)
      case None => Err(BadVersion(m.version))
      case Some(v) =>
        if admits.Some? && !admits.value(v) then Ok(None)
        else Ok(Some(Packages.Package(UrlJoin(pkgUrl, href), m.name, Strs.TrimPrefix(m.variant, "-"), v, m.arch)))
  }

  /**
   * A link gives a package exactly when it matches, its version parses and
   * the constraint admits it; the package carries captures 1 and 4, capture
   * 2 without its leading '-', and the link joined to the page URL. A
   * version that does not parse is a panic.
   */
  lemma CandidateShape(href: string, pkgUrl: string, matcher: string -> Option<DebMatch>,
                       admits: Option<Semver.Version -> bool>)
    ensures var r := Candidate(href, pkgUrl, matcher, admits);
      (r.Err? <==> matcher(href).Some? && Semver.Parse(matcher(href).value.version).None?) &&
      (r.Ok? && r.value.Some? <==>
         matcher(href).Some? && Semver.Parse(matcher(href).value.version).Some? &&
         (admits.None? || admits.value(Semver.Parse(matcher(href).value.version).value))) &&
      (r.Ok? && r.value.Some? ==>
         (var m := matcher(href).value;
          var p := r.value.value;
          p.link == UrlJoin(pkgUrl, href) && p.name == m.name && p.arch == m.arch &&
          Strs.TrimPrefix(m.variant, "-") == p.variant && Semver.Parse(m.version) == Some(p.version)))
  {
  }

  /** One link's worth of list: a panic stops it, a package is appended. */
  function Step(prefix: Result<seq<Packages.Package>, ListError>, c: Result<Option<Packages.Package>, ListError>)
    : Result<seq<Packages.Package>, ListError>
  {
    if prefix.Err? then prefix
    else
      match c
      case Err(e) => Err(e)
      case Ok(None) => prefix
      case Ok(Some(p)) => Ok(prefix.value + [p])
  }

  /** The packages of the links in document order, or the first panic. */
  function Candidates(hrefs: seq<string>, pkgUrl: string, matcher: string -> Option<DebMatch>,
                      admits: Option<Semver.Version -> bool>)
    : (r: Result<seq<Packages.Package>, ListError>)
    ensures r.Ok? ==> |r.value| <= |hrefs|
  {
    if hrefs == [] then Ok([])
    else Step(Candidates(hrefs[..|hrefs| - 1], pkgUrl, matcher, admits), Candidate(hrefs[|hrefs| - 1], pkgUrl, matcher, admits))
  }

  /**
   * No reordering and no dedup: the packages of two runs of links are those
   * of the first run followed by those of the second.
   */
  lemma {:induction false} CandidatesAppend(a: seq<string>, b: seq<string>, pkgUrl: string,
                                            matcher: string -> Option<DebMatch>, admits: Option<Semver.Version -> bool>)
    requires Candidates(a, pkgUrl, matcher, admits).Ok? && Candidates(b, pkgUrl, matcher, admits).Ok?
    ensures Candidates(a + b, pkgUrl, matcher, admits) ==
            Ok(Candidates(a, pkgUrl, matcher, admits).value + Candidates(b, pkgUrl, matcher, admits).value)
  {
    if b == [] {
      assert a + b == a;
      assert Candidates(a, pkgUrl, matcher, admits).value + [] == Candidates(a, pkgUrl, matcher, admits).value;
    } else {
      var front := b[..|b| - 1];
      var x := b[|b| - 1];
      var c := Candidate(x, pkgUrl, matcher, admits);
      assert Candidates(front, pkgUrl, matcher, admits).Ok? && c.Ok?;
      CandidatesAppend(a, front, pkgUrl, matcher, admits);
      CandidatesAppendOne(a + front, x, pkgUrl, matcher, admits);
      assert a + b == (a + front) + [x];
      var ca := Candidates(a, pkgUrl, matcher, admits).value;
      var cf := Candidates(front, pkgUrl, matcher, admits).value;
      StepAppend(ca, cf, c);
    }
  }

  lemma CandidatesAppendOne(hrefs: seq<string>, x: string, pkgUrl: string,
                            matcher: string -> Option<DebMatch>, admits: Option<Semver.Version -> bool>)
    ensures Candidates(hrefs + [x], pkgUrl, matcher, admits) ==
            Step(Candidates(hrefs, pkgUrl, matcher, admits), Candidate(x, pkgUrl, matcher, admits))
  {
    assert (hrefs + [x])[..|hrefs|] == hrefs;
  }

  lemma StepAppend(ca: seq<Packages.Package>, cf: seq<Packages.Package>, c: Result<Option<Packages.Package>, ListError>)
    requires c.Ok?
    ensures Step(Ok(ca + cf), c) == Ok(ca + Step(Ok(cf), c).value)
  {
    if c.value.Some? {
      assert ca + cf + [c.value.value] == ca + (cf + [c.value.value]);
    }
  }

  /** Every package comes from one of the links, with the captured name and architecture. */
  lemma {:induction false} CandidatesFromLinks(hrefs: seq<string>, pkgUrl: string, matcher: string -> Option<DebMatch>,
                                               admits: Option<Semver.Version -> bool>)
    requires Candidates(hrefs, pkgUrl, matcher, admits).Ok?
    ensures forall p :: p in Candidates(hrefs, pkgUrl, matcher, admits).value ==>
      exists h :: h in hrefs && matcher(h).Some? && p.link == UrlJoin(pkgUrl, h) &&
                  p.name == matcher(h).value.name && p.arch == matcher(h).value.arch
  {
    if hrefs != [] {
      var front := hrefs[..|hrefs| - 1];
      CandidatesFromLinks(front, pkgUrl, matcher, admits);
      forall p | p in Candidates(hrefs, pkgUrl, matcher, admits).value
        ensures exists h :: h in hrefs && matcher(h).Some? && p.link == UrlJoin(pkgUrl, h) &&
                  p.name == matcher(h).value.name && p.arch == matcher(h).value.arch
      {
        if p in Candidates(front, pkgUrl, matcher, admits).value {
          var h :| h in front && matcher(h).Some? && p.link == UrlJoin(pkgUrl, h) &&
                   p.name == matcher(h).value.name && p.arch == matcher(h).value.arch;
          assert h in hrefs;
        } else {
          assert hrefs[|hrefs| - 1] in hrefs;
        }
      }
    }
  }

  /** list: fetch the one index page and collect a package per matching link, in order. */
  method List(pkgUrl: string, listing: Listing, matcher: string -> Option<DebMatch>,
              admits: Option<Semver.Version -> bool>)
    returns (r: Result<seq<Packages.Package>, ListError>)
    ensures listing.Failed? ==> r == Err(FetchFailed(pkgUrl, listing.reason))
    ensures listing.Page? ==> r == Candidates(listing.hrefs, pkgUrl, matcher, admits)
  {
    if listing.Failed? {
      return Err(FetchFailed(pkgUrl, listing.reason));
    }
    r := Collect(listing.hrefs, pkgUrl, matcher, admits);
  }

  /** The process walk: append a package for each matching link, stopping at a panic. */
  method Collect(hrefs: seq<string>, pkgUrl: string, matcher: string -> Option<DebMatch>,
                 admits: Option<Semver.Version -> bool>)
    returns (r: Result<seq<Packages.Package>, ListError>)
    ensures r == Candidates(hrefs, pkgUrl, matcher, admits)
  {
    var packages: seq<Packages.Package> := [];
    for i := 0 to |hrefs|
      invariant Candidates(hrefs[..i], pkgUrl, matcher, admits) == Ok(packages)
    {
      CandidatesSnoc(hrefs, i, pkgUrl, matcher, admits);
      var c := Candidate(hrefs[i], pkgUrl, matcher, admits);
      match c
      case Err(e) =>
        CandidatesPrefixError(hrefs, i + 1, pkgUrl, matcher, admits);
        return Err(e);
      case Ok(None) =>
      case Ok(Some(p)) =>
        packages := packages + [p];
    }
    assert hrefs[..|hrefs|] == hrefs;
    return Ok(packages);
  }

  lemma CandidatesSnoc(hrefs: seq<string>, i: nat, pkgUrl: string, matcher: string -> Option<DebMatch>,
                       admits: Option<Semver.Version -> bool>)
    requires i < |hrefs|
    ensures Candidates(hrefs[..i + 1], pkgUrl, matcher, admits) ==
            Step(Candidates(hrefs[..i], pkgUrl, matcher, admits), Candidate(hrefs[i], pkgUrl, matcher, admits))
  {
    assert hrefs[..i + 1][..i] == hrefs[..i];
  }

  lemma {:induction false} CandidatesPrefixError(hrefs: seq<string>, n: nat, pkgUrl: string,
                                                 matcher: string -> Option<DebMatch>, admits: Option<Semver.Version -> bool>)
    requires n <= |hrefs|
    requires Candidates(hrefs[..n], pkgUrl, matcher, admits).Err?
    ensures Candidates(hrefs, pkgUrl, matcher, admits) == Candidates(hrefs[..n], pkgUrl, matcher, admits)
  {
    if n < |hrefs| {
      var front := hrefs[..|hrefs| - 1];
      assert front[..n] == hrefs[..n];
      CandidatesPrefixError(front, n, pkgUrl, matcher, admits);
    } else {
      assert hrefs[..n] == hrefs;
    }
  }

  // ----- download -----

  /** The archive file name: name-variant_maj.min.patch_arch.deb, or name_maj.min.patch_arch.deb. */
  function ArchiveName(p: Packages.Package): string
  {
    (if p.variant != "" then p.name + "-" + p.variant else p.name)
      + "_" + Packages.Triple(p.version) + "_" + p.arch + ".deb"
  }

  /** Every archive download records ends in ".deb", so extract never skips it by suffix. */
  lemma ArchivesAreDeb(tempDir: string, p: Packages.Package)
    ensures Strs.HasSuffix(Packages.Target(tempDir, ArchiveName, p), ".deb")
  {
    var name := ArchiveName(p);
    if tempDir == "" {
      assert Strs.NonEmpty([tempDir, name]) == Strs.NonEmpty([name]) by { assert [tempDir, name][1..] == [name]; }
      Strs.JoinOne(name);
    } else {
      Strs.JoinTwo(tempDir, name);
    }
  }

  /**
   * The file name ignores pre-release and build metadata: a pre-release and
   * the release of the same triple share one archive (SameTripleDownloadedOnce
   * shows the second of them reuses the first one's file).
   */
  lemma ArchiveNameIgnoresPrerelease(p: Packages.Package, q: Packages.Package)
    requires p.name == q.name && p.variant == q.variant && p.arch == q.arch
    requires p.version.major == q.version.major && p.version.minor == q.version.minor
    requires p.version.patch == q.version.patch
    ensures ArchiveName(p) == ArchiveName(q)
  {
  }

  /**
   * Two listed revisions of one triple (say 2.31-13+deb11u5 and
   * 2.31-13+deb11u6, both read as 2.31.0) share an archive path, so the
   * second finds the first one's file: download transfers at most the first
   * link and succeeds whether or not the second link could be fetched.
   */
  lemma SameTripleDownloadedOnce(p: Packages.Package, q: Packages.Package, tempDir: string,
                                 present: string -> bool, fetched: string -> bool)
    requires p.name == q.name && p.variant == q.variant && p.arch == q.arch
    requires p.version.major == q.version.major && p.version.minor == q.version.minor
    requires p.version.patch == q.version.patch
    requires present(Packages.Target(tempDir, ArchiveName, p)) || fetched(p.link)
    ensures Packages.FirstFailure([p, q], tempDir, ArchiveName, present, fetched) == 2
    ensures Packages.Transfers([p, q], tempDir, ArchiveName, present) ==
            if present(Packages.Target(tempDir, ArchiveName, p)) then [] else [p.link]
  {
    var infos := [p, q];
    ArchiveNameIgnoresPrerelease(p, q);
    Packages.LaterSameTargetReused(infos, 0, 1, tempDir, ArchiveName, present, fetched);
    assert !Packages.FailsAt(infos, 0, tempDir, ArchiveName, present, fetched) by {
      assert infos[..0] == [];
    }
    assert infos[..2] == infos;
    Packages.TransfersSnoc(infos, 0, tempDir, ArchiveName, present);
    assert infos[..0] == [];
  }

  // ----- extract -----

  const DataMember := "data.tar.xz"

  /** The positions of the members named data.tar.xz, in order. */
  function DataIndices(names: seq<string>): (idx: seq<nat>)
  {
    if names == [] then []
    else DataIndices(names[..|names| - 1]) + (if names[|names| - 1] == DataMember then [|names| - 1] else [])
  }

  /** DataIndices holds every data.tar.xz position and nothing else, ascending. */
  lemma {:induction false} DataIndicesExact(names: seq<string>)
    ensures forall k: nat :: k in DataIndices(names) <==> k < |names| && names[k] == DataMember
    ensures forall i, j :: 0 <= i < j < |DataIndices(names)| ==> DataIndices(names)[i] < DataIndices(names)[j]
  {
    if names != [] {
      var front := names[..|names| - 1];
      DataIndicesExact(front);
      assert forall k :: 0 <= k < |front| ==> front[k] == names[k];
      assert forall i :: 0 <= i < |DataIndices(front)| ==> DataIndices(front)[i] < |front| by {
        forall i | 0 <= i < |DataIndices(front)| ensures DataIndices(front)[i] < |front| {
          assert DataIndices(front)[i] in DataIndices(front);
        }
      }
    }
  }

  /** The member loop of extract: walk the ar members and take those named data.tar.xz. */
  method SelectMembers(names: seq<string>) returns (idx: seq<nat>)
    ensures idx == DataIndices(names)
  {
    idx := [];
    for k := 0 to |names|
      invariant idx == DataIndices(names[..k])
    {
      assert names[..k + 1][..k] == names[..k];
      if names[k] == DataMember {
        idx := idx + [k];
      }
    }
    assert names[..|names|] == names;
  }

  /** What extract would unpack: member number `member` of archive, into dir. */
  datatype Job = Job(dir: string, archive: string, member: nat)

  datatype ExtractError = OpenFailed(archive: string) | ReadFailed(archive: string)

  function JobsAt(dir: string, archive: string, idx: seq<nat>): (jobs: seq<Job>)
    ensures |jobs| == |idx|
    ensures forall i :: 0 <= i < |idx| ==> jobs[i] == Job(dir, archive, idx[i])
  {
    seq(|idx|, i requires 0 <= i < |idx| => Job(dir, archive, idx[i]))
  }

  /**
   * extract for one package: `members` gives an archive's member names, or
   * None on a read error. The target directory counts as existing when it
   * was there before the loop (`dirExists`) or an earlier package unpacked
   * into it (`made`).
   */
  function ExtractOne(info: Packages.Package, archive: string, outputDir: string, opens: string -> bool,
                      dirExists: string -> bool, made: set<string>, members: string -> Option<seq<string>>)
    : Result<seq<Job>, ExtractError>
  {
    if archive == "" || !Strs.HasSuffix(archive, ".deb") then Ok([])
    else if !opens(archive) then Err(OpenFailed(archive))
    else
      var dir := Packages.TargetDir(outputDir, info);
      if dirExists(dir) || dir in made then Ok([])
      else
        match members(archive)
        case None => Err(ReadFailed(archive))
        case Some(names) => Ok(JobsAt(dir, archive, DataIndices(names)))
  }

  /** The directories a list of jobs unpacks into. */
  function Dirs(jobs: seq<Job>): set<string>
  {
    set j | j in jobs :: j.dir
  }

  lemma DirsAppend(a: seq<Job>, b: seq<Job>)
    ensures Dirs(a + b) == Dirs(a) + Dirs(b)
  {
    assert forall j :: j in a + b <==> j in a || j in b;
  }

  /** extract over the packages in order: the first error stops it. */
  function ExtractAll(downloads: seq<(Packages.Package, string)>, outputDir: string, opens: string -> bool,
                      dirExists: string -> bool, members: string -> Option<seq<string>>)
    : Result<seq<Job>, ExtractError>
  {
    if downloads == [] then Ok([])
    else
      var prefix := ExtractAll(downloads[..|downloads| - 1], outputDir, opens, dirExists, members);
      var last := downloads[|downloads| - 1];
      if prefix.Err? then prefix
      else
        match ExtractOne(last.0, last.1, outputDir, opens, dirExists, Dirs(prefix.value), members)
        case Err(e) => Err(e)
        case Ok(jobs) => Ok(prefix.value + jobs)
  }

  /**
   * The directories unpacked into before package i: those of the jobs of
   * the packages before it (none when those already failed).
   */
  function Made(downloads: seq<(Packages.Package, string)>, i: nat, outputDir: string, opens: string -> bool,
                dirExists: string -> bool, members: string -> Option<seq<string>>): set<string>
    requires i <= |downloads|
  {
    var prefix := ExtractAll(downloads[..i], outputDir, opens, dirExists, members);
    if prefix.Ok? then Dirs(prefix.value) else {}
  }

  /** Package i's part of extract, against the directories that exist when its turn comes. */
  function StepAt(downloads: seq<(Packages.Package, string)>, i: nat, outputDir: string, opens: string -> bool,
                  dirExists: string -> bool, members: string -> Option<seq<string>>): Result<seq<Job>, ExtractError>
    requires i < |downloads|
  {
    ExtractOne(downloads[i].0, downloads[i].1, outputDir, opens, dirExists,
               Made(downloads, i, outputDir, opens, dirExists, members), members)
  }

  /** A job is what extract should do for one of the packages. */
  predicate Sound(job: Job, downloads: seq<(Packages.Package, string)>, outputDir: string, opens: string -> bool,
                  dirExists: string -> bool, members: string -> Option<seq<string>>)
  {
    (exists i :: 0 <= i < |downloads| && downloads[i].1 == job.archive &&
       job.dir == Packages.TargetDir(outputDir, downloads[i].0) &&
       job.dir !in Made(downloads, i, outputDir, opens, dirExists, members)) &&
    Strs.HasSuffix(job.archive, ".deb") && !dirExists(job.dir) &&
    members(job.archive).Some? &&
    job.member < |members(job.archive).value| &&
    members(job.archive).value[job.member] == DataMember
  }

  /**
   * Every job unpacks a data.tar.xz member of a .deb archive of one of the
   * packages into a directory that neither existed before the loop nor was
   * unpacked into by an earlier package.
   */
  lemma {:induction false} ExtractSound(downloads: seq<(Packages.Package, string)>, outputDir: string,
                                        opens: string -> bool, dirExists: string -> bool,
                                        members: string -> Option<seq<string>>)
    requires ExtractAll(downloads, outputDir, opens, dirExists, members).Ok?
    ensures forall job :: job in ExtractAll(downloads, outputDir, opens, dirExists, members).value ==>
      Sound(job, downloads, outputDir, opens, dirExists, members)
  {
    if downloads != [] {
      var front := downloads[..|downloads| - 1];
      ExtractAllLast(downloads, outputDir, opens, dirExists, members);
      ExtractSound(front, outputDir, opens, dirExists, members);
      SoundExtends(ExtractAll(front, outputDir, opens, dirExists, members).value, front, downloads,
                   outputDir, opens, dirExists, members);
      LastSound(downloads, outputDir, opens, dirExists, members);
    }
  }

  lemma LastSound(downloads: seq<(Packages.Package, string)>, outputDir: string, opens: string -> bool,
                  dirExists: string -> bool, members: string -> Option<seq<string>>)
    requires downloads != []
    requires StepAt(downloads, |downloads| - 1, outputDir, opens, dirExists, members).Ok?
    ensures forall job :: job in StepAt(downloads, |downloads| - 1, outputDir, opens, dirExists, members).value ==>
      Sound(job, downloads, outputDir, opens, dirExists, members)
  {
    var (info, archive) := downloads[|downloads| - 1];
    var jobs := StepAt(downloads, |downloads| - 1, outputDir, opens, dirExists, members).value;
    if jobs != [] {
      var names := members(archive).value;
      DataIndicesExact(names);
      forall job | job in jobs ensures Sound(job, downloads, outputDir, opens, dirExists, members) {
        var i :| 0 <= i < |jobs| && jobs[i] == job;
        assert DataIndices(names)[i] in DataIndices(names);
      }
    }
  }

  /** What extract does for the packages before i does not depend on the packages after them. */
  lemma MadeExtends(front: seq<(Packages.Package, string)>, downloads: seq<(Packages.Package, string)>, i: nat,
                    outputDir: string, opens: string -> bool, dirExists: string -> bool,
                    members: string -> Option<seq<string>>)
    requires front <= downloads && i <= |front|
    ensures Made(front, i, outputDir, opens, dirExists, members) == Made(downloads, i, outputDir, opens, dirExists, members)
  {
    assert front[..i] == downloads[..i];
  }

  lemma SoundExtends(jobs: seq<Job>, front: seq<(Packages.Package, string)>, downloads: seq<(Packages.Package, string)>,
                     outputDir: string, opens: string -> bool, dirExists: string -> bool,
                     members: string -> Option<seq<string>>)
    requires front <= downloads
    requires forall j :: j in jobs ==> Sound(j, front, outputDir, opens, dirExists, members)
    ensures forall j :: j in jobs ==> Sound(j, downloads, outputDir, opens, dirExists, members)
  {
    forall j | j in jobs ensures Sound(j, downloads, outputDir, opens, dirExists, members) {
      var i :| 0 <= i < |front| && front[i].1 == j.archive && j.dir == Packages.TargetDir(outputDir, front[i].0) &&
               j.dir !in Made(front, i, outputDir, opens, dirExists, members);
      assert downloads[i] == front[i];
      MadeExtends(front, downloads, i, outputDir, opens, dirExists, members);
    }
  }

  /** A successful extract is that of all but the last package followed by the last one's jobs. */
  lemma ExtractAllLast(downloads: seq<(Packages.Package, string)>, outputDir: string, opens: string -> bool,
                       dirExists: string -> bool, members: string -> Option<seq<string>>)
    requires downloads != []
    requires ExtractAll(downloads, outputDir, opens, dirExists, members).Ok?
    ensures var n := |downloads| - 1;
      ExtractAll(downloads[..n], outputDir, opens, dirExists, members).Ok? &&
      StepAt(downloads, n, outputDir, opens, dirExists, members).Ok? &&
      ExtractAll(downloads, outputDir, opens, dirExists, members).value ==
        ExtractAll(downloads[..n], outputDir, opens, dirExists, members).value +
        StepAt(downloads, n, outputDir, opens, dirExists, members).value
  {
  }

  lemma ExtractOneJobs(info: Packages.Package, archive: string, outputDir: string, opens: string -> bool,
                       dirExists: string -> bool, made: set<string>, members: string -> Option<seq<string>>)
    requires ExtractOne(info, archive, outputDir, opens, dirExists, made, members).Ok?
    requires Strs.HasSuffix(archive, ".deb")
    requires !dirExists(Packages.TargetDir(outputDir, info)) && Packages.TargetDir(outputDir, info) !in made
    requires members(archive).Some?
    ensures ExtractOne(info, archive, outputDir, opens, dirExists, made, members).value ==
            JobsAt(Packages.TargetDir(outputDir, info), archive, DataIndices(members(archive).value))
  {
    assert archive != "";
  }

  /**
   * Only data.tar.xz is unpacked, and every such member of a package is,
   * when its directory neither existed before the loop nor was unpacked
   * into by an earlier package.
   */
  lemma {:induction false} ExtractComplete(downloads: seq<(Packages.Package, string)>, outputDir: string,
                                           opens: string -> bool, dirExists: string -> bool,
                                           members: string -> Option<seq<string>>, i: nat, k: nat)
    requires i < |downloads|
    requires ExtractAll(downloads, outputDir, opens, dirExists, members).Ok?
    requires Strs.HasSuffix(downloads[i].1, ".deb") && !dirExists(Packages.TargetDir(outputDir, downloads[i].0))
    requires Packages.TargetDir(outputDir, downloads[i].0) !in Made(downloads, i, outputDir, opens, dirExists, members)
    requires members(downloads[i].1).Some? && k < |members(downloads[i].1).value|
    requires members(downloads[i].1).value[k] == DataMember
    ensures Job(Packages.TargetDir(outputDir, downloads[i].0), downloads[i].1, k)
            in ExtractAll(downloads, outputDir, opens, dirExists, members).value
  {
    var front := downloads[..|downloads| - 1];
    ExtractAllLast(downloads, outputDir, opens, dirExists, members);
    var job := Job(Packages.TargetDir(outputDir, downloads[i].0), downloads[i].1, k);
    if i < |front| {
      assert front[i] == downloads[i];
      MadeExtends(front, downloads, i, outputDir, opens, dirExists, members);
      assert ExtractAll(front, outputDir, opens, dirExists, members).Ok?;
      assert Packages.TargetDir(outputDir, front[i].0) !in Made(front, i, outputDir, opens, dirExists, members);
      ExtractComplete(front, outputDir, opens, dirExists, members, i, k);
      InFront(ExtractAll(front, outputDir, opens, dirExists, members).value,
              StepAt(downloads, |downloads| - 1, outputDir, opens, dirExists, members).value, job);
    } else {
      StepComplete(downloads, i, outputDir, opens, dirExists, members, k);
      InLast(ExtractAll(front, outputDir, opens, dirExists, members).value,
             StepAt(downloads, i, outputDir, opens, dirExists, members).value, job);
    }
  }

  /** Package i's own step holds a job for each of its data.tar.xz members when its directory is free. */
  lemma StepComplete(downloads: seq<(Packages.Package, string)>, i: nat, outputDir: string, opens: string -> bool,
                     dirExists: string -> bool, members: string -> Option<seq<string>>, k: nat)
    requires i < |downloads|
    requires StepAt(downloads, i, outputDir, opens, dirExists, members).Ok?
    requires Strs.HasSuffix(downloads[i].1, ".deb") && !dirExists(Packages.TargetDir(outputDir, downloads[i].0))
    requires Packages.TargetDir(outputDir, downloads[i].0) !in Made(downloads, i, outputDir, opens, dirExists, members)
    requires members(downloads[i].1).Some? && k < |members(downloads[i].1).value|
    requires members(downloads[i].1).value[k] == DataMember
    ensures Job(Packages.TargetDir(outputDir, downloads[i].0), downloads[i].1, k)
            in StepAt(downloads, i, outputDir, opens, dirExists, members).value
  {
    var (info, archive) := downloads[i];
    LastComplete(info, archive, outputDir, opens, dirExists, Made(downloads, i, outputDir, opens, dirExists, members),
                 members, k);
  }

  lemma InFront(a: seq<Job>, b: seq<Job>, j: Job)
    requires j in a
    ensures j in a + b
  {
  }

  lemma InLast(a: seq<Job>, b: seq<Job>, j: Job)
    requires j in b
    ensures j in a + b
  {
  }

  lemma LastComplete(info: Packages.Package, archive: string, outputDir: string, opens: string -> bool,
                     dirExists: string -> bool, made: set<string>, members: string -> Option<seq<string>>, k: nat)
    requires ExtractOne(info, archive, outputDir, opens, dirExists, made, members).Ok?
    requires Strs.HasSuffix(archive, ".deb")
    requires !dirExists(Packages.TargetDir(outputDir, info)) && Packages.TargetDir(outputDir, info) !in made
    requires members(archive).Some? && k < |members(archive).value|
    requires members(archive).value[k] == DataMember
    ensures Job(Packages.TargetDir(outputDir, info), archive, k)
            in ExtractOne(info, archive, outputDir, opens, dirExists, made, members).value
  {
    var names := members(archive).value;
    DataIndicesExact(names);
    var idx := DataIndices(names);
    var j :| 0 <= j < |idx| && idx[j] == k;
    ExtractOneJobs(info, archive, outputDir, opens, dirExists, made, members);
    assert ExtractOne(info, archive, outputDir, opens, dirExists, made, members).value[j] ==
           Job(Packages.TargetDir(outputDir, info), archive, k);
  }

  /** Extracting a longer run of packages only adds jobs after those of a shorter one. */
  lemma {:induction false} ExtractGrows(downloads: seq<(Packages.Package, string)>, m: nat, n: nat, outputDir: string,
                                        opens: string -> bool, dirExists: string -> bool,
                                        members: string -> Option<seq<string>>)
    requires m <= n <= |downloads|
    requires ExtractAll(downloads[..n], outputDir, opens, dirExists, members).Ok?
    ensures ExtractAll(downloads[..m], outputDir, opens, dirExists, members).Ok?
    ensures ExtractAll(downloads[..m], outputDir, opens, dirExists, members).value <=
            ExtractAll(downloads[..n], outputDir, opens, dirExists, members).value
  {
    if m < n {
      var d := downloads[..n];
      assert d[..n - 1] == downloads[..n - 1];
      ExtractAllLast(d, outputDir, opens, dirExists, members);
      ExtractGrows(downloads, m, n - 1, outputDir, opens, dirExists, members);
    }
  }

  /**
   * A directory is unpacked into by one package only: once package i has
   * unpacked into it, a later package k with the same directory (another
   * revision of the same triple, say) gets no job; at most its archive
   * fails to open, which extract checks first.
   */
  lemma UnpackedOnce(downloads: seq<(Packages.Package, string)>, i: nat, k: nat, outputDir: string,
                     opens: string -> bool, dirExists: string -> bool, members: string -> Option<seq<string>>)
    requires i < k < |downloads|
    requires ExtractAll(downloads, outputDir, opens, dirExists, members).Ok?
    requires StepAt(downloads, i, outputDir, opens, dirExists, members).Ok?
    requires StepAt(downloads, i, outputDir, opens, dirExists, members).value != []
    requires Packages.TargetDir(outputDir, downloads[i].0) == Packages.TargetDir(outputDir, downloads[k].0)
    ensures StepAt(downloads, k, outputDir, opens, dirExists, members) in
            {Ok([]), Err(OpenFailed(downloads[k].1))}
  {
    assert downloads[..|downloads|] == downloads;
    ExtractGrows(downloads, k, |downloads|, outputDir, opens, dirExists, members);
    ExtractGrows(downloads, i + 1, k, outputDir, opens, dirExists, members);
    ExtractSnoc(downloads, i, outputDir, opens, dirExists, members);
    var jobs := StepAt(downloads, i, outputDir, opens, dirExists, members).value;
    var before := ExtractAll(downloads[..i + 1], outputDir, opens, dirExists, members).value;
    var after := ExtractAll(downloads[..k], outputDir, opens, dirExists, members).value;
    var dir := Packages.TargetDir(outputDir, downloads[i].0);
    assert jobs[0].dir == dir by {
      var (info, archive) := downloads[i];
      assert archive != "" && members(archive).Some?;
    }
    assert jobs[0] in before;
    assert before <= after;
    assert jobs[0] in after;
    assert dir in Made(downloads, k, outputDir, opens, dirExists, members);
  }

  /** The (package, archive) pairs extract reads. */
  function Downloads(packages: seq<Packages.Pkg>): (d: seq<(Packages.Package, string)>)
    reads set p | p in packages
    ensures |d| == |packages|
    ensures forall i :: 0 <= i < |packages| ==> d[i] == (packages[i].info, packages[i].downloadedArchive)
  {
    seq(|packages|, i requires 0 <= i < |packages| reads set p | p in packages =>
      (packages[i].info, packages[i].downloadedArchive))
  }

  /**
   * extract: the unpack jobs of all packages, in order, or the first error;
   * `made` holds the directories unpacked into so far, which os.Stat then
   * finds.
   */
  method Extract(packages: seq<Packages.Pkg>, outputDir: string, opens: string -> bool,
                 dirExists: string -> bool, members: string -> Option<seq<string>>)
    returns (r: Result<seq<Job>, ExtractError>)
    ensures r == ExtractAll(Downloads(packages), outputDir, opens, dirExists, members)
  {
    var downloads := Downloads(packages);
    var jobs: seq<Job> := [];
    var made: set<string> := {};
    for i := 0 to |packages|
      invariant ExtractAll(downloads[..i], outputDir, opens, dirExists, members) == Ok(jobs)
      invariant made == Dirs(jobs)
    {
      var info := packages[i].info;
      var archive := packages[i].downloadedArchive;
      assert downloads[i] == (info, archive);
      ExtractSnoc(downloads, i, outputDir, opens, dirExists, members);
      var one := ExtractPackage(info, archive, outputDir, opens, dirExists, made, members);
      if one.Err? {
        ExtractPrefixError(downloads, i + 1, outputDir, opens, dirExists, members);
        return Err(one.error);
      }
      DirsAppend(jobs, one.value);
      jobs := jobs + one.value;
      made := made + Dirs(one.value);
    }
    assert downloads[..|packages|] == downloads;
    return Ok(jobs);
  }

  /** extract's loop body for one package. */
  method ExtractPackage(info: Packages.Package, archive: string, outputDir: string, opens: string -> bool,
                        dirExists: string -> bool, made: set<string>, members: string -> Option<seq<string>>)
    returns (r: Result<seq<Job>, ExtractError>)
    ensures r == ExtractOne(info, archive, outputDir, opens, dirExists, made, members)
  {
    if archive == "" || !Strs.HasSuffix(archive, ".deb") {
      return Ok([]);
    }
    if !opens(archive) {
      return Err(OpenFailed(archive));
    }
    var dir := Packages.TargetDir(outputDir, info);
    if dirExists(dir) || dir in made {
      return Ok([]);
    }
    if members(archive).None? {
      return Err(ReadFailed(archive));
    }
    var idx := SelectMembers(members(archive).value);
    return Ok(JobsAt(dir, archive, idx));
  }

  lemma ExtractSnoc(downloads: seq<(Packages.Package, string)>, i: nat, outputDir: string, opens: string -> bool,
                    dirExists: string -> bool, members: string -> Option<seq<string>>)
    requires i < |downloads|
    ensures var prefix := ExtractAll(downloads[..i], outputDir, opens, dirExists, members);
      var one := StepAt(downloads, i, outputDir, opens, dirExists, members);
      ExtractAll(downloads[..i + 1], outputDir, opens, dirExists, members) ==
        if prefix.Err? then prefix
        else if one.Err? then Err(one.error)
        else Ok(prefix.value + one.value)
  {
    assert downloads[..i + 1][..i] == downloads[..i];
  }

  lemma {:induction false} ExtractPrefixError(downloads: seq<(Packages.Package, string)>, n: nat, outputDir: string,
                                               opens: string -> bool, dirExists: string -> bool,
                                               members: string -> Option<seq<string>>)
    requires n <= |downloads|
    requires ExtractAll(downloads[..n], outputDir, opens, dirExists, members).Err?
    ensures ExtractAll(downloads, outputDir, opens, dirExists, members) ==
            ExtractAll(downloads[..n], outputDir, opens, dirExists, members)
  {
    if n < |downloads| {
      var front := downloads[..|downloads| - 1];
      assert front[..n] == downloads[..n];
      ExtractPrefixError(front, n, outputDir, opens, dirExists, members);
    } else {
      assert downloads[..n] == downloads;
    }
  }
}
