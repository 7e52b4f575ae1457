/**
 * cmd/debuginfofind/debuginfofind.go: locating the separate debug-information
 * file of an executable, as described in "Debugging Information in Separate
 * Files" (section 18.3 of the GDB manual): the .gnu_debuglink section, the
 * candidate paths in their fixed order, and the acceptance rule. The file
 * system (os.Stat, reading a file), filepath.Rel and CRC-32 are parameters.
 */
module DebugInfoFind {
  import opened Wrappers
  import Strs

  type byte = Strs.byte

  const TwoTo32: nat := 0x1_0000_0000

  // ----- the .gnu_debuglink section -----

  /** The byte order named in the ELF file header. */
  datatype ByteOrder = LittleEndian | BigEndian

  /** binary.ByteOrder.Uint32. */
  function Uint32(order: ByteOrder, b: seq<byte>): (n: nat)
    requires |b| == 4
    ensures n < TwoTo32
  {
    match order
    case LittleEndian => b[0] as int + 0x100 * b[1] as int + 0x1_0000 * b[2] as int + 0x100_0000 * b[3] as int
    case BigEndian => b[3] as int + 0x100 * b[2] as int + 0x1_0000 * b[1] as int + 0x100_0000 * b[0] as int
  }

  /** The four bytes that store n in the given order: the inverse of Uint32. */
  function PutUint32(order: ByteOrder, n: nat): (b: seq<byte>)
    requires n < TwoTo32
    ensures |b| == 4
  {
    var q1 := n / 0x100;
    var q2 := q1 / 0x100;
    var q3 := q2 / 0x100;
    var le := [n % 0x100, q1 % 0x100, q2 % 0x100, q3];
    match order
    case LittleEndian => le
    case BigEndian => [le[3], le[2], le[1], le[0]]
  }

  lemma Uint32OfPut(order: ByteOrder, n: nat)
    requires n < TwoTo32
    ensures Uint32(order, PutUint32(order, n)) == n
  {
    var q1 := n / 0x100;
    var q2 := q1 / 0x100;
    var q3 := q2 / 0x100;
    assert n == n % 0x100 + 0x100 * q1;
    assert q1 == q1 % 0x100 + 0x100 * q2;
    assert q2 == q2 % 0x100 + 0x100 * q3;
  }

  /** What readDebuglink returns: the file name and its CRC-32. */
  datatype Debuglink = Debuglink(name: seq<byte>, crc: nat)

  datatype LinkError = SectionNotFound | DataFailed(reason: string) | InvalidChecksumLength | InvalidChecksum

  /**
   * readDebuglink as written. `section` is the .gnu_debuglink section: None
   * when the file has none, Err when its contents cannot be read. The name is
   * the bytes before the first zero; the checksum is the piece after the LAST
   * zero byte, which must be four bytes long and non-zero.
   */
  /** The last piece of bytes.Split(d, {0}): the bytes after the last zero byte (all of d when it has none). */
  function LastPiece(d: seq<byte>): seq<byte>
  {
    var parts := Strs.Split(d, 0);
    parts[|parts| - 1]
  }

  function ReadDebuglink(section: Option<Result<seq<byte>, string>>, order: ByteOrder): (r: Result<Debuglink, LinkError>)
    ensures section.None? <==> r == Err(SectionNotFound)
    ensures section.Some? && section.value.Err? ==> r == Err(DataFailed(section.value.error))
    ensures section.Some? && section.value.Ok? ==>
      (r == Err(InvalidChecksumLength) <==> |LastPiece(section.value.value)| != 4) &&
      (r == Err(InvalidChecksum) <==> |LastPiece(section.value.value)| == 4 && Uint32(order, LastPiece(section.value.value)) == 0)
    ensures r.Ok? ==> section.Some? && section.value.Ok? && 0 !in r.value.name && Strs.HasPrefix(section.value.value, r.value.name)
    ensures r.Ok? ==>
      section.Some? && section.value.Ok? &&
      (|r.value.name| == |section.value.value| || section.value.value[|r.value.name|] == 0)
    ensures r.Ok? ==>
      section.Some? && section.value.Ok? && |LastPiece(section.value.value)| == 4 &&
      r.value.crc == Uint32(order, LastPiece(section.value.value)) && 0 < r.value.crc < TwoTo32
  {
    match section
    case None => Err(SectionNotFound)
    case Some(Err(e)) => Err(DataFailed(e))
    case Some(Ok(d)) =>
      var sum := LastPiece(d);
      if |sum| != 4 then Err(InvalidChecksumLength)
      else
        var crc := Uint32(order, sum);
        if crc == 0 then Err(InvalidChecksum)
        else
          SplitPrefix(d);
          Strs.SplitFirstStops(d, 0);
          Ok(Debuglink(Strs.Split(d, 0)[0], crc))
  }

  /** The first piece of a split is a zero-free prefix of the input. */
  lemma SplitPrefix(d: seq<byte>)
    ensures 0 !in Strs.Split(d, 0)[0] && Strs.HasPrefix(d, Strs.Split(d, 0)[0])
  {
    Strs.SplitJoin(d, 0);
    var parts := Strs.Split(d, 0);
    if |parts| > 1 {
      assert d == parts[0] + [0] + Strs.JoinWith(parts[1..], 0);
    }
  }

  /** Zero to three bytes of padding up to the next four-byte boundary. */
  function Padding(n: nat): (z: seq<byte>)
    ensures (n + |z|) % 4 == 0 && |z| < 4
    ensures forall i :: 0 <= i < |z| ==> z[i] == 0
  {
    var k := (4 - n % 4) % 4;
    seq(k, i => 0)
  }

  /** The section a linker writes for a debug file `name` whose CRC-32 is crc. */
  function Section(name: seq<byte>, crc: nat, order: ByteOrder): seq<byte>
    requires crc < TwoTo32
  {
    name + [0] + Padding(|name| + 1) + PutUint32(order, crc)
  }

  /** With a checksum free of zero bytes, readDebuglink recovers name and checksum. */
  lemma ReadOfSection(name: seq<byte>, crc: nat, order: ByteOrder)
    requires 0 !in name && 0 < crc < TwoTo32 && 0 !in PutUint32(order, crc)
    ensures ReadDebuglink(Some(Ok(Section(name, crc, order))), order) == Ok(Debuglink(name, crc))
  {
    var d := Section(name, crc, order);
    var k := |d| - 4;
    assert d[k..] == PutUint32(order, crc);
    assert d[k - 1] == 0;
    Strs.SplitLast(d, 0, k);
    Strs.SplitFirst(d, 0, |name|);
    assert d[..|name|] == name;
    Uint32OfPut(order, crc);
  }

  /**
   * When one of the checksum's own bytes is zero, the piece after the last
   * zero is shorter than four bytes and readDebuglink fails.
   */
  lemma ZeroInChecksumRejected(name: seq<byte>, crc: nat, order: ByteOrder, j: nat)
    requires 0 !in name && 0 < crc < TwoTo32
    requires j < 4 && PutUint32(order, crc)[j] == 0 && 0 !in PutUint32(order, crc)[j + 1..]
    ensures ReadDebuglink(Some(Ok(Section(name, crc, order))), order) == Err(InvalidChecksumLength)
  {
    var d := Section(name, crc, order);
    var b := PutUint32(order, crc);
    var k := |d| - 4 + j + 1;
    assert d[|d| - 4..] == b;
    assert d[k..] == b[j + 1..];
    Strs.SplitLast(d, 0, k);
  }

  /** A concrete instance: "ls" with checksum 0x100, stored little-endian as 00 01 00 00. */
  lemma ChecksumWithZeroByte()
    ensures PutUint32(LittleEndian, 0x100) == [0, 1, 0, 0]
    ensures ReadDebuglink(Some(Ok(Section([108, 115], 0x100, LittleEndian))), LittleEndian) == Err(InvalidChecksumLength)
  {
    ZeroInChecksumRejected([108, 115], 0x100, LittleEndian, 3);
  }

  /**
   * The reading the section layout calls for: the name is the bytes before the
   * first zero, the checksum is the last four bytes, whatever their values.
   */
  function ReadDebuglinkFixed(section: Option<Result<seq<byte>, string>>, order: ByteOrder): (r: Result<Debuglink, LinkError>)
    ensures section.None? <==> r == Err(SectionNotFound)
    ensures r.Ok? ==> section.Some? && section.value.Ok? && 0 !in r.value.name && Strs.HasPrefix(section.value.value, r.value.name)
    ensures r.Ok? ==> 0 < r.value.crc < TwoTo32
  {
    match section
    case None => Err(SectionNotFound)
    case Some(Err(e)) => Err(DataFailed(e))
    case Some(Ok(d)) =>
      if |d| < 4 then Err(InvalidChecksumLength)
      else
        var crc := Uint32(order, d[|d| - 4..]);
        if crc == 0 then Err(InvalidChecksum)
        else
          SplitPrefix(d[..|d| - 4]);
          Ok(Debuglink(Strs.Split(d[..|d| - 4], 0)[0], crc))
  }

  /** The corrected reading recovers every name and every non-zero checksum. */
  lemma ReadFixedOfSection(name: seq<byte>, crc: nat, order: ByteOrder)
    requires 0 !in name && 0 < crc < TwoTo32
    ensures ReadDebuglinkFixed(Some(Ok(Section(name, crc, order))), order) == Ok(Debuglink(name, crc))
  {
    var d := Section(name, crc, order);
    var k := |d| - 4;
    assert d[k..] == PutUint32(order, crc);
    assert d[..k] == name + [0] + Padding(|name| + 1);
    Strs.SplitFirst(d[..k], 0, |name|);
    assert d[..k][..|name|] == name;
    Uint32OfPut(order, crc);
  }

  /** Go's string(b) on bytes: one character per byte. */
  function Chars(b: seq<byte>): (s: string)
    ensures |s| == |b|
  {
    seq(|b|, i requires 0 <= i < |b| => b[i] as char)
  }

  // ----- candidate paths -----

  const DebugExt: string := ".debug"

  /** The global debug directories. */
  const DebugDirs: seq<string> := [DebugRoot]

  const DebugRoot: string := "/usr/lib/debug"

  /** The name to look for: the link name, or the target's base name when it is empty. */
  function LinkName(path: string, filename: string): string
  {
    if filename == "" then Strs.Base(path) else filename
  }

  /** The extension kept by the debug file: the name's own, or ".debug" when it has none. */
  function DebugFileExt(name: string): string
  {
    if Strs.Ext(name) == "" then DebugExt else Strs.Ext(name)
  }

  /** dbgFilePath: the debug file beside the target. */
  function DebugFilePath(path: string, filename: string): string
  {
    var name := LinkName(path, filename);
    var ext := DebugFileExt(name);
    Strs.Join([Strs.Dir(path), Strs.TrimSuffix(name, ext)]) + ext
  }

  /** The name's stem and the chosen extension; an extensionless name gains ".debug". */
  lemma DebugFilePathShape(path: string, filename: string)
    ensures var name := LinkName(path, filename);
      var ext := DebugFileExt(name);
      Strs.HasSuffix(DebugFilePath(path, filename), ext) &&
      (Strs.Ext(name) == "" ==> ext == DebugExt && Strs.TrimSuffix(name, ext) == name) &&
      (Strs.Ext(name) != "" ==> Strs.TrimSuffix(name, ext) + ext == name)
  {
    var name := LinkName(path, filename);
    var ext := DebugFileExt(name);
    var p := DebugFilePath(path, filename);
    assert p[|p| - |ext|..] == ext;
    if Strs.Ext(name) == "" {
      assert ext == ".debug";
      if Strs.HasSuffix(name, ext) {
        assert name[|name| - 6..] == ".debug";
        ExtOfDotSuffix(name);
      }
    }
  }

  /** A name ending in ".debug" has an extension. */
  lemma ExtOfDotSuffix(name: string)
    requires Strs.HasSuffix(name, ".debug")
    ensures Strs.Ext(name) != ""
  {
    var n := |name|;
    assert name[n - 1] == 'g' && name[n - 6] == '.';
    ExtAfterDot(name, n - 6);
  }

  lemma {:induction false} ExtAfterDot(p: string, k: nat)
    requires k < |p| && p[k] == '.' && '/' !in p[k..]
    ensures Strs.Ext(p) != ""
    decreases |p|
  {
    if |p| - 1 != k {
      assert p[|p| - 1] in p[k..];
      assert p[..|p| - 1][k..] == p[k..|p| - 1];
      ExtAfterDot(p[..|p| - 1], k);
    }
  }

  /** The five candidates for one debug directory, in the order they are tried. */
  function Candidates(root: string, dir: string, buildID: string, path: string, dbgFilePath: string, rel: string): (c: seq<string>)
    requires |buildID| >= 2
    ensures |c| == 5
  {
    [ dbgFilePath,
      Strs.Join([Strs.Dir(path), DebugExt, Strs.Base(dbgFilePath)]),
      Strs.Join([root, dir, rel]),
      Strs.Join([root, dir, ".build-id", buildID[..2], buildID[2..]]) + DebugExt,
      Strs.Join([root, dir, buildID, "debuginfo"]) ]
  }

  /** The candidates generatePaths produces for the debug directories ds, in order. */
  function PathsFor(root: string, buildID: string, path: string, filename: string,
                    rel: (string, string) -> Option<string>, ds: seq<string>): (files: seq<string>)
    requires |buildID| >= 2
    ensures |files| == (if rel(root, DebugFilePath(path, filename)).Some? then 5 * |ds| else 0)
  {
    if ds == [] then []
    else
      var dbg := DebugFilePath(path, filename);
      PathsFor(root, buildID, path, filename, rel, ds[..|ds| - 1]) +
      match rel(root, dbg)
      case None => []
      case Some(r) => Candidates(root, ds[|ds| - 1], buildID, path, dbg, r)
  }

  /** One more directory appends its five candidates, or none when filepath.Rel fails. */
  lemma PathsForSnoc(root: string, buildID: string, path: string, filename: string,
                     rel: (string, string) -> Option<string>, ds: seq<string>, i: nat)
    requires |buildID| >= 2 && i < |ds|
    ensures var dbg := DebugFilePath(path, filename);
      PathsFor(root, buildID, path, filename, rel, ds[..i + 1]) ==
      PathsFor(root, buildID, path, filename, rel, ds[..i]) +
        match rel(root, dbg)
        case None => []
        case Some(r) => Candidates(root, ds[i], buildID, path, dbg, r)
  {
    assert ds[..i + 1][..i] == ds[..i];
  }

  /**
   * generatePaths: five candidates per debug directory, none for a directory
   * for which filepath.Rel fails. A build ID shorter than two characters
   * would make the slicing panic; find rejects those first.
   */
  method GeneratePaths(root: string, buildID: string, path: string, filename: string,
                       rel: (string, string) -> Option<string>, dirs: seq<string>) returns (files: seq<string>)
    requires |buildID| >= 2
    ensures files == PathsFor(root, buildID, path, filename, rel, dirs)
  {
    var name := if |filename| == 0 then Strs.Base(path) else filename;
    var ext := Strs.Ext(name);
    if ext == "" {
      ext := DebugExt;
    }
    var dbgFilePath := Strs.Join([Strs.Dir(path), Strs.TrimSuffix(name, ext)]) + ext;
    files := CandidatesOfDirs(root, buildID, path, filename, rel, dirs, dbgFilePath);
  }

  /** generatePaths' loop over the debug directories, with the debug file path already worked out. */
  method CandidatesOfDirs(root: string, buildID: string, path: string, filename: string,
                          rel: (string, string) -> Option<string>, dirs: seq<string>, dbgFilePath: string)
    returns (files: seq<string>)
    requires |buildID| >= 2 && dbgFilePath == DebugFilePath(path, filename)
    ensures files == PathsFor(root, buildID, path, filename, rel, dirs)
  {
    files := [];
    for i := 0 to |dirs|
      invariant files == PathsFor(root, buildID, path, filename, rel, dirs[..i])
    {
      PathsForSnoc(root, buildID, path, filename, rel, dirs, i);
      var r := rel(root, dbgFilePath);
      if r.None? {
        continue;
      }
      files := files + Candidates(root, dirs[i], buildID, path, dbgFilePath, r.value);
    }
    assert dirs[..|dirs|] == dirs;
  }

  /**
   * For the default debug directory the candidates are, in order: the debug
   * file beside the target, the same name under ".debug", the mirror under
   * root/usr/lib/debug, the build-ID file split after the first two
   * characters of the ID, and the debuginfo file of the build-ID directory.
   */
  lemma DefaultCandidates(root: string, buildID: string, path: string, filename: string, rel: (string, string) -> Option<string>)
    requires |buildID| >= 2
    ensures var files := PathsFor(root, buildID, path, filename, rel, DebugDirs);
      var dbg := DebugFilePath(path, filename);
      var base := Strs.Join([root, DebugRoot]);
      match rel(root, dbg)
      case None => files == []
      case Some(r) =>
        files[0] == dbg &&
        files[1] == Strs.Join([Strs.Dir(path), DebugExt, Strs.Base(dbg)]) &&
        files[2] == Strs.Join([root, DebugRoot, r]) &&
        files[3] == base + "/.build-id/" + buildID[..2] + (if |buildID| == 2 then "" else "/" + buildID[2..]) + DebugExt &&
        files[4] == base + "/" + buildID + "/debuginfo"
  {
    DefaultPaths(root, buildID, path, filename, rel);
    var dbg := DebugFilePath(path, filename);
    if rel(root, dbg).Some? {
      DefaultCandidatesOf(root, buildID, path, dbg, rel(root, dbg).value);
    }
  }

  /** With the single default directory, the candidates are those of that directory. */
  lemma DefaultPaths(root: string, buildID: string, path: string, filename: string, rel: (string, string) -> Option<string>)
    requires |buildID| >= 2
    ensures var dbg := DebugFilePath(path, filename);
      PathsFor(root, buildID, path, filename, rel, DebugDirs) ==
        match rel(root, dbg)
        case None => []
        case Some(r) => Candidates(root, DebugRoot, buildID, path, dbg, r)
  {
    PathsForSnoc(root, buildID, path, filename, rel, DebugDirs, 0);
    assert DebugDirs[..1] == DebugDirs;
    assert DebugDirs[..0] == [];
  }

  lemma DefaultCandidatesOf(root: string, buildID: string, path: string, dbg: string, r: string)
    requires |buildID| >= 2
    ensures var files := Candidates(root, DebugRoot, buildID, path, dbg, r);
      var base := Strs.Join([root, DebugRoot]);
      files[0] == dbg &&
      files[1] == Strs.Join([Strs.Dir(path), DebugExt, Strs.Base(dbg)]) &&
      files[2] == Strs.Join([root, DebugRoot, r]) &&
      files[3] == base + "/.build-id/" + buildID[..2] + (if |buildID| == 2 then "" else "/" + buildID[2..]) + DebugExt &&
      files[4] == base + "/" + buildID + "/debuginfo"
  {
    BuildIdCandidate(root, DebugRoot, buildID);
    DebuginfoCandidate(root, DebugRoot, buildID);
  }

  lemma BuildIdCandidate(root: string, dir: string, buildID: string)
    requires |buildID| >= 2 && dir != ""
    ensures Strs.Join([root, dir, ".build-id", buildID[..2], buildID[2..]]) ==
      Strs.Join([root, dir]) + "/.build-id/" + buildID[..2] + (if |buildID| == 2 then "" else "/" + buildID[2..])
  {
    var a := buildID[..2];
    var b := buildID[2..];
    assert [root, dir, ".build-id", a, b] == [root, dir] + [".build-id", a, b];
    assert Strs.NonEmpty([root, dir]) != [] by { Strs.NonEmptyAppend([root], [dir]); assert Strs.NonEmpty([dir]) == [dir] + Strs.NonEmpty([]); }
    assert Strs.NonEmpty([".build-id", a, b]) != [];
    Strs.JoinAppend([root, dir], [".build-id", a, b]);
    assert [".build-id", a, b] == [".build-id"] + [a, b];
    assert Strs.NonEmpty([a, b]) != [];
    Strs.JoinAppend([".build-id"], [a, b]);
    Strs.JoinOne(".build-id");
    if |buildID| == 2 {
      assert b == "";
      assert Strs.NonEmpty([a, b]) == [a] by {
        assert [a, b][1..] == [b];
        assert Strs.NonEmpty([b]) == Strs.NonEmpty([]) by { assert [b][1..] == []; }
      }
      assert Strs.JoinWith([a], '/') == a;
    } else {
      Strs.JoinTwo(a, b);
    }
  }

  lemma DebuginfoCandidate(root: string, dir: string, buildID: string)
    requires |buildID| >= 2 && dir != ""
    ensures Strs.Join([root, dir, buildID, "debuginfo"]) == Strs.Join([root, dir]) + "/" + buildID + "/debuginfo"
  {
    assert [root, dir, buildID, "debuginfo"] == [root, dir] + [buildID, "debuginfo"];
    assert Strs.NonEmpty([root, dir]) != [] by { Strs.NonEmptyAppend([root], [dir]); assert Strs.NonEmpty([dir]) == [dir] + Strs.NonEmpty([]); }
    assert Strs.NonEmpty([buildID, "debuginfo"]) != [];
    Strs.JoinAppend([root, dir], [buildID, "debuginfo"]);
    Strs.JoinTwo(buildID, "debuginfo");
  }

  // ----- the search -----

  /** The first candidate at or after k that exists. */
  function FirstExisting(files: seq<string>, present: string -> bool, k: nat): (r: Option<nat>)
    requires k <= |files|
    ensures r.Some? ==> (k <= r.value < |files| && present(files[r.value]) &&
      forall j :: k <= j < r.value ==> !present(files[j]))
    ensures r.None? ==> forall j :: k <= j < |files| ==> !present(files[j])
    decreases |files| - k
  {
    if k == |files| then None
    else if present(files[k]) then Some(k)
    else FirstExisting(files, present, k + 1)
  }

  /** The path of the first existing candidate. */
  function FirstFound(files: seq<string>, present: string -> bool): (r: Option<string>)
    ensures r.Some? ==> r.value in files && present(r.value)
    ensures r.None? ==> forall f :: f in files ==> !present(f)
  {
    match FirstExisting(files, present, 0)
    case None => None
    case Some(i) => Some(files[i])
  }

  /** The link name, or "" when readDebuglink failed. */
  function LinkBase(link: Result<Debuglink, LinkError>): string
  {
    if link.Ok? then Chars(link.value.name) else ""
  }

  /** The expected checksum, or 0 when readDebuglink failed. */
  function LinkCrc(link: Result<Debuglink, LinkError>): nat
  {
    if link.Ok? then link.value.crc else 0
  }

  /** The candidates find searches, for the default debug directories. */
  function SearchPaths(root: string, buildID: string, path: string, link: Result<Debuglink, LinkError>,
                       rel: (string, string) -> Option<string>): seq<string>
    requires |buildID| >= 2
  {
    PathsFor(root, buildID, path, LinkBase(link), rel, DebugDirs)
  }

  /** checkSum: the file can be read and its CRC-32 equals crc. */
  predicate ChecksumMatches(f: string, crc: nat, contents: string -> Option<seq<byte>>, crc32: seq<byte> -> nat)
  {
    contents(f).Some? && crc32(contents(f).value) == crc
  }

  /** find's loop: the first candidate os.Stat succeeds on, or "" when there is none. */
  method FirstPresent(files: seq<string>, present: string -> bool) returns (found: string)
    ensures FirstExisting(files, present, 0).None? ==> found == ""
    ensures FirstExisting(files, present, 0).Some? ==> found == files[FirstExisting(files, present, 0).value]
  {
    found := "";
    var i := 0;
    while i < |files|
      invariant 0 <= i <= |files|
      invariant FirstExisting(files, present, 0) == FirstExisting(files, present, i)
      invariant found == ""
    {
      if present(files[i]) {
        found := files[i];
        break;
      }
      i := i + 1;
    }
  }

  datatype FindError = InvalidBuildID | ElfFailed | NoPaths | NotExist | ChecksumFailed

  /** Found files the checksum does not apply to: build-ID files and debuginfo files. */
  predicate SkipsChecksum(found: string, crc: nat)
  {
    Strs.Contains(found, ".build-id") || Strs.HasSuffix(found, "/debuginfo") || crc == 0
  }

  /**
   * find. `elfOpened` is whether elf.NewFile succeeded, `link` the outcome of
   * readDebuglink (any error there is only logged), `exists` whether os.Stat
   * succeeds on a path, `contents` the bytes read from a path and `crc32` the
   * IEEE CRC-32.
   */
  method Find(root: string, buildID: string, path: string, elfOpened: bool, link: Result<Debuglink, LinkError>,
              rel: (string, string) -> Option<string>, present: string -> bool,
              contents: string -> Option<seq<byte>>, crc32: seq<byte> -> nat) returns (r: Result<string, FindError>)
    ensures |buildID| < 2 ==> r == Err(InvalidBuildID)
    ensures |buildID| >= 2 && !elfOpened ==> r == Err(ElfFailed)
    ensures r.Ok? ==> (|buildID| >= 2 && elfOpened &&
      FirstFound(SearchPaths(root, buildID, path, link, rel), present) == Some(r.value) &&
      (SkipsChecksum(r.value, LinkCrc(link)) || ChecksumMatches(r.value, LinkCrc(link), contents, crc32)))
    ensures |buildID| >= 2 && elfOpened && SearchPaths(root, buildID, path, link, rel) == [] ==> r == Err(NoPaths)
    ensures (|buildID| >= 2 && elfOpened && SearchPaths(root, buildID, path, link, rel) != [] &&
      FirstFound(SearchPaths(root, buildID, path, link, rel), present).None?) ==> r == Err(NotExist)
    ensures |buildID| >= 2 && elfOpened && FirstFound(SearchPaths(root, buildID, path, link, rel), present).Some? ==>
      var f := FirstFound(SearchPaths(root, buildID, path, link, rel), present).value;
      r == if SkipsChecksum(f, LinkCrc(link)) || ChecksumMatches(f, LinkCrc(link), contents, crc32) then Ok(f)
           else if contents(f).None? then Err(ChecksumFailed)
           else Err(NotExist)
  {
    if |buildID| < 2 {
      return Err(InvalidBuildID);
    }
    if !elfOpened {
      return Err(ElfFailed);
    }
    var base, crc := "", 0;
    if link.Ok? {
      base, crc := Chars(link.value.name), link.value.crc;
    }
    var files := GeneratePaths(root, buildID, path, base, rel, DebugDirs);
    assert base == LinkBase(link) && crc == LinkCrc(link);
    assert files == SearchPaths(root, buildID, path, link, rel);
    if |files| == 0 {
      return Err(NoPaths);
    }
    var found := FirstPresent(files, present);
    CandidatesNonEmpty(root, buildID, path, base, rel);
    assert FirstFound(files, present) == if found == "" then None else Some(found);
    if found == "" {
      return Err(NotExist);
    }
    if Strs.Contains(found, ".build-id") || Strs.HasSuffix(found, "/debuginfo") || crc <= 0 {
      return Ok(found);
    }
    var data := contents(found);
    if data.None? {
      return Err(ChecksumFailed);
    }
    if crc == crc32(data.value) {
      return Ok(found);
    }
    return Err(NotExist);
  }

  /** No default candidate is the empty path, so "" can mark "nothing found". */
  lemma CandidatesNonEmpty(root: string, buildID: string, path: string, filename: string,
                           rel: (string, string) -> Option<string>)
    requires |buildID| >= 2
    ensures forall j :: 0 <= j < |PathsFor(root, buildID, path, filename, rel, DebugDirs)| ==>
      PathsFor(root, buildID, path, filename, rel, DebugDirs)[j] != ""
  {
    DefaultPaths(root, buildID, path, filename, rel);
    var dbg := DebugFilePath(path, filename);
    assert |DebugFileExt(LinkName(path, filename))| > 0;
    if rel(root, dbg).Some? {
      CandidatesOfNonEmpty(root, DebugRoot, buildID, path, dbg, rel(root, dbg).value);
    }
  }

  lemma CandidatesOfNonEmpty(root: string, dir: string, buildID: string, path: string, dbg: string, r: string)
    requires |buildID| >= 2 && dir != "" && dbg != ""
    ensures forall j :: 0 <= j < 5 ==> Candidates(root, dir, buildID, path, dbg, r)[j] != ""
  {
    JoinNonEmpty([Strs.Dir(path), DebugExt, Strs.Base(dbg)], 1);
    JoinNonEmpty([root, dir, r], 1);
    JoinNonEmpty([root, dir, buildID, "debuginfo"], 3);
  }

  lemma JoinNonEmpty(elems: seq<string>, k: nat)
    requires k < |elems| && elems[k] != ""
    ensures Strs.Join(elems) != ""
  {
    assert elems == elems[..k] + [elems[k]] + elems[k + 1..];
    Strs.NonEmptyAppend(elems[..k] + [elems[k]], elems[k + 1..]);
    Strs.NonEmptyAppend(elems[..k], [elems[k]]);
    assert Strs.NonEmpty([elems[k]]) == [elems[k]] + Strs.NonEmpty([]);
    var ne := Strs.NonEmpty(elems);
    assert elems[k] in ne;
    JoinHasPart(ne, elems[k]);
  }

  lemma {:induction false} JoinHasPart(parts: seq<string>, p: string)
    requires p in parts && p != ""
    ensures Strs.JoinWith(parts, '/') != ""
  {
    if |parts| > 1 && parts[0] != p {
      assert p in parts[1..];
      JoinHasPart(parts[1..], p);
    }
  }

  /** The build-ID candidate is always accepted without reading its checksum. */
  lemma BuildIdFileSkipsChecksum(root: string, buildID: string, crc: nat)
    requires |buildID| >= 2
    ensures SkipsChecksum(Strs.Join([root, DebugDirs[0], ".build-id", buildID[..2], buildID[2..]]) + DebugExt, crc)
    ensures SkipsChecksum(Strs.Join([root, DebugDirs[0], buildID, "debuginfo"]), crc)
  {
    BuildIdCandidate(root, DebugDirs[0], buildID);
    var x := Strs.Join([root, DebugDirs[0]]) + "/";
    var y := "/" + buildID[..2] + (if |buildID| == 2 then "" else "/" + buildID[2..]) + DebugExt;
    assert Strs.Join([root, DebugDirs[0], ".build-id", buildID[..2], buildID[2..]]) + DebugExt == x + ".build-id" + y;
    Strs.ContainsMiddle(x, ".build-id", y);
    DebuginfoCandidate(root, DebugDirs[0], buildID);
    var z := Strs.Join([root, DebugDirs[0], buildID, "debuginfo"]);
    assert z[|z| - 10..] == "/debuginfo";
  }
}
