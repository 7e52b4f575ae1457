/**
 * mergelayout: read versioned layout files, sort them by version and merge
 * runs of consecutive versions whose layouts are equal into one entry keyed
 * by a version range ("= v" or "lo - hi").
 *
 * Reading and decoding a file is a parameter; writing the merged files is
 * left out except for the naming of their paths.
 */
module MergeLayout {
  import opened Wrappers
  import Semver
  import Decimal
  import Strs
  import opened RuntimeData

  /** convertVersion: the semver version with no pre-release and no metadata. */
  function Convert(v: Version): (s: Semver.Version)
    ensures s.major == v.major && s.minor == v.minor && s.patch == v.patch
    ensures s.pre == "" && s.meta == ""
  {
    Semver.Version(v.major, v.minor, v.patch, "", "")
  }

  /** The sort order of mergeLayoutFiles: convertVersion(a).LessThan(convertVersion(b)). */
  predicate Less(a: Version, b: Version) { Semver.LessThan(Convert(a), Convert(b)) }

  /** Lexicographic order on (major, minor, patch). */
  predicate Before(a: Version, b: Version)
  {
    a.major < b.major || (a.major == b.major && (a.minor < b.minor || (a.minor == b.minor && a.patch < b.patch)))
  }

  /** The converted versions compare exactly as their triples do. */
  lemma LessIsBefore(a: Version, b: Version)
    ensures Less(a, b) <==> Before(a, b)
    ensures Semver.Compare(Convert(a), Convert(b)) == 0 <==> a == b
  {
  }

  lemma AllLessIsBefore()
    ensures forall a, b :: Less(a, b) <==> Before(a, b)
  {
    forall a, b ensures Less(a, b) <==> Before(a, b) {
      LessIsBefore(a, b);
    }
  }

  /** filepath.Join(output, range + ".yaml"): the file of one merged range. */
  function OutputPath(output: string, versionRange: string): string
  {
    Strs.Join([output, versionRange + ".yaml"])
  }

  /** The file is "<range>.yaml" inside the output directory, so different ranges get different files. */
  lemma OutputPathForm(output: string, versionRange: string)
    ensures OutputPath(output, versionRange) == (if output == "" then "" else output + "/") + versionRange + ".yaml"
    ensures forall other :: OutputPath(output, other) == OutputPath(output, versionRange) ==> other == versionRange
  {
    forall other | OutputPath(output, other) == OutputPath(output, versionRange) ensures other == versionRange {
      PathOf(output, other);
      PathOf(output, versionRange);
      var prefix: string := if output == "" then "" else output + "/";
      assert other == (prefix + other + ".yaml")[|prefix|..|prefix| + |other|];
      assert versionRange == (prefix + versionRange + ".yaml")[|prefix|..|prefix| + |versionRange|];
    }
    PathOf(output, versionRange);
  }

  lemma PathOf(output: string, versionRange: string)
    ensures OutputPath(output, versionRange) == (if output == "" then "" else output + "/") + versionRange + ".yaml"
  {
    var file := versionRange + ".yaml";
    assert file != "" by { assert file[|file| - 1] == 'l'; }
    var one: seq<string> := [file];
    var two: seq<string> := [output, file];
    assert two[1..] == one;
    assert Strs.NonEmpty(one) == one by {
      assert |one[1..]| == 0;
    }
    if output != "" {
      assert Strs.JoinWith(two, '/') == output + ['/'] + Strs.JoinWith(one, '/');
    }
  }

  // ----- reading the inputs -----

  datatype MergeError = ReadFailed(file: string, reason: string) | NoVersions

  /** A decoded input file: runtimedata.DataWithVersion. */
  datatype WithVersion<D> = WithVersion(version: Version, data: D)

  /** The read loop from file k on: a later file with the same version replaces an earlier one. */
  function CollectFrom<D>(inputs: seq<string>, read: string -> Result<WithVersion<D>, string>, k: nat, acc: map<Version, D>): Result<map<Version, D>, MergeError>
    requires k <= |inputs|
    decreases |inputs| - k
  {
    if k == |inputs| then Ok(acc)
    else
      match read(inputs[k])
      case Err(e) => Err(ReadFailed(inputs[k], e))
      case Ok(w) => CollectFrom(inputs, read, k + 1, acc[w.version := w.data])
  }

  function Collected<D>(inputs: seq<string>, read: string -> Result<WithVersion<D>, string>): Result<map<Version, D>, MergeError>
  {
    CollectFrom(inputs, read, 0, map[])
  }

  method CollectLayouts<D>(inputs: seq<string>, read: string -> Result<WithVersion<D>, string>) returns (r: Result<map<Version, D>, MergeError>)
    ensures r == Collected(inputs, read)
  {
    var versioned: map<Version, D> := map[];
    var k := 0;
    while k < |inputs|
      invariant 0 <= k <= |inputs|
      invariant Collected(inputs, read) == CollectFrom(inputs, read, k, versioned)
    {
      var w := read(inputs[k]);
      if w.Err? {
        return Err(ReadFailed(inputs[k], w.error));
      }
      versioned := versioned[w.value.version := w.value.data];
      k := k + 1;
    }
    r := Ok(versioned);
  }

  /** The file at position j is read successfully with version v. */
  predicate HasVersion<D>(inputs: seq<string>, read: string -> Result<WithVersion<D>, string>, j: int, v: Version)
    requires 0 <= j < |inputs|
  {
    read(inputs[j]).Ok? && read(inputs[j]).value.version == v
  }

  /** File j is the last one read with version v. */
  predicate LastWith<D>(inputs: seq<string>, read: string -> Result<WithVersion<D>, string>, j: int, v: Version)
  {
    0 <= j < |inputs| && HasVersion(inputs, read, j, v) && forall i :: j < i < |inputs| ==> !HasVersion(inputs, read, i, v)
  }

  lemma {:induction false} CollectFromSpec<D>(inputs: seq<string>, read: string -> Result<WithVersion<D>, string>, k: nat, acc: map<Version, D>)
    requires k <= |inputs|
    ensures CollectFrom(inputs, read, k, acc).Ok? <==> forall j :: k <= j < |inputs| ==> read(inputs[j]).Ok?
    ensures CollectFrom(inputs, read, k, acc).Err? ==> CollectFrom(inputs, read, k, acc).error.ReadFailed?
    ensures CollectFrom(inputs, read, k, acc).Ok? ==> forall v ::
      (v in CollectFrom(inputs, read, k, acc).value <==> v in acc || exists j :: k <= j < |inputs| && HasVersion(inputs, read, j, v))
    ensures CollectFrom(inputs, read, k, acc).Ok? ==> forall v, j :: k <= j && LastWith(inputs, read, j, v) ==>
      v in CollectFrom(inputs, read, k, acc).value && CollectFrom(inputs, read, k, acc).value[v] == read(inputs[j]).value.data
    ensures CollectFrom(inputs, read, k, acc).Ok? ==> forall v :: v in acc && (forall i :: k <= i < |inputs| ==> !HasVersion(inputs, read, i, v)) ==>
      v in CollectFrom(inputs, read, k, acc).value && CollectFrom(inputs, read, k, acc).value[v] == acc[v]
    decreases |inputs| - k
  {
    if k < |inputs| && read(inputs[k]).Ok? {
      var w := read(inputs[k]).value;
      var acc' := acc[w.version := w.data];
      CollectFromSpec(inputs, read, k + 1, acc');
      var r := CollectFrom(inputs, read, k, acc);
      assert r == CollectFrom(inputs, read, k + 1, acc');
      if r.Ok? {
        assert HasVersion(inputs, read, k, w.version);
        forall v | v in r.value ensures v in acc || exists j :: k <= j < |inputs| && HasVersion(inputs, read, j, v) {
          if v !in acc && v != w.version {
            var j :| k + 1 <= j < |inputs| && HasVersion(inputs, read, j, v);
          }
        }
        forall v, j | k <= j && LastWith(inputs, read, j, v)
          ensures v in r.value && r.value[v] == read(inputs[j]).value.data
        {
          if j == k {
            assert v in acc' && acc'[v] == w.data;
          }
        }
      }
    }
  }

  /**
   * Reading succeeds exactly when every file reads; then the versions are
   * those of the files, and each maps to the data of the last file with it.
   */
  lemma LaterFileWins<D>(inputs: seq<string>, read: string -> Result<WithVersion<D>, string>)
    ensures Collected(inputs, read).Ok? <==> forall j :: 0 <= j < |inputs| ==> read(inputs[j]).Ok?
    ensures Collected(inputs, read).Err? ==> Collected(inputs, read).error.ReadFailed?
    ensures Collected(inputs, read).Ok? ==> forall v ::
      (v in Collected(inputs, read).value <==> exists j :: 0 <= j < |inputs| && HasVersion(inputs, read, j, v))
    ensures Collected(inputs, read).Ok? ==> forall v, j :: LastWith(inputs, read, j, v) ==>
      Collected(inputs, read).value[v] == read(inputs[j]).value.data
  {
    CollectFromSpec(inputs, read, 0, map[]);
  }

  // ----- sorting -----

  /** Ascending in the sort order. */
  predicate Sorted(s: seq<Version>)
  {
    forall p, q :: 0 <= p < q < |s| ==> !Before(s[q], s[p])
  }

  /** Strictly ascending: sorted with no version twice. */
  predicate Ascending(s: seq<Version>)
  {
    forall p, q :: 0 <= p < q < |s| ==> Before(s[p], s[q])
  }

  /** sort.Slice with the version order, as insertion by adjacent swaps. */
  method SortVersions(a: array<Version>)
    modifies a
    ensures Sorted(a[..])
    ensures multiset(a[..]) == multiset(old(a[..]))
  {
    if a.Length == 0 {
      return;
    }
    var i := 1;
    while i < a.Length
      invariant 1 <= i <= a.Length
      invariant Sorted(a[..i])
      invariant multiset(a[..]) == multiset(old(a[..]))
    {
      InsertLast(a, i);
      i := i + 1;
    }
    assert a[..a.Length] == a[..];
  }

  /** Moves a[i] down past every larger element in front of it. */
  method InsertLast(a: array<Version>, i: nat)
    modifies a
    requires 1 <= i < a.Length && Sorted(a[..i])
    ensures Sorted(a[..i + 1])
    ensures multiset(a[..]) == multiset(old(a[..]))
  {
    var j := i;
    while j > 0
      invariant 0 <= j <= i
      invariant forall p, q :: 0 <= p < q <= i && p != j && q != j ==> !Before(a[q], a[p])
      invariant forall q :: j < q <= i ==> Before(a[j], a[q])
      invariant multiset(a[..]) == multiset(old(a[..]))
    {
      LessIsBefore(a[j], a[j - 1]);
      if !Less(a[j], a[j - 1]) {
        break;
      }
      a[j], a[j - 1] := a[j - 1], a[j];
      j := j - 1;
    }
  }

  /** No version occurs twice. */
  ghost predicate NoRepeats(s: seq<Version>) { forall v :: multiset(s)[v] <= 1 }

  /** A sorted sequence without repeats is strictly ascending. */
  lemma SortedDistinct(s: seq<Version>)
    requires Sorted(s) && NoRepeats(s)
    ensures Ascending(s)
  {
    forall p, q | 0 <= p < q < |s| ensures Before(s[p], s[q]) {
      if s[p] == s[q] {
        TwiceInMultiset(s, p, q);
        assert false;
      }
    }
  }

  lemma TwiceInMultiset(s: seq<Version>, p: nat, q: nat)
    requires p < q < |s| && s[p] == s[q]
    ensures multiset(s)[s[p]] >= 2
  {
    var t := s[..q];
    assert s == t + s[q..];
    assert t[p] == s[p];
    assert s[q..][0] == s[q];
    assert multiset(t)[s[p]] >= 1;
    assert multiset(s[q..])[s[q]] >= 1;
  }

  // ----- runs -----

  /** The versions at positions start .. end-1 share data. */
  datatype Span<D> = Span(start: nat, end: nat, data: D)

  /** Spans that tile 0 .. n in order, each non-empty. */
  predicate Tiles<D>(rs: seq<Span<D>>, n: nat)
  {
    (n == 0 <==> rs == []) &&
    (rs != [] ==> rs[0].start == 0 && rs[|rs| - 1].end == n) &&
    (forall j :: 0 <= j < |rs| ==> rs[j].start < rs[j].end <= n) &&
    (forall j :: 0 <= j < |rs| - 1 ==> rs[j].end == rs[j + 1].start)
  }

  /** Every version of a span has the span's data, and adjacent spans differ. */
  predicate MaximalRuns<D(==)>(rs: seq<Span<D>>, ds: seq<D>)
  {
    (forall j, p :: 0 <= j < |rs| && rs[j].start <= p < rs[j].end && p < |ds| ==> ds[p] == rs[j].data) &&
    (forall j :: 0 <= j < |rs| - 1 ==> rs[j].data != rs[j + 1].data)
  }

  /**
   * The run grouping of the merge loop over the data in version order. The
   * runs tile the versions in order, so every version lies in exactly one
   * run; every version of a run has its data; consecutive runs have
   * different data, so a layout that recurs after another one starts a new
   * run.
   */
  function RunsOf<D(==)>(ds: seq<D>): seq<Span<D>>
    decreases |ds|
  {
    if ds == [] then [] else NextRuns(RunsOf(ds[..|ds| - 1]), ds)
  }

  lemma {:induction false} RunsSpec<D>(ds: seq<D>)
    ensures Tiles(RunsOf(ds), |ds|)
    ensures MaximalRuns(RunsOf(ds), ds)
    decreases |ds|
  {
    if ds != [] {
      RunsSpec(ds[..|ds| - 1]);
      RunsStep(ds, RunsOf(ds[..|ds| - 1]));
    }
  }

  /** One more version: it extends the last run when its data is the same, otherwise opens a run. */
  function NextRuns<D(==)>(prev: seq<Span<D>>, ds: seq<D>): seq<Span<D>>
    requires ds != []
  {
    var x := ds[|ds| - 1];
    if prev != [] && prev[|prev| - 1].data == x then prev[..|prev| - 1] + [Span(prev[|prev| - 1].start, |ds|, x)]
    else prev + [Span(|ds| - 1, |ds|, x)]
  }

  lemma RunsStep<D>(ds: seq<D>, prev: seq<Span<D>>)
    requires ds != [] && Tiles(prev, |ds| - 1) && MaximalRuns(prev, ds[..|ds| - 1])
    ensures Tiles(NextRuns(prev, ds), |ds|) && MaximalRuns(NextRuns(prev, ds), ds)
  {
    if prev != [] && prev[|prev| - 1].data == ds[|ds| - 1] {
      ExtendRun(ds, prev);
    } else {
      OpenRun(ds, prev);
    }
  }

  lemma ExtendRun<D>(ds: seq<D>, prev: seq<Span<D>>)
    requires ds != [] && Tiles(prev, |ds| - 1) && MaximalRuns(prev, ds[..|ds| - 1])
    requires prev != [] && prev[|prev| - 1].data == ds[|ds| - 1]
    ensures Tiles(NextRuns(prev, ds), |ds|) && MaximalRuns(NextRuns(prev, ds), ds)
  {
    var n := |prev|;
    var rs := prev[..n - 1] + [Span(prev[n - 1].start, |ds|, ds[|ds| - 1])];
    assert NextRuns(prev, ds) == rs;
    ExtendRunTiles(prev, |ds| - 1, ds[|ds| - 1]);
    ExtendRunCovers(ds, prev);
    ExtendRunNeighbours(ds, prev);
  }

  lemma ExtendRunTiles<D>(prev: seq<Span<D>>, n: nat, x: D)
    requires Tiles(prev, n) && prev != []
    ensures Tiles(prev[..|prev| - 1] + [Span(prev[|prev| - 1].start, n + 1, x)], n + 1)
  {
    var k := |prev|;
    var rs := prev[..k - 1] + [Span(prev[k - 1].start, n + 1, x)];
    assert forall j :: 0 <= j < k - 1 ==> rs[j] == prev[j];
  }

  lemma ExtendRunCovers<D>(ds: seq<D>, prev: seq<Span<D>>)
    requires ds != [] && Tiles(prev, |ds| - 1) && MaximalRuns(prev, ds[..|ds| - 1])
    requires prev != [] && prev[|prev| - 1].data == ds[|ds| - 1]
    ensures var rs := prev[..|prev| - 1] + [Span(prev[|prev| - 1].start, |ds|, ds[|ds| - 1])];
      forall j, p :: 0 <= j < |rs| && rs[j].start <= p < rs[j].end && p < |ds| ==> ds[p] == rs[j].data
  {
    var n := |prev|;
    var rs := prev[..n - 1] + [Span(prev[n - 1].start, |ds|, ds[|ds| - 1])];
    forall j, p | 0 <= j < n && rs[j].start <= p < rs[j].end && p < |ds| ensures ds[p] == rs[j].data {
      if j < n - 1 {
        assert rs[j] == prev[j];
        assert ds[p] == ds[..|ds| - 1][p];
      } else if p < |ds| - 1 {
        assert ds[p] == ds[..|ds| - 1][p];
        assert prev[n - 1].start <= p < prev[n - 1].end;
      }
    }
  }

  lemma ExtendRunNeighbours<D>(ds: seq<D>, prev: seq<Span<D>>)
    requires ds != [] && MaximalRuns(prev, ds[..|ds| - 1])
    requires prev != [] && prev[|prev| - 1].data == ds[|ds| - 1]
    ensures var rs := prev[..|prev| - 1] + [Span(prev[|prev| - 1].start, |ds|, ds[|ds| - 1])];
      forall j :: 0 <= j < |rs| - 1 ==> rs[j].data != rs[j + 1].data
  {
    var n := |prev|;
    var rs := prev[..n - 1] + [Span(prev[n - 1].start, |ds|, ds[|ds| - 1])];
    forall j | 0 <= j < n - 1 ensures rs[j].data != rs[j + 1].data {
      assert rs[j] == prev[j];
      if j + 1 < n - 1 {
        assert rs[j + 1] == prev[j + 1];
      }
    }
  }

  lemma OpenRun<D>(ds: seq<D>, prev: seq<Span<D>>)
    requires ds != [] && Tiles(prev, |ds| - 1) && MaximalRuns(prev, ds[..|ds| - 1])
    requires !(prev != [] && prev[|prev| - 1].data == ds[|ds| - 1])
    ensures Tiles(NextRuns(prev, ds), |ds|) && MaximalRuns(NextRuns(prev, ds), ds)
  {
    var rs := prev + [Span(|ds| - 1, |ds|, ds[|ds| - 1])];
    assert NextRuns(prev, ds) == rs;
    OpenRunTiles(prev, |ds| - 1, ds[|ds| - 1]);
    OpenRunCovers(ds, prev);
    OpenRunNeighbours(ds, prev);
  }

  lemma OpenRunTiles<D>(prev: seq<Span<D>>, n: nat, x: D)
    requires Tiles(prev, n)
    ensures Tiles(prev + [Span(n, n + 1, x)], n + 1)
  {
    var rs := prev + [Span(n, n + 1, x)];
    assert forall j :: 0 <= j < |prev| ==> rs[j] == prev[j];
  }

  lemma OpenRunCovers<D>(ds: seq<D>, prev: seq<Span<D>>)
    requires ds != [] && Tiles(prev, |ds| - 1) && MaximalRuns(prev, ds[..|ds| - 1])
    ensures var rs := prev + [Span(|ds| - 1, |ds|, ds[|ds| - 1])];
      forall j, p :: 0 <= j < |rs| && rs[j].start <= p < rs[j].end && p < |ds| ==> ds[p] == rs[j].data
  {
    var n := |prev|;
    var rs := prev + [Span(|ds| - 1, |ds|, ds[|ds| - 1])];
    forall j, p | 0 <= j < n + 1 && rs[j].start <= p < rs[j].end && p < |ds| ensures ds[p] == rs[j].data {
      if j < n {
        assert rs[j] == prev[j];
        assert ds[p] == ds[..|ds| - 1][p];
      }
    }
  }

  lemma OpenRunNeighbours<D>(ds: seq<D>, prev: seq<Span<D>>)
    requires ds != [] && MaximalRuns(prev, ds[..|ds| - 1])
    requires !(prev != [] && prev[|prev| - 1].data == ds[|ds| - 1])
    ensures var rs := prev + [Span(|ds| - 1, |ds|, ds[|ds| - 1])];
      forall j :: 0 <= j < |rs| - 1 ==> rs[j].data != rs[j + 1].data
  {
    var n := |prev|;
    var rs := prev + [Span(|ds| - 1, |ds|, ds[|ds| - 1])];
    forall j | 0 <= j < n ensures rs[j].data != rs[j + 1].data {
      assert rs[j] == prev[j];
      if j + 1 < n {
        assert rs[j + 1] == prev[j + 1];
      }
    }
  }

  /** The number of the run holding position p. */
  lemma RunOfPosition<D>(ds: seq<D>, p: nat) returns (j: nat)
    requires p < |ds|
    ensures j < |RunsOf(ds)| && RunsOf(ds)[j].start <= p < RunsOf(ds)[j].end
    ensures forall i :: 0 <= i < |RunsOf(ds)| && RunsOf(ds)[i].start <= p < RunsOf(ds)[i].end ==> i == j
  {
    RunsSpec(ds);
    var rs := RunsOf(ds);
    j := 0;
    while rs[j].end <= p
      invariant j < |rs| && rs[j].start <= p
      decreases |rs| - j
    {
      j := j + 1;
    }
    TilesOrdered(rs, |ds|);
  }

  lemma TilesOrdered<D>(rs: seq<Span<D>>, n: nat)
    requires Tiles(rs, n)
    ensures forall i, j :: 0 <= i < j < |rs| ==> rs[i].end <= rs[j].start
  {
    forall i, j | 0 <= i < j < |rs| ensures rs[i].end <= rs[j].start {
      var k := i;
      while k + 1 < j
        invariant i <= k < j && rs[i].end <= rs[k + 1].start
      {
        k := k + 1;
      }
    }
  }

  // ----- range keys -----

  /** addVersionRange's key: "= v" for a single version, otherwise "min - max". */
  function RangeKey(lo: Version, hi: Version): string
  {
    if lo == hi then "= " + Semver.Format(Convert(lo)) else Semver.Format(Convert(lo)) + " - " + Semver.Format(Convert(hi))
  }

  /** The key of a run over keys; a span outside keys has none. */
  function SpanKey<D>(keys: seq<Version>, s: Span<D>): string
  {
    if s.start < s.end <= |keys| then RangeKey(keys[s.start], keys[s.end - 1]) else ""
  }

  /** The (key, data) pair addVersionRange stores for each span, in turn. */
  function Entries<D>(keys: seq<Version>, rs: seq<Span<D>>): (es: seq<(string, D)>)
    ensures |es| == |rs| && forall j :: 0 <= j < |rs| ==> es[j] == (SpanKey(keys, rs[j]), rs[j].data)
  {
    seq(|rs|, j requires 0 <= j < |rs| => (SpanKey(keys, rs[j]), rs[j].data))
  }

  /** A map filled by the pairs in order; a later pair with the same key wins. */
  function Assign<D>(es: seq<(string, D)>): map<string, D>
    decreases |es|
  {
    if es == [] then map[] else Assign(es[..|es| - 1])[es[|es| - 1].0 := es[|es| - 1].1]
  }

  /** outputData after addVersionRange for each span in turn. */
  function Ranges<D>(keys: seq<Version>, rs: seq<Span<D>>): map<string, D>
  {
    Assign(Entries(keys, rs))
  }

  lemma TripleChars(v: Version)
    ensures forall i :: 0 <= i < |Semver.Format(Convert(v))| ==> Semver.Format(Convert(v))[i] == '.' || Decimal.IsDigit(Semver.Format(Convert(v))[i])
    ensures |Semver.Format(Convert(v))| > 0 && Decimal.IsDigit(Semver.Format(Convert(v))[0])
  {
    var a := Decimal.Format(v.major);
    var b := Decimal.Format(v.minor);
    var c := Decimal.Format(v.patch);
    assert Semver.Format(Convert(v)) == a + "." + b + "." + c;
  }

  /** The formatted triple has no space, and it starts with a digit, never with '='. */
  lemma TripleShape(v: Version)
    ensures ' ' !in Semver.Format(Convert(v))
    ensures |Semver.Format(Convert(v))| > 0 && Semver.Format(Convert(v))[0] != '='
  {
    TripleChars(v);
  }

  /** Only a single-version key starts with '='. */
  lemma KeyForm(lo: Version, hi: Version)
    ensures |RangeKey(lo, hi)| > 0 && (RangeKey(lo, hi)[0] == '=' <==> lo == hi)
  {
    TripleShape(lo);
    if lo != hi {
      assert RangeKey(lo, hi)[0] == Semver.Format(Convert(lo))[0];
    }
  }

  lemma ExactKeyLower(a: Version, c: Version)
    requires "= " + Semver.Format(Convert(a)) == "= " + Semver.Format(Convert(c))
    ensures a == c
  {
    var fa := Semver.Format(Convert(a));
    var fc := Semver.Format(Convert(c));
    assert fa == ("= " + fa)[2..];
    assert fc == ("= " + fc)[2..];
    Semver.FormatInjective(Convert(a), Convert(c));
  }

  lemma SpanKeyLower(a: Version, b: Version, c: Version, d: Version)
    requires Semver.Format(Convert(a)) + " - " + Semver.Format(Convert(b)) == Semver.Format(Convert(c)) + " - " + Semver.Format(Convert(d))
    ensures a == c
  {
    var fa := Semver.Format(Convert(a));
    var fc := Semver.Format(Convert(c));
    var key := fa + " - " + Semver.Format(Convert(b));
    var other := fc + " - " + Semver.Format(Convert(d));
    TripleShape(a);
    TripleShape(c);
    assert key[..|fa|] == fa && key[|fa|] == ' ';
    assert other[..|fc|] == fc && other[|fc|] == ' ';
    HeadBeforeSpace(fa, fc, key);
    Semver.FormatInjective(Convert(a), Convert(c));
  }

  /** Two space-free prefixes of s that are each followed by a space are the same. */
  lemma HeadBeforeSpace(x: string, y: string, s: string)
    requires ' ' !in x && ' ' !in y
    requires |x| < |s| && |y| < |s| && s[..|x|] == x && s[..|y|] == y && s[|x|] == ' ' && s[|y|] == ' '
    ensures x == y
  {
  }

  /** A range key determines its lower bound. */
  lemma RangeKeyLower(a: Version, b: Version, c: Version, d: Version)
    requires RangeKey(a, b) == RangeKey(c, d)
    ensures a == c
  {
    KeyForm(a, b);
    KeyForm(c, d);
    if a == b && c == d {
      ExactKeyLower(a, c);
    } else if a != b && c != d {
      SpanKeyLower(a, b, c, d);
    }
  }

  /** Spans over strictly ascending versions get distinct keys. */
  lemma SpanKeysDistinct<D>(keys: seq<Version>, rs: seq<Span<D>>, i: nat, j: nat)
    requires Ascending(keys) && Tiles(rs, |keys|)
    requires i < j < |rs|
    ensures SpanKey(keys, rs[i]) != SpanKey(keys, rs[j])
  {
    TilesOrdered(rs, |keys|);
    if SpanKey(keys, rs[i]) == SpanKey(keys, rs[j]) {
      RangeKeyLower(keys[rs[i].start], keys[rs[i].end - 1], keys[rs[j].start], keys[rs[j].end - 1]);
    }
  }

  /** With distinct keys, every pair is in the map. */
  lemma {:induction false} AssignHolds<D>(es: seq<(string, D)>)
    requires forall i, j :: 0 <= i < j < |es| ==> es[i].0 != es[j].0
    ensures forall j :: 0 <= j < |es| ==> es[j].0 in Assign(es) && Assign(es)[es[j].0] == es[j].1
    decreases |es|
  {
    if es != [] {
      var init := es[..|es| - 1];
      AssignHolds(init);
      forall j | 0 <= j < |es| - 1 ensures es[j].0 in Assign(es) && Assign(es)[es[j].0] == es[j].1 {
        assert init[j] == es[j];
      }
    }
  }

  /** Every key of the map comes from a pair. */
  lemma {:induction false} AssignOnly<D>(es: seq<(string, D)>)
    ensures forall k :: k in Assign(es) ==> exists j :: 0 <= j < |es| && es[j].0 == k
    decreases |es|
  {
    if es != [] {
      var init := es[..|es| - 1];
      AssignOnly(init);
      forall k | k in Assign(es) ensures exists j :: 0 <= j < |es| && es[j].0 == k {
        if k != es[|es| - 1].0 {
          assert k in Assign(init);
          var j :| 0 <= j < |init| && init[j].0 == k;
          assert init[j] == es[j];
        }
      }
    }
  }

  /** Position p of keys in a strictly ascending run list: single-version runs get "= v". */
  lemma RangeKeyShape(lo: Version, hi: Version)
    ensures Strs.HasPrefix(RangeKey(lo, hi), "= ") <==> lo == hi
  {
    TripleChars(lo);
    if lo != hi {
      assert RangeKey(lo, hi)[0] == Semver.Format(Convert(lo))[0];
    }
  }

  /** The data of the versions, in version order. */
  function Datas<D>(keys: seq<Version>, m: map<Version, D>): (ds: seq<D>)
    requires forall k :: k in keys ==> k in m
    ensures |ds| == |keys| && forall j :: 0 <= j < |keys| ==> ds[j] == m[keys[j]]
  {
    seq(|keys|, j requires 0 <= j < |keys| => m[keys[j]])
  }

  /** The merged output for versions in ascending order. */
  function Merged<D(==)>(keys: seq<Version>, m: map<Version, D>): map<string, D>
    requires forall k :: k in keys ==> k in m
  {
    Ranges(keys, RunsOf(Datas(keys, m)))
  }

  /**
   * Over strictly ascending versions, the merged output has one entry per
   * run, keyed "= v" for a run of one version and "min - max" otherwise,
   * whose value is the data of every version of the run.
   */
  lemma MergedSpec<D>(keys: seq<Version>, m: map<Version, D>)
    requires Ascending(keys) && forall k :: k in keys ==> k in m
    ensures forall j :: 0 <= j < |RunsOf(Datas(keys, m))| ==>
      var s := RunsOf(Datas(keys, m))[j];
      SpanKey(keys, s) in Merged(keys, m) && Merged(keys, m)[SpanKey(keys, s)] == s.data &&
      (forall p :: s.start <= p < s.end && p < |keys| ==> m[keys[p]] == s.data) &&
      (Strs.HasPrefix(SpanKey(keys, s), "= ") <==> s.end == s.start + 1)
    ensures forall k :: k in Merged(keys, m) ==> exists s :: s in RunsOf(Datas(keys, m)) && SpanKey(keys, s) == k
  {
    MergedRunEntries(keys, m);
    MergedOnlyRuns(keys, m);
  }

  lemma MergedRunEntries<D>(keys: seq<Version>, m: map<Version, D>)
    requires Ascending(keys) && forall k :: k in keys ==> k in m
    ensures forall j :: 0 <= j < |RunsOf(Datas(keys, m))| ==>
      var s := RunsOf(Datas(keys, m))[j];
      SpanKey(keys, s) in Merged(keys, m) && Merged(keys, m)[SpanKey(keys, s)] == s.data &&
      (forall p :: s.start <= p < s.end && p < |keys| ==> m[keys[p]] == s.data) &&
      (Strs.HasPrefix(SpanKey(keys, s), "= ") <==> s.end == s.start + 1)
  {
    var ds := Datas(keys, m);
    var rs := RunsOf(ds);
    RunsSpec(ds);
    assert Merged(keys, m) == Ranges(keys, rs);
    RunsInRanges(keys, rs);
    RunKeyShapes(keys, rs);
    RunData(keys, m, ds, rs);
  }

  lemma MergedOnlyRuns<D>(keys: seq<Version>, m: map<Version, D>)
    requires forall k :: k in keys ==> k in m
    ensures forall k :: k in Merged(keys, m) ==> exists s :: s in RunsOf(Datas(keys, m)) && SpanKey(keys, s) == k
  {
    var rs := RunsOf(Datas(keys, m));
    RangesFromRuns(keys, rs);
    forall k | k in Merged(keys, m) ensures exists s :: s in rs && SpanKey(keys, s) == k {
      assert k in Ranges(keys, rs);
      var j :| 0 <= j < |rs| && SpanKey(keys, rs[j]) == k;
      assert rs[j] in rs;
    }
  }

  lemma RunKeyShapes<D>(keys: seq<Version>, rs: seq<Span<D>>)
    requires Ascending(keys) && Tiles(rs, |keys|)
    ensures forall j :: 0 <= j < |rs| ==> (Strs.HasPrefix(SpanKey(keys, rs[j]), "= ") <==> rs[j].end == rs[j].start + 1)
  {
    forall j | 0 <= j < |rs| ensures (Strs.HasPrefix(SpanKey(keys, rs[j]), "= ") <==> rs[j].end == rs[j].start + 1) {
      SingleKey(keys, rs[j]);
    }
  }

  lemma RunData<D>(keys: seq<Version>, m: map<Version, D>, ds: seq<D>, rs: seq<Span<D>>)
    requires |ds| == |keys| && forall p :: 0 <= p < |keys| ==> keys[p] in m && ds[p] == m[keys[p]]
    requires MaximalRuns(rs, ds)
    ensures forall j, p :: 0 <= j < |rs| && rs[j].start <= p < rs[j].end && p < |keys| ==> m[keys[p]] == rs[j].data
  {
  }

  /** Over strictly ascending versions the runs get distinct keys, so each is in the output. */
  lemma RunsInRanges<D>(keys: seq<Version>, rs: seq<Span<D>>)
    requires Ascending(keys) && Tiles(rs, |keys|)
    ensures forall j :: 0 <= j < |rs| ==> SpanKey(keys, rs[j]) in Ranges(keys, rs) && Ranges(keys, rs)[SpanKey(keys, rs[j])] == rs[j].data
  {
    var es := Entries(keys, rs);
    forall i, j | 0 <= i < j < |es| ensures es[i].0 != es[j].0 {
      SpanKeysDistinct(keys, rs, i, j);
    }
    AssignHolds(es);
  }

  /** Every key of the output is the key of a run. */
  lemma RangesFromRuns<D>(keys: seq<Version>, rs: seq<Span<D>>)
    ensures forall k :: k in Ranges(keys, rs) ==> exists j :: 0 <= j < |rs| && SpanKey(keys, rs[j]) == k
  {
    AssignOnly(Entries(keys, rs));
  }

  /** A run's key has the "= " form exactly when the run holds one version. */
  lemma SingleKey<D>(keys: seq<Version>, s: Span<D>)
    requires Ascending(keys) && s.start < s.end <= |keys|
    ensures Strs.HasPrefix(SpanKey(keys, s), "= ") <==> s.end == s.start + 1
  {
    RangeKeyShape(keys[s.start], keys[s.end - 1]);
    if s.end != s.start + 1 {
      assert Before(keys[s.start], keys[s.end - 1]);
    }
  }

  /** The run loop of mergeLayoutFiles over the sorted versions. */
  method GroupRanges<D(==)>(keys: seq<Version>, m: map<Version, D>) returns (outputData: map<string, D>)
    requires |keys| > 0 && forall k :: k in keys ==> k in m
    ensures outputData == Merged(keys, m)
  {
    ghost var ds := Datas(keys, m);
    ghost var start: nat := 0;
    ghost var closed: seq<Span<D>> := [];
    var minVersion := keys[0];
    var maxVersion := keys[0];
    var currentLayout := m[keys[0]];
    outputData := map[];
    assert ds[..1][..0] == [];
    var i := 1;
    while i < |keys|
      invariant 1 <= i <= |keys| && start < i
      invariant minVersion == keys[start] && maxVersion == keys[i - 1] && currentLayout == ds[start]
      invariant RunsOf(ds[..i]) == closed + [Span(start, i, currentLayout)]
      invariant outputData == Ranges(keys, closed)
    {
      var data := m[keys[i]];
      if currentLayout == data {
        GroupSameAt(ds, i, closed, start, currentLayout);
        maxVersion := keys[i];
        i := i + 1;
        continue;
      }
      GroupNewAt(ds, i, closed, start, currentLayout);
      outputData := outputData[RangeKey(minVersion, maxVersion) := currentLayout];
      RangesSnoc(keys, closed, Span(start, i, currentLayout));
      closed := closed + [Span(start, i, currentLayout)];
      start := i;
      minVersion := keys[i];
      maxVersion := keys[i];
      currentLayout := data;
      i := i + 1;
    }
    assert ds[..i] == ds;
    RangesSnoc(keys, closed, Span(start, i, currentLayout));
    outputData := outputData[RangeKey(minVersion, maxVersion) := currentLayout];
  }

  lemma RangesSnoc<D>(keys: seq<Version>, rs: seq<Span<D>>, s: Span<D>)
    ensures Ranges(keys, rs + [s]) == Ranges(keys, rs)[SpanKey(keys, s) := s.data]
  {
    var es := Entries(keys, rs + [s]);
    assert es[..|rs|] == Entries(keys, rs);
  }

  lemma GroupSame<D>(ds: seq<D>, closed: seq<Span<D>>, start: nat, x: D)
    requires |ds| > 1 && RunsOf(ds[..|ds| - 1]) == closed + [Span(start, |ds| - 1, x)] && ds[|ds| - 1] == x
    ensures RunsOf(ds) == closed + [Span(start, |ds|, x)]
  {
    var prev := closed + [Span(start, |ds| - 1, x)];
    assert prev[..|prev| - 1] == closed;
  }

  lemma GroupNew<D>(ds: seq<D>, closed: seq<Span<D>>, start: nat, x: D)
    requires |ds| > 1 && RunsOf(ds[..|ds| - 1]) == closed + [Span(start, |ds| - 1, x)] && ds[|ds| - 1] != x
    ensures RunsOf(ds) == (closed + [Span(start, |ds| - 1, x)]) + [Span(|ds| - 1, |ds|, ds[|ds| - 1])]
  {
  }

  /** GroupSame and GroupNew on the prefix ds[..i + 1]. */
  lemma GroupSameAt<D>(ds: seq<D>, i: nat, closed: seq<Span<D>>, start: nat, x: D)
    requires 1 <= i < |ds| && RunsOf(ds[..i]) == closed + [Span(start, i, x)] && ds[i] == x
    ensures RunsOf(ds[..i + 1]) == closed + [Span(start, i + 1, x)]
  {
    assert ds[..i + 1][..i] == ds[..i];
    GroupSame(ds[..i + 1], closed, start, x);
  }

  lemma GroupNewAt<D>(ds: seq<D>, i: nat, closed: seq<Span<D>>, start: nat, x: D)
    requires 1 <= i < |ds| && RunsOf(ds[..i]) == closed + [Span(start, i, x)] && ds[i] != x
    ensures RunsOf(ds[..i + 1]) == (closed + [Span(start, i, x)]) + [Span(i, i + 1, ds[i])]
  {
    assert ds[..i + 1][..i] == ds[..i];
    GroupNew(ds[..i + 1], closed, start, x);
  }

  // ----- the whole merge -----

  /** Before is a strict total order. */
  lemma BeforeTotal(a: Version, b: Version)
    ensures a != b ==> Before(a, b) || Before(b, a)
    ensures !(Before(a, b) && Before(b, a))
  {
  }

  lemma MinExists(ks: set<Version>)
    requires ks != {}
    ensures exists v :: v in ks && forall w :: w in ks ==> !Before(w, v)
  {
    var v := MinOf(ks);
  }

  /** A least version of a non-empty set. */
  lemma MinOf(ks: set<Version>) returns (v: Version)
    requires ks != {}
    ensures v in ks && forall w :: w in ks ==> !Before(w, v)
    decreases |ks|
  {
    var x :| x in ks;
    if ks == {x} {
      return x;
    }
    var u := MinOf(ks - {x});
    if Before(x, u) {
      forall w | w in ks ensures !Before(w, x) {
        if w != x {
          assert !Before(w, u);
        }
      }
      return x;
    }
    return u;
  }

  /** The versions of a set in ascending order: the order sort.Slice leaves maps.Keys in. */
  ghost function SortedOf(ks: set<Version>): (s: seq<Version>)
    ensures Ascending(s) && forall v :: v in s <==> v in ks
    decreases |ks|
  {
    if ks == {} then []
    else
      MinExists(ks);
      var v :| v in ks && forall w :: w in ks ==> !Before(w, v);
      var rest := SortedOf(ks - {v});
      assert forall q :: 0 <= q < |rest| ==> rest[q] != v && !Before(rest[q], v);
      [v] + rest
  }

  /** At most one strictly ascending sequence holds a given set of versions. */
  lemma {:induction false} AscendingUnique(s: seq<Version>, t: seq<Version>)
    requires Ascending(s) && Ascending(t) && forall v :: v in s <==> v in t
    ensures s == t
    decreases |s|
  {
    if t != [] {
      assert t[0] in t;
    }
    if s != [] {
      assert s[0] in s;
      assert t != [];
      assert t[0] in t;
      var j :| 0 <= j < |t| && t[j] == s[0];
      var i :| 0 <= i < |s| && s[i] == t[0];
      if i > 0 && j > 0 {
        BeforeTotal(s[0], t[0]);
        assert false;
      }
      assert s[0] == t[0];
      forall v ensures v in s[1..] <==> v in t[1..] {
        if v in s[1..] {
          var k :| 0 <= k < |s[1..]| && s[1..][k] == v;
          assert Before(s[0], s[k + 1]);
          assert s[k + 1] in s;
          var j :| 0 <= j < |t| && t[j] == v;
          assert j != 0;
          assert t[1..][j - 1] == v;
        }
        if v in t[1..] {
          var k :| 0 <= k < |t[1..]| && t[1..][k] == v;
          assert Before(t[0], t[k + 1]);
          assert t[k + 1] in t;
          var j :| 0 <= j < |s| && s[j] == v;
          assert j != 0;
          assert s[1..][j - 1] == v;
        }
      }
      AscendingUnique(s[1..], t[1..]);
      assert s == [s[0]] + s[1..];
      assert t == [t[0]] + t[1..];
    }
  }

  /** maps.Keys then sort.Slice: the versions of the map, in ascending order. */
  method SortKeys<D>(m: map<Version, D>) returns (keys: seq<Version>)
    ensures keys == SortedOf(m.Keys)
  {
    var a := KeysArray(m.Keys);
    SortVersions(a);
    keys := a[..];
    SortedSetOrder(keys, m.Keys);
  }

  /** maps.Keys: every version of the set once, in some order. */
  method KeysArray(ks: set<Version>) returns (a: array<Version>)
    ensures fresh(a)
    ensures forall v :: multiset(a[..])[v] == (if v in ks then 1 else 0)
  {
    a := new Version[|ks|](_ => Version(0, 0, 0));
    var rest := ks;
    var i := 0;
    while rest != {}
      invariant 0 <= i <= a.Length && i + |rest| == a.Length
      invariant rest <= ks
      invariant forall v :: multiset(a[..i])[v] == (if v in ks && v !in rest then 1 else 0)
      decreases |rest|
    {
      var k :| k in rest;
      a[i] := k;
      assert a[..i + 1] == a[..i] + [k];
      rest := rest - {k};
      i := i + 1;
    }
    assert a[..i] == a[..];
  }

  /** A sorted sequence holding each version of a set once is that set in ascending order. */
  lemma SortedSetOrder(keys: seq<Version>, ks: set<Version>)
    requires Sorted(keys) && forall v :: multiset(keys)[v] == (if v in ks then 1 else 0)
    ensures keys == SortedOf(ks)
  {
    SortedDistinct(keys);
    forall v ensures v in keys <==> v in SortedOf(ks) {
      assert v in keys <==> multiset(keys)[v] > 0;
    }
    AscendingUnique(keys, SortedOf(ks));
  }

  /** What mergeLayoutFiles leaves in outputData, or why it stops. */
  ghost function MergeSpec<D>(inputs: seq<string>, read: string -> Result<WithVersion<D>, string>): Result<map<string, D>, MergeError>
  {
    match Collected(inputs, read)
    case Err(e) => Err(e)
    case Ok(m) => if m == map[] then Err(NoVersions) else Ok(Merged(SortedOf(m.Keys), m))
  }

  /**
   * mergeLayoutFiles without the file writing: read every input, sort the
   * versions and merge runs of equal layouts. With no version at all the
   * final addVersionRange dereferences a nil version; that panic is the
   * NoVersions error here.
   */
  method MergeLayoutFiles<D(==)>(inputs: seq<string>, read: string -> Result<WithVersion<D>, string>) returns (r: Result<map<string, D>, MergeError>)
    ensures r == MergeSpec(inputs, read)
  {
    var collected := CollectLayouts(inputs, read);
    if collected.Err? {
      return Err(collected.error);
    }
    var versionedLayouts := collected.value;
    var versionKeys := SortKeys(versionedLayouts);
    if |versionKeys| == 0 {
      assert forall v :: v !in versionKeys;
      assert versionedLayouts.Keys == {};
      assert versionedLayouts == map[];
      return Err(NoVersions);
    }
    assert versionedLayouts != map[] by {
      assert versionKeys[0] in versionedLayouts.Keys;
    }
    var outputData := GroupRanges(versionKeys, versionedLayouts);
    return Ok(outputData);
  }

  /** Files that read give a non-empty set of versions, so the nil-version panic needs an empty input list. */
  lemma NoVersionsOnlyWhenEmpty<D>(inputs: seq<string>, read: string -> Result<WithVersion<D>, string>)
    ensures MergeSpec(inputs, read) == Err(NoVersions) <==> inputs == [] 
  {
    LaterFileWins(inputs, read);
    if inputs != [] && Collected(inputs, read).Ok? {
      assert HasVersion(inputs, read, 0, read(inputs[0]).value.version);
      assert read(inputs[0]).value.version in Collected(inputs, read).value;
      assert Collected(inputs, read).value != map[];
    }
  }

  function ExampleKeys(): seq<Version> { [Version(3, 10, 0), Version(3, 10, 1), Version(3, 11, 0)] }

  function ExampleData(): map<Version, int> { map[Version(3, 10, 0) := 1, Version(3, 10, 1) := 1, Version(3, 11, 0) := 2] }

  const ExampleSpanKey: string := "3.10.0 - 3.10.1"
  const ExampleExactKey: string := "= 3.11.0"

  /** Two Python patch releases sharing a layout and a minor release with another one. */
  lemma MergeExample()
    ensures Merged(ExampleKeys(), ExampleData()) == map[ExampleSpanKey := 1, ExampleExactKey := 2]
  {
    var keys := ExampleKeys();
    var rs: seq<Span<int>> := [Span(0, 2, 1), Span(2, 3, 2)];
    ExampleRuns();
    assert Merged(keys, ExampleData()) == Assign(Entries(keys, rs));
    ExampleEntries();
    var es: seq<(string, int)> := [(ExampleSpanKey, 1), (ExampleExactKey, 2)];
    assert es[..1][..0] == [];
    assert Assign(es[..1]) == map[ExampleSpanKey := 1];
    assert Assign(es) == map[ExampleSpanKey := 1][ExampleExactKey := 2];
  }

  lemma ExampleRuns()
    ensures RunsOf(Datas(ExampleKeys(), ExampleData())) == [Span(0, 2, 1), Span(2, 3, 2)]
  {
    var ds := Datas(ExampleKeys(), ExampleData());
    assert ds == [1, 1, 2];
    assert ds[..2][..1] == [1];
    assert ds[..2] == [1, 1];
    assert RunsOf([1]) == [Span(0, 1, 1)] by { assert [1][..0] == []; }
    assert RunsOf(ds[..2]) == [Span(0, 2, 1)];
  }

  lemma ExampleEntries()
    ensures Entries(ExampleKeys(), [Span(0, 2, 1), Span(2, 3, 2)]) == [(ExampleSpanKey, 1), (ExampleExactKey, 2)]
  {
    var keys := ExampleKeys();
    assert Decimal.Format(10) == "10" by {
      assert Decimal.Format(1) == "1";
    }
    assert Decimal.Format(11) == "11" by {
      assert Decimal.Format(1) == "1";
    }
    assert Semver.Format(Convert(keys[0])) == "3.10.0";
    assert Semver.Format(Convert(keys[1])) == "3.10.1";
    assert Semver.Format(Convert(keys[2])) == "3.11.0";
    assert SpanKey(keys, Span(0, 2, 1)) == "3.10.0 - 3.10.1";
    assert SpanKey(keys, Span(2, 3, 2)) == "= 3.11.0";
  }

  // ----- the command line -----

  datatype CliError = Usage | NoInput | GlobFailed(reason: string) | NoFiles(pattern: string)

  /**
   * main's choice of input files: no argument at all prints the usage;
   * flags without a file are an error; a single argument is a glob pattern
   * that must match something; several arguments are the files themselves.
   */
  function SelectInputs(argc: nat, positional: seq<string>, glob: string -> Result<seq<string>, string>): (r: Result<seq<string>, CliError>)
    requires |positional| <= argc
    ensures r.Ok? ==> |r.value| > 0
    ensures |positional| > 1 ==> r == Ok(positional)
    ensures |positional| == 1 ==> (r.Ok? <==> glob(positional[0]).Ok? && glob(positional[0]).value != [])
    ensures |positional| == 1 && r.Ok? ==> r.value == glob(positional[0]).value
    ensures positional == [] ==> r == Err(if argc == 0 then Usage else NoInput)
  {
    if argc == 0 then Err(Usage)
    else if positional == [] then Err(NoInput)
    else if |positional| == 1 then
      match glob(positional[0])
      case Err(e) => Err(GlobFailed(e))
      case Ok(matches) => if matches == [] then Err(NoFiles(positional[0])) else Ok(matches)
    else Ok(positional)
  }

  /** The output directory: "." when the flag is empty. */
  function OutputDir(flag: string): (d: string)
    ensures d != "" && (flag != "" ==> d == flag)
  {
    if flag == "" then "." else flag
  }
}
