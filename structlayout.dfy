/**
 * cmd/structlayout/structlayout.go: the command that, for a runtime name and a
 * version, picks the runtime's layout mapper (and, for Python, its
 * initial-state mapper), and writes the layouts extracted from an ELF file's
 * DWARF data under an output directory.
 *
 * Reading DWARF data, the layout extraction and writing of the layout file,
 * and the steps of the initial-state file after datamap.New are parameters:
 * each says whether that step succeeds. The Ruby mapper lookup is a parameter
 * too (ruby.DataMapForLayout is not part of this model).
 */
module StructLayout {
  import opened Wrappers
  import Strs
  import Decimal
  import Semver
  import Datamap
  import PythonDatamap
  import PythonInitialState
  import Packages

  // ----- sanitizeIdentifier -----

  /** sanitizeIdentifier: every '.' becomes '_', then one leading 'v' is dropped. */
  function SanitizeIdentifier(id: string): (r: string)
    ensures '.' !in r
    ensures var off := if id != [] && id[0] == 'v' then 1 else 0;
      |r| == |id| - off &&
      forall i :: 0 <= i < |r| ==> r[i] == (if id[i + off] == '.' then '_' else id[i + off])
  {
    var replaced := Strs.ReplaceChar(id, '.', '_');
    assert Strs.HasPrefix(replaced, "v") <==> id != [] && id[0] == 'v' by {
      if id != [] { assert replaced[..1] == [replaced[0]]; }
    }
    Strs.TrimPrefix(replaced, "v")
  }

  /** A leading 'v' does not change the file name: "v3.9.5" and "3.9.5" share one. */
  lemma SanitizeIgnoresV(s: string)
    requires s == [] || s[0] != 'v'
    ensures SanitizeIdentifier("v" + s) == SanitizeIdentifier(s)
  {
    var a, b := SanitizeIdentifier("v" + s), SanitizeIdentifier(s);
    assert |a| == |b|;
    forall i | 0 <= i < |a| ensures a[i] == b[i] {
      assert ("v" + s)[i + 1] == s[i];
    }
  }

  /** The dots and underscores of a version are not told apart either. */
  lemma SanitizeCollisions()
    ensures SanitizeIdentifier("v3.9.5") == SanitizeIdentifier("3.9.5") == SanitizeIdentifier("3_9_5") == "3_9_5"
  {
    SanitizeIgnoresV("3.9.5");
    SanitizeDots();
    SanitizeKeeps("3_9_5");
  }

  lemma SanitizeDots()
    ensures SanitizeIdentifier("3.9.5") == "3_9_5"
  {
    var r := SanitizeIdentifier("3.9.5");
    forall i | 0 <= i < 5 ensures r[i] == "3_9_5"[i] {
    }
  }

  /** A name without dots or a leading 'v' is its own sanitized form. */
  lemma SanitizeKeeps(s: string)
    requires '.' !in s && (s == [] || s[0] != 'v')
    ensures SanitizeIdentifier(s) == s
  {
    var r := SanitizeIdentifier(s);
    forall i | 0 <= i < |s| ensures r[i] == s[i] {
    }
  }

  /** A plain "maj.min.patch" version becomes "maj_min_patch". */
  lemma SanitizeTriple(v: Semver.Version)
    ensures SanitizeIdentifier(Semver.TripleString(v)) ==
      Decimal.Format(v.major) + "_" + Decimal.Format(v.minor) + "_" + Decimal.Format(v.patch)
  {
    var a, b, c := Decimal.Format(v.major), Decimal.Format(v.minor), Decimal.Format(v.patch);
    DigitsOnly(a); DigitsOnly(b); DigitsOnly(c);
    var t := a + "_" + b + "_" + c;
    ReplaceAppend(a + "." + b + ".", c);
    ReplaceAppend(a + "." + b, ".");
    ReplaceAppend(a + ".", b);
    ReplaceAppend(a, ".");
    ReplaceNone(a); ReplaceNone(b); ReplaceNone(c);
    assert Strs.ReplaceChar(".", '.', '_') == "_";
    assert Strs.ReplaceChar(Semver.TripleString(v), '.', '_') == t;
    assert t[..1] == a[..1];
  }

  lemma {:induction false} ReplaceAppend(x: string, y: string)
    ensures Strs.ReplaceChar(x + y, '.', '_') == Strs.ReplaceChar(x, '.', '_') + Strs.ReplaceChar(y, '.', '_')
  {
    var l, r := Strs.ReplaceChar(x + y, '.', '_'), Strs.ReplaceChar(x, '.', '_') + Strs.ReplaceChar(y, '.', '_');
    assert |l| == |r|;
    forall i | 0 <= i < |l| ensures l[i] == r[i] {
      if i < |x| { assert (x + y)[i] == x[i]; } else { assert (x + y)[i] == y[i - |x|]; }
    }
  }

  lemma ReplaceNone(x: string)
    requires '.' !in x
    ensures Strs.ReplaceChar(x, '.', '_') == x
  {
    var l := Strs.ReplaceChar(x, '.', '_');
    assert forall i :: 0 <= i < |x| ==> l[i] == x[i];
  }

  lemma DigitsOnly(s: string)
    requires Decimal.IsNumeric(s)
    ensures '.' !in s && '_' !in s && s[0] != 'v'
  {
    forall i | 0 <= i < |s| ensures s[i] != '.' && s[i] != '_' && s[i] != 'v' {
      assert Decimal.IsDigit(s[i]);
    }
  }

  /** Different "maj.min.patch" versions never share a sanitized name. */
  lemma SanitizedTriplesDistinct(a: Semver.Version, b: Semver.Version)
    requires SanitizeIdentifier(Semver.TripleString(a)) == SanitizeIdentifier(Semver.TripleString(b))
    ensures a.major == b.major && a.minor == b.minor && a.patch == b.patch
  {
    var a1, a2, a3 := Decimal.Format(a.major), Decimal.Format(a.minor), Decimal.Format(a.patch);
    var b1, b2, b3 := Decimal.Format(b.major), Decimal.Format(b.minor), Decimal.Format(b.patch);
    SanitizeTriple(a);
    SanitizeTriple(b);
    DigitsOnly(a1); DigitsOnly(a2); DigitsOnly(a3);
    DigitsOnly(b1); DigitsOnly(b2); DigitsOnly(b3);
    assert a1 + ['_'] + a2 + ['_'] + a3 == b1 + ['_'] + b2 + ['_'] + b3;
    Packages.SplitSep3(a1, a2, a3, b1, b2, b3, '_');
    Decimal.FormatInjective(a.major, b.major);
    Decimal.FormatInjective(a.minor, b.minor);
    Decimal.FormatInjective(a.patch, b.patch);
  }

  // ----- isNil -----

  /** The reflect kinds isNil distinguishes; every other kind is Other. */
  datatype Kind = Chan | Func | Map | Pointer | UnsafePointer | Interface | Slice | Other

  /** A value of type any: the untyped nil, or a value of some kind that may itself be a nil of that kind. */
  datatype Any = UntypedNil | Value(kind: Kind, nilOfKind: bool)

  /** The kinds whose values can be nil. */
  predicate Nilable(k: Kind)
  {
    k != Other
  }

  /**
   * isNil: the untyped nil is nil, and so is a nil channel, function, map,
   * pointer, unsafe pointer, interface or slice; a value of any other kind never is.
   */
  function IsNil(v: Any): (r: bool)
    ensures v == UntypedNil ==> r
    ensures v.Value? && !Nilable(v.kind) ==> !r
    ensures v.Value? && Nilable(v.kind) ==> (r <==> v.nilOfKind)
  {
    match v
    case UntypedNil => true
    case Value(k, n) =>
      match k
      case Chan => n
      case Func => n
      case Map => n
      case Pointer => n
      case UnsafePointer => n
      case Interface => n
      case Slice => n
      case Other => false
  }

  /** The argument datamap.New sees, viewed as an any. */
  function AsAny(a: Datamap.Arg): Any
  {
    match a
    case NilArg => UntypedNil
    case NonPointer(_) => Value(Other, false)
    case PointerTo(_) => Value(Pointer, false)
  }

  /** isNil on an argument of New holds exactly for the nil argument. */
  lemma IsNilArg(a: Datamap.Arg)
    ensures IsNil(AsAny(a)) <==> a.NilArg?
  {
  }

  // ----- main -----

  /** The layout mapper main selects; Ruby's is not part of this model. */
  datatype LayoutMap = PythonLayout(mapper: PythonDatamap.Mapper) | RubyLayout

  /** What a step of the initial-state file fails on. */
  datatype StateError = NewFailed(error: Datamap.NewError) | WriteFailed

  /** How main ends. */
  datatype Outcome =
    | Usage                                           // fewer than three arguments
    | InvalidRuntime(runtime: string)                 // "invalid offset map module"
    | VersionPanic(version: string)                   // semver.MustParse panics
    | UnknownVersion(version: string)                 // no layout mapper
    | DwarfFailed(input: string)                      // "failed to read DWARF data"
    | LayoutFailed(output: string)                    // "failed to write layout"
    | StateFailed(layout: string, output: string, reason: StateError)  // "failed to write initial state"
    | Written(files: seq<string>)                     // the files written, in order

  /** The process exit status: 0 on success, 2 for a panic, 1 otherwise. */
  function ExitCode(o: Outcome): (code: int)
    ensures code == 0 <==> o.Written?
  {
    match o
    case Written(_) => 0
    case VersionPanic(_) => 2
    case _ => 1
  }

  /** The runtimes main knows. */
  const Runtimes: set<string> := {"python", "ruby", "libc"}

  /** The output directory: the given one, or pkg/<runtime> for Python and Ruby. */
  function OutputDir(runtime: string, given: string): string
  {
    if given != "" then given
    else if runtime == "python" then "pkg/python"
    else if runtime == "ruby" then "pkg/ruby"
    else ""
  }

  /** dir/kind/<runtime>_<sanitized version>.yaml */
  function OutputPath(dir: string, kind: string, runtime: string, version: string): string
  {
    Strs.Join([dir, kind, runtime + "_" + SanitizeIdentifier(version) + ".yaml"])
  }

  /** The layout mapper main selects for a runtime and version, if any. */
  function LayoutMapFor(runtime: string, version: string, rubyLayout: string -> bool): Option<LayoutMap>
  {
    if runtime == "python" then
      match PythonDatamap.DataMapForLayout(version)
      case Found(m) => Some(PythonLayout(m))
      case _ => None
    else if runtime == "ruby" && rubyLayout(version) then Some(RubyLayout)
    else None
  }

  /** The initial-state map main selects: a pointer to Python's mapper struct, or nil. */
  function InitialStateMapFor(runtime: string, version: string): Datamap.Arg
  {
    if runtime == "python" then
      match PythonInitialState.DataMapForInitialState(version)
      case FoundState(m) => Datamap.PointerTo(PythonInitialState.StateType(m))
      case _ => Datamap.NilArg
    else Datamap.NilArg
  }

  /** main, as a specification: the outcome for argument count, flags and the outcomes of the steps. */
  function Behaviour(argc: nat, runtime: string, version: string, givenOutputDir: string, input: string,
                     rubyLayout: string -> bool, dwarfOk: string -> bool,
                     layoutWritten: string -> bool, stateWritten: string -> bool): Outcome
  {
    if argc < 4 then Usage
    else if runtime !in Runtimes then InvalidRuntime(runtime)
    else if runtime == "python" && Semver.Parse(version).None? then VersionPanic(version)
    else
      Processed(runtime, version, OutputDir(runtime, givenOutputDir), input, LayoutMapFor(runtime, version, rubyLayout),
        InitialStateMapFor(runtime, version), dwarfOk, layoutWritten, stateWritten)
  }

  /** What main does once the mappers and the output directory are chosen. */
  function Processed(runtime: string, version: string, dir: string, input: string,
                     layoutMap: Option<LayoutMap>, stateMap: Datamap.Arg,
                     dwarfOk: string -> bool, layoutWritten: string -> bool, stateWritten: string -> bool): Outcome
  {
    if layoutMap.None? then UnknownVersion(version)
    else if !dwarfOk(input) then DwarfFailed(input)
    else
      var layout := OutputPath(dir, "layout", runtime, version);
      if !layoutWritten(layout) then LayoutFailed(layout)
      else if IsNil(AsAny(stateMap)) then Written([layout])
      else
        var output := OutputPath(dir, "initialstate", runtime, version);
        match Datamap.Build(stateMap)
        case Err(e) => StateFailed(layout, output, NewFailed(e))
        case Ok(_) => if stateWritten(output) then Written([layout, output]) else StateFailed(layout, output, WriteFailed)
  }

  /**
   * main: check the argument count, select the mappers and the output
   * directory by runtime, then write the layout file and, when there is an
   * initial-state map, the initial-state file.
   */
  method Run(argc: nat, runtime: string, version: string, givenOutputDir: string, input: string,
             rubyLayout: string -> bool, dwarfOk: string -> bool,
             layoutWritten: string -> bool, stateWritten: string -> bool) returns (o: Outcome)
    ensures o == Behaviour(argc, runtime, version, givenOutputDir, input, rubyLayout, dwarfOk, layoutWritten, stateWritten)
  {
    if argc < 4 {
      return Usage;
    }
    var layoutMap: Option<LayoutMap> := None;
    var initialStateMap: Datamap.Arg := Datamap.NilArg;
    var outputDir := givenOutputDir;
    if runtime == "python" {
      match PythonDatamap.DataMapForLayout(version) {
        case Unparsable =>
          return VersionPanic(version);
        case NoMapper =>
        case Found(m) =>
          layoutMap := Some(PythonLayout(m));
      }
      match PythonInitialState.DataMapForInitialState(version) {
        case FoundState(m) =>
          initialStateMap := Datamap.PointerTo(PythonInitialState.StateType(m));
        case _ =>
      }
      if outputDir == "" {
        outputDir := "pkg/python";
      }
    } else if runtime == "ruby" {
      if rubyLayout(version) {
        layoutMap := Some(RubyLayout);
      }
      if outputDir == "" {
        outputDir := "pkg/ruby";
      }
    } else if runtime != "libc" {
      return InvalidRuntime(runtime);
    }
    o := Process(runtime, version, outputDir, input, layoutMap, initialStateMap, dwarfOk, layoutWritten, stateWritten);
  }

  /** The second half of main: the DWARF data, the layout file, then the initial-state file unless its map is nil. */
  method Process(runtime: string, version: string, outputDir: string, input: string,
                 layoutMap: Option<LayoutMap>, initialStateMap: Datamap.Arg,
                 dwarfOk: string -> bool, layoutWritten: string -> bool, stateWritten: string -> bool) returns (o: Outcome)
    ensures o == Processed(runtime, version, outputDir, input, layoutMap, initialStateMap, dwarfOk, layoutWritten, stateWritten)
  {
    if layoutMap == None {
      return UnknownVersion(version);
    }
    if !dwarfOk(input) {
      return DwarfFailed(input);
    }
    var output := OutputPath(outputDir, "layout", runtime, version);
    if !layoutWritten(output) {
      return LayoutFailed(output);
    }
    if IsNil(AsAny(initialStateMap)) {
      return Written([output]);
    }
    var layout := output;
    output := OutputPath(outputDir, "initialstate", runtime, version);
    var dm := Datamap.New(initialStateMap);
    if dm.Err? {
      return StateFailed(layout, output, NewFailed(dm.error));
    }
    if !stateWritten(output) {
      return StateFailed(layout, output, WriteFailed);
    }
    return Written([layout, output]);
  }

  // ----- properties of main -----

  /**
   * The only runs that write anything are Python and Ruby runs with a
   * mapper for the version; libc always stops at "unknown version".
   */
  lemma WrittenNeedsMapper(argc: nat, runtime: string, version: string, givenOutputDir: string, input: string,
                           rubyLayout: string -> bool, dwarfOk: string -> bool,
                           layoutWritten: string -> bool, stateWritten: string -> bool)
    ensures var o := Behaviour(argc, runtime, version, givenOutputDir, input, rubyLayout, dwarfOk, layoutWritten, stateWritten);
      (argc >= 4 && runtime == "libc" ==> o == UnknownVersion(version)) &&
      (o.Written? ==>
        argc >= 4 && dwarfOk(input) &&
        ((runtime == "python" && PythonDatamap.DataMapForLayout(version).Found?) ||
         (runtime == "ruby" && rubyLayout(version))))
  {
  }

  /**
   * A successful run writes exactly the layout file, under the output
   * directory's "layout" directory: the Python initial-state mappers are
   * always rejected by datamap.New, so no run reaches the initial-state file.
   */
  lemma WrittenIsLayoutOnly(argc: nat, runtime: string, version: string, givenOutputDir: string, input: string,
                            rubyLayout: string -> bool, dwarfOk: string -> bool,
                            layoutWritten: string -> bool, stateWritten: string -> bool)
    ensures var o := Behaviour(argc, runtime, version, givenOutputDir, input, rubyLayout, dwarfOk, layoutWritten, stateWritten);
      o.Written? ==> o.files == [OutputPath(OutputDir(runtime, givenOutputDir), "layout", runtime, version)]
  {
    match PythonInitialState.DataMapForInitialState(version)
    case FoundState(m) =>
      PythonInitialState.NewRejectsState(m);
    case _ =>
  }

  /**
   * When Python has an initial-state mapper for the version and the layout
   * file was written, main fails on the initial-state file with New's
   * rejection of the two-level tag.
   */
  lemma PythonStateRejected(argc: nat, version: string, givenOutputDir: string, input: string,
                            rubyLayout: string -> bool, dwarfOk: string -> bool,
                            layoutWritten: string -> bool, stateWritten: string -> bool)
    requires argc >= 4 && PythonDatamap.DataMapForLayout(version).Found? && dwarfOk(input)
    requires PythonInitialState.DataMapForInitialState(version).FoundState?
    requires layoutWritten(OutputPath(OutputDir("python", givenOutputDir), "layout", "python", version))
    ensures var dir := OutputDir("python", givenOutputDir);
      Behaviour(argc, "python", version, givenOutputDir, input, rubyLayout, dwarfOk, layoutWritten, stateWritten) ==
        StateFailed(OutputPath(dir, "layout", "python", version), OutputPath(dir, "initialstate", "python", version),
          NewFailed(Datamap.GenerateFailed(Datamap.InvalidOffsetTag("_PyRuntimeState.interpreters.head"))))
  {
    PythonInitialState.NewRejectsState(PythonInitialState.DataMapForInitialState(version).mapper);
  }

  /** The initial-state step is skipped exactly when there is no initial-state mapper. */
  lemma StateSkippedIffNoMapper(runtime: string, version: string)
    ensures IsNil(AsAny(InitialStateMapFor(runtime, version))) <==>
      !(runtime == "python" && PythonInitialState.DataMapForInitialState(version).FoundState?)
  {
    IsNilArg(InitialStateMapFor(runtime, version));
  }

  /** Join of three elements whose last two are not empty. */
  lemma JoinThree(dir: string, kind: string, name: string)
    requires kind != "" && name != ""
    ensures Strs.Join([dir, kind, name]) == (if dir == "" then "" else dir + "/") + kind + "/" + name
  {
    Strs.JoinTwo(kind, name);
    if dir == "" {
      assert [dir, kind, name][1..] == [kind, name];
    } else {
      assert [dir, kind, name] == [dir] + [kind, name];
      Strs.JoinOne(dir);
      assert Strs.NonEmpty([dir]) == [dir] + Strs.NonEmpty([]) by { assert [dir][1..] == []; }
      assert Strs.NonEmpty([kind, name]) != [] by { assert [kind, name][1..] == [name]; }
      Strs.JoinAppend([dir], [kind, name]);
    }
  }

  /** The layout file and the initial-state file of one run are different files. */
  lemma OutputsDistinct(dir: string, runtime: string, version: string)
    ensures OutputPath(dir, "layout", runtime, version) != OutputPath(dir, "initialstate", runtime, version)
  {
    var name := runtime + "_" + SanitizeIdentifier(version) + ".yaml";
    var p := if dir == "" then "" else dir + "/";
    JoinThree(dir, "layout", name);
    JoinThree(dir, "initialstate", name);
    assert (p + "layout" + "/" + name)[|p|] == 'l';
    assert (p + "initialstate" + "/" + name)[|p|] == 'i';
  }

  /** Runs for different "maj.min.patch" versions of one runtime write to different files. */
  lemma TripleOutputsDistinct(dir: string, kind: string, runtime: string, a: Semver.Version, b: Semver.Version)
    requires kind != ""
    requires OutputPath(dir, kind, runtime, Semver.TripleString(a)) == OutputPath(dir, kind, runtime, Semver.TripleString(b))
    ensures a.major == b.major && a.minor == b.minor && a.patch == b.patch
  {
    var sa, sb := SanitizeIdentifier(Semver.TripleString(a)), SanitizeIdentifier(Semver.TripleString(b));
    var na, nb := runtime + "_" + sa + ".yaml", runtime + "_" + sb + ".yaml";
    var p := (if dir == "" then "" else dir + "/") + kind + "/";
    JoinThree(dir, kind, na);
    JoinThree(dir, kind, nb);
    assert p + na == p + nb;
    Packages.PrefixCancel(p, na, nb);
    assert sa == na[|runtime| + 1..|na| - 5];
    assert sb == nb[|runtime| + 1..|nb| - 5];
    SanitizedTriplesDistinct(a, b);
  }
}
