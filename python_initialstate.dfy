/**
 * The Python initial-state mappers: the offsets of the interpreter list head,
 * the current thread state and the thread-specific-storage key inside the
 * runtime's static globals, which version gets which mapper, and the record
 * each mapper builds from what extraction wrote into its fields.
 */
module PythonInitialState {
  import opened Wrappers
  import Semver
  import opened Datamap
  import RuntimeData
  import PythonDatamap

  datatype StateMapper = State38 | State312

  /** "3.7.x - 3.11.x" and ">=3.12.0-0". */
  const Above37: Semver.Constraint := Semver.WildcardRange(3, 7, 3, 11)
  const Above312: Semver.Constraint := Semver.AtLeast(Semver.Version(3, 12, 0, "0", ""))

  /** The switch of DataMapForInitialState: the 3.7 range is tried first. */
  function StateFor(v: Semver.Version): Option<StateMapper>
  {
    if Semver.Check(Above37, v) then Some(State38)
    else if Semver.Check(Above312, v) then Some(State312)
    else None
  }

  /** Which versions get which initial-state mapper. */
  lemma StateForMeaning(v: Semver.Version)
    requires Semver.Valid(v)
    ensures StateFor(v) == Some(State38) <==> v.pre == "" && v.major == 3 && 7 <= v.minor <= 11
    ensures StateFor(v) == Some(State312) <==> v.major > 3 || (v.major == 3 && v.minor >= 12)
    ensures StateFor(v).None? <==>
      v.major < 3 || (v.major == 3 && v.minor < 7) || (v.pre != "" && v.major == 3 && 7 <= v.minor <= 11)
  {
    Semver.AtLeastZeroPre(v, Semver.Version(3, 12, 0, "0", ""));
  }

  /** 2.7.15, 3.3.7 and 3.6.6 have no initial state; neither has a 3.11 pre-release. */
  lemma NoStateWitnesses()
    ensures StateFor(Semver.Version(2, 7, 15, "", "")).None?
    ensures StateFor(Semver.Version(3, 3, 7, "", "")).None?
    ensures StateFor(Semver.Version(3, 6, 6, "", "")).None?
    ensures StateFor(Semver.Version(3, 11, 0, "rc1", "")).None?
  {
  }

  /** A 3.13 pre-release gets the 3.12 initial state, as ">= 3.12.0-0" admits pre-releases. */
  lemma PreReleaseState()
    ensures StateFor(Semver.Version(3, 13, 0, "a1", "")) == Some(State312)
  {
    Semver.AtLeastZeroPre(Semver.Version(3, 13, 0, "a1", ""), Semver.Version(3, 12, 0, "0", ""));
  }

  /** The outcome of DataMapForInitialState: MustParse panics on an unparsable version. */
  datatype StateDispatch = Unparsable | NoState | FoundState(mapper: StateMapper)

  function DataMapForInitialState(s: string): (r: StateDispatch)
    ensures r == Unparsable <==> Semver.Parse(s).None?
    ensures r.FoundState? ==> StateFor(Semver.Parse(s).value) == Some(r.mapper)
    ensures r == NoState ==> StateFor(Semver.Parse(s).value).None?
  {
    match Semver.Parse(s)
    case None => Unparsable
    case Some(v) => match StateFor(v)
      case None => NoState
      case Some(m) => FoundState(m)
  }

  // ----- the records -----

  datatype PyTSSKey = PyTSSKey(key: int, size: int)

  /** InitialState: the state kept in the runtime's static globals. */
  datatype InitialState = InitialState(interpreterHead: int, threadStateCurrent: int, autoTSSKey: int, tss: PyTSSKey)

  /** The mapper structs with their tags, in declaration order. */
  function StateType(m: StateMapper): GoType
  {
    match m
    case State38 => GoType("initialState38", "python.initialState38", StructKind, [
      GoField("InterpreterHead", Int64T, Tagged("offsetof", "_PyRuntimeState.interpreters.head")),
      GoField("ThreadStateCurrent", Int64T, Tagged("offsetof", "_PyRuntimeState.gilstate.tstate_current")),
      GoField("AutoTSSKey", Int64T, Tagged("offsetof", "_PyRuntimeState.gilstate.autoTSSkey")),
      GoField("PyTSSKey", Int64T, Tagged("offsetof", "_Py_tss_t._key")),
      GoField("PyTSSSize", Int64T, Tagged("sizeof", "_Py_tss_t"))])
    case State312 => GoType("initialState312", "python.initialState312", StructKind, [
      GoField("InterpreterHead", Int64T, Tagged("offsetof", "_PyRuntimeState.interpreters.head")),
      GoField("AutoTSSKey", Int64T, Tagged("offsetof", "_PyRuntimeState.autoTSSkey")),
      GoField("PyTSSKey", Int64T, Tagged("offsetof", "_Py_tss_t._key")),
      GoField("PyTSSSize", Int64T, Tagged("sizeof", "_Py_tss_t"))])
  }

  /** Field `name` of mapper m is an int64 tagged `key:"q"`. */
  predicate TaggedField(m: StateMapper, name: string, key: string, q: string)
  {
    GoField(name, Int64T, Tagged(key, q)) in StateType(m).fields
  }

  /** InitialState(): the record built from the values extraction left in the mapper's fields. */
  function InitialStateOf(m: StateMapper, vals: map<string, int>): InitialState
  {
    var g := (n: string) => PythonDatamap.Get(vals, n);
    match m
    case State38 => InitialState(g("InterpreterHead"), g("ThreadStateCurrent"), g("AutoTSSKey"), PyTSSKey(g("PyTSSKey"), g("PyTSSSize")))
    case State312 => InitialState(g("InterpreterHead"), PythonDatamap.DoesNotExist, g("AutoTSSKey"), PyTSSKey(g("PyTSSKey"), g("PyTSSSize")))
  }

  /** 3.12 has no current-thread-state global: the record says -1. */
  lemma State312NoCurrent(vals: map<string, int>)
    ensures InitialStateOf(State312, vals).threadStateCurrent == PythonDatamap.DoesNotExist
    ensures forall f :: f in StateType(State312).fields ==> f.name != "ThreadStateCurrent"
  {
  }

  /** Both mappers copy the interpreter head and the auto TSS key from the offsets their tags ask for; 3.8 also the current thread state. */
  lemma CopiedState(m: StateMapper, vals: map<string, int>)
    ensures TaggedField(m, "InterpreterHead", "offsetof", "_PyRuntimeState.interpreters.head") &&
      InitialStateOf(m, vals).interpreterHead == PythonDatamap.Get(vals, "InterpreterHead")
    ensures TaggedField(m, "AutoTSSKey", "offsetof", if m == State38 then "_PyRuntimeState.gilstate.autoTSSkey" else "_PyRuntimeState.autoTSSkey") &&
      InitialStateOf(m, vals).autoTSSKey == PythonDatamap.Get(vals, "AutoTSSKey")
    ensures m == State38 ==>
      TaggedField(m, "ThreadStateCurrent", "offsetof", "_PyRuntimeState.gilstate.tstate_current") &&
      InitialStateOf(m, vals).threadStateCurrent == PythonDatamap.Get(vals, "ThreadStateCurrent")
  {
  }

  /** In both variants the TSS key is the offset of _Py_tss_t._key and its size is sizeof(_Py_tss_t). */
  lemma TSSFields(m: StateMapper, vals: map<string, int>)
    ensures TaggedField(m, "PyTSSKey", "offsetof", "_Py_tss_t._key") && InitialStateOf(m, vals).tss.key == PythonDatamap.Get(vals, "PyTSSKey")
    ensures TaggedField(m, "PyTSSSize", "sizeof", "_Py_tss_t") && InitialStateOf(m, vals).tss.size == PythonDatamap.Get(vals, "PyTSSSize")
  {
  }

  /** A struct whose first field asks for the two-level member a.b.c is rejected by New. */
  lemma TwoLevelFirstRejected(t: GoType, a: string, b: string, c: string)
    requires t.kind == StructKind && |t.fields| > 0 && '.' !in a && '.' !in b
    requires t.fields[0].tag == Tagged("offsetof", a + "." + b + "." + c)
    ensures Build(PointerTo(t)) == Err(GenerateFailed(InvalidOffsetTag(a + "." + b + "." + c)))
  {
    OffsetTag(a + "." + b + "." + c);
    StepTwoDots(t, [], 0, EmptyTable, a, b, c);
    var e := InvalidOffsetTag(a + "." + b + "." + c);
    assert GenFrom(t, [], 0, EmptyTable) == Err(e);
  }

  /**
   * The first tag of both mappers names a member two levels deep, which the
   * one-level New of pkg/datamap/datamap.go rejects.
   */
  lemma NewRejectsState(m: StateMapper)
    ensures Build(PointerTo(StateType(m))) == Err(GenerateFailed(InvalidOffsetTag("_PyRuntimeState.interpreters.head")))
  {
    var a, b, c := "_PyRuntimeState", "interpreters", "head";
    assert a + "." + b + "." + c == "_PyRuntimeState.interpreters.head";
    TwoLevelFirstRejected(StateType(m), a, b, c);
  }

  // ----- WithVersion -----

  /** InitialStateWithVersion. */
  datatype StateWithVersion = StateWithVersion(version: RuntimeData.Version, state: InitialState)

  /** "failed to parse version (v)". */
  datatype VersionError = ParseFailed(version: string)

  function WithVersion(version: string, st: InitialState): (r: Result<StateWithVersion, VersionError>)
    ensures r.Err? <==> Semver.Parse(version).None?
    ensures r.Err? ==> r.error == ParseFailed(version)
    ensures r.Ok? ==>
      r.value.state == st &&
      r.value.version.major == Semver.Parse(version).value.major &&
      r.value.version.minor == Semver.Parse(version).value.minor &&
      r.value.version.patch == Semver.Parse(version).value.patch
  {
    match Semver.Parse(version)
    case None => Err(ParseFailed(version))
    case Some(v) => Ok(StateWithVersion(RuntimeData.Version(v.major, v.minor, v.patch), st))
  }

  /** A rendered version comes back as its triple, pre-release and metadata dropped. */
  lemma WithVersionOfFormat(v: Semver.Version, st: InitialState)
    requires Semver.Valid(v)
    ensures WithVersion(Semver.Format(v), st) == Ok(StateWithVersion(RuntimeData.Version(v.major, v.minor, v.patch), st))
  {
    Semver.RoundTrip(v);
  }
}
