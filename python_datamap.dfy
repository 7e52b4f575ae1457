/**
 * The Python layout mappers: which mapper a CPython version gets, the DWARF
 * queries each mapper's struct tags ask for, and how each mapper's Layout
 * builds the published record from the extracted values (copying them,
 * adding two of them, or writing the -1 "does not exist" sentinel).
 *
 * A mapper struct filled by extraction is modelled by the map from its Go
 * field names to the values written into them; a field that was never
 * written keeps Go's zero value.
 */
module PythonDatamap {
  import opened Wrappers
  import Semver

  /** doesNotExist. */
  const DoesNotExist: int := -1

  datatype Mapper = Python27 | Python33To39 | Python310 | Python311 | Python312 | Python313

  // ----- the published record (header.go) -----

  datatype PyObject = PyObject(obType: int)
  datatype PyString = PyString(data: int, size: int)
  datatype PyTypeObject = PyTypeObject(tpName: int)
  datatype PyThreadState = PyThreadState(next: int, interp: int, frame: int, threadID: int, nativeThreadID: int, cFrame: int)
  datatype PyCFrame = PyCFrame(currentFrame: int)
  datatype PyInterpreterState = PyInterpreterState(tStateHead: int)
  datatype PyRuntimeState = PyRuntimeState(interpMain: int)
  datatype PyFrameObject = PyFrameObject(fBack: int, fCode: int, fLineno: int, fLocalsplus: int)
  datatype PyCodeObject = PyCodeObject(coFilename: int, coName: int, coVarnames: int, coFirstlineno: int)
  datatype PyTupleObject = PyTupleObject(obItem: int)

  datatype Layout = Layout(
    pyObject: PyObject, pyString: PyString, pyTypeObject: PyTypeObject, pyThreadState: PyThreadState,
    pyCFrame: PyCFrame, pyInterpreterState: PyInterpreterState, pyRuntimeState: PyRuntimeState,
    pyFrameObject: PyFrameObject, pyCodeObject: PyCodeObject, pyTupleObject: PyTupleObject)

  // ----- version dispatch -----

  /** The constraint each mapper is registered under. */
  function ConstraintOf(m: Mapper): Semver.Constraint
  {
    match m
    case Python27 => Semver.Wildcard(2, 7)
    case Python33To39 => Semver.WildcardRange(3, 3, 3, 9)
    case Python310 => Semver.Wildcard(3, 10)
    case Python311 => Semver.Wildcard(3, 11)
    case Python312 => Semver.Wildcard(3, 12)
    case Python313 => Semver.AtLeast(Semver.Version(3, 13, 0, "0", ""))
  }

  /** What the constraint of each mapper admits, for a version NewVersion can produce. */
  lemma ConstraintMeaning(m: Mapper, v: Semver.Version)
    requires Semver.Valid(v)
    ensures Semver.Check(ConstraintOf(m), v) <==>
      match m
      case Python27 => v.pre == "" && v.major == 2 && v.minor == 7
      case Python33To39 => v.pre == "" && v.major == 3 && 3 <= v.minor <= 9
      case Python310 => v.pre == "" && v.major == 3 && v.minor == 10
      case Python311 => v.pre == "" && v.major == 3 && v.minor == 11
      case Python312 => v.pre == "" && v.major == 3 && v.minor == 12
      case Python313 => v.major > 3 || (v.major == 3 && v.minor >= 13)
  {
    if m == Python313 {
      Semver.AtLeastZeroPre(v, Semver.Version(3, 13, 0, "0", ""));
    }
  }

  /** The six constraints are pairwise disjoint, so map iteration order cannot change the mapper. */
  lemma ConstraintsDisjoint(m1: Mapper, m2: Mapper, v: Semver.Version)
    requires Semver.Valid(v) && m1 != m2
    ensures !(Semver.Check(ConstraintOf(m1), v) && Semver.Check(ConstraintOf(m2), v))
  {
    ConstraintMeaning(m1, v);
    ConstraintMeaning(m2, v);
  }

  const Mappers: seq<Mapper> := [Python27, Python33To39, Python310, Python311, Python312, Python313]

  /** The first mapper, in table order, whose constraint admits v. */
  function FirstMatch(ms: seq<Mapper>, v: Semver.Version): (r: Option<Mapper>)
    ensures r.Some? ==> r.value in ms && Semver.Check(ConstraintOf(r.value), v)
    ensures r.None? ==> forall m :: m in ms ==> !Semver.Check(ConstraintOf(m), v)
  {
    if ms == [] then None
    else if Semver.Check(ConstraintOf(ms[0]), v) then Some(ms[0])
    else FirstMatch(ms[1..], v)
  }

  /** The outcome of DataMapForLayout: MustParse panics on an unparsable version. */
  datatype Dispatch = Unparsable | NoMapper | Found(mapper: Mapper)

  function DataMapForLayout(s: string): (r: Dispatch)
    ensures r == Unparsable <==> Semver.Parse(s).None?
    ensures r.Found? ==> Semver.Parse(s).Some? && Semver.Check(ConstraintOf(r.mapper), Semver.Parse(s).value)
    ensures r == NoMapper ==>
      Semver.Parse(s).Some? && forall m :: m in Mappers ==> !Semver.Check(ConstraintOf(m), Semver.Parse(s).value)
  {
    match Semver.Parse(s)
    case None => Unparsable
    case Some(v) => match FirstMatch(Mappers, v)
      case None => NoMapper
      case Some(m) => Found(m)
  }

  /** A parsable version gets exactly the one mapper whose constraint admits it, or none. */
  lemma DispatchUnique(s: string, m: Mapper)
    requires Semver.Parse(s).Some?
    ensures DataMapForLayout(s) == Found(m) <==> Semver.Check(ConstraintOf(m), Semver.Parse(s).value)
    ensures DataMapForLayout(s) == NoMapper <==> forall n: Mapper :: !Semver.Check(ConstraintOf(n), Semver.Parse(s).value)
  {
    var v := Semver.Parse(s).value;
    Semver.ParseValid(s);
    var r := FirstMatch(Mappers, v);
    if r.Some? && r.value != m {
      ConstraintsDisjoint(r.value, m, v);
    }
    if r.None? {
      forall n: Mapper ensures !Semver.Check(ConstraintOf(n), v) {
        assert n in Mappers by {
          match n {
            case Python27 => case Python33To39 => case Python310 =>
            case Python311 => case Python312 => case Python313 =>
          }
        }
      }
    } else {
      assert r.value in Mappers;
    }
  }

  /** 3.0 - 3.2 have no mapper; 3.13 pre-releases and later majors use the 3.13 one. */
  lemma DispatchGaps(v: Semver.Version)
    requires Semver.Valid(v)
    ensures v.major == 3 && v.minor <= 2 ==> FirstMatch(Mappers, v).None?
    ensures v.major >= 4 || (v.major == 3 && v.minor >= 13) ==> FirstMatch(Mappers, v) == Some(Python313)
  {
    forall m: Mapper ensures Semver.Check(ConstraintOf(m), v) ==> (m == Python313 <==> v.major >= 4 || (v.major == 3 && v.minor >= 13)) {
      ConstraintMeaning(m, v);
    }
    if v.major == 3 && v.minor <= 2 {
      forall m: Mapper ensures !Semver.Check(ConstraintOf(m), v) {
        ConstraintMeaning(m, v);
      }
    }
    if v.major >= 4 || (v.major == 3 && v.minor >= 13) {
      ConstraintMeaning(Python313, v);
    }
  }

  // ----- the struct tags -----

  datatype Op = Offsetof | Sizeof

  // The Go field names of the mapper structs.
  const PyObjectObType: string := "PyObjectObType"
  const PyCodeObjectCoFilename: string := "PyCodeObjectCoFilename"
  const PyCodeObjectCoName: string := "PyCodeObjectCoName"
  const PyStringData: string := "PyStringData"
  const PyStringSize: string := "PyStringSize"
  const PyCodeObjectCoVarNames: string := "PyCodeObjectCoVarNames"
  const PyCodeObjectCoFirstlineno: string := "PyCodeObjectCoFirstlineno"
  const PyTupleObjectObItem: string := "PyTupleObjectObItem"
  const PyThreadStateCFrame: string := "PyThreadStateCFrame"
  const PyCFrameCurrentFrame: string := "PyCFrameCurrentFrame"
  const PyFrameObjectFBack: string := "PyFrameObjectFBack"
  const PyFrameObjectFCode: string := "PyFrameObjectFCode"
  const PyFrameObjectFLocalsplus: string := "PyFrameObjectFLocalsplus"
  const PyThreadStateCurrentFrame: string := "PyThreadStateCurrentFrame"
  const PyFrameObjectFExecutable: string := "PyFrameObjectFExecutable"
  const PyTypeObjectTpName: string := "PyTypeObjectTpName"
  const PyThreadStateInterp: string := "PyThreadStateInterp"
  const PyThreadStateNext: string := "PyThreadStateNext"
  const PyThreadStateFrame: string := "PyThreadStateFrame"
  const PyThreadStateThreadID: string := "PyThreadStateThreadID"
  const PyInterpreterStateTstateHead: string := "PyInterpreterStateTstateHead"
  const PyFrameObjectFLineNo: string := "PyFrameObjectFLineNo"
  const PyThreadStateNativeThreadID: string := "PyThreadStateNativeThreadID"
  const PyInterpreterStateIsPythreadsHead: string := "PyInterpreterStateIsPythreadsHead"
  const PyRuntimeStateInterpreters: string := "PyRuntimeStateInterpreters"
  const PyRuntimeStatePyInterpretersMain: string := "PyRuntimeStatePyInterpretersMain"

  // The DWARF queries the struct tags hold: "struct.member" or, for sizeof, a struct name.
  const QPyObjectObType: string := "PyObject.ob_type"
  const QPyCodeObjectCoFilename: string := "PyCodeObject.co_filename"
  const QPyCodeObjectCoName: string := "PyCodeObject.co_name"
  const QPyStringObjectObSval: string := "PyStringObject.ob_sval"
  const QPyStringObjectObSize: string := "PyStringObject.ob_size"
  const QPyCodeObjectCoVarnames: string := "PyCodeObject.co_varnames"
  const QPyCodeObjectCoFirstlineno: string := "PyCodeObject.co_firstlineno"
  const QPyTupleObjectObItem: string := "PyTupleObject.ob_item"
  const QPyASCIIObject: string := "PyASCIIObject"
  const QPyVarObjectObSize: string := "PyVarObject.ob_size"
  const QPyThreadStateCframe: string := "PyThreadState.cframe"
  const QPyCFrameCurrentFrame: string := "_PyCFrame.current_frame"
  const QPyInterpreterFramePrevious: string := "_PyInterpreterFrame.previous"
  const QPyInterpreterFrameFCode: string := "_PyInterpreterFrame.f_code"
  const QPyInterpreterFrameLocalsplus: string := "_PyInterpreterFrame.localsplus"
  const QPyCodeObjectCoLocalsplusnames: string := "PyCodeObject.co_localsplusnames"
  const QPyThreadStateCurrentFrame: string := "PyThreadState.current_frame"
  const QPyInterpreterFrameFExecutable: string := "_PyInterpreterFrame.f_executable"
  const QPyTypeObjectTpName: string := "PyTypeObject.tp_name"
  const QPyThreadStateInterp: string := "PyThreadState.interp"
  const QPyThreadStateNext: string := "PyThreadState.next"
  const QPyThreadStateFrame: string := "PyThreadState.frame"
  const QPyThreadStateThreadId: string := "PyThreadState.thread_id"
  const QPyInterpreterStateTstateHead: string := "PyInterpreterState.tstate_head"
  const QPyFrameObjectFBack: string := "PyFrameObject.f_back"
  const QPyFrameObjectFCode: string := "PyFrameObject.f_code"
  const QPyFrameObjectFLineno: string := "PyFrameObject.f_lineno"
  const QPyFrameObjectFLocalsplus: string := "PyFrameObject.f_localsplus"
  const QPyThreadStateNativeThreadId: string := "PyThreadState.native_thread_id"
  const QPyInterpreterStateThreads: string := "PyInterpreterState.threads"
  const QPythreadsHead: string := "pythreads.head"
  const QPyruntimestateInterpreters: string := "pyruntimestate.interpreters"
  const QPyinterpretersMain: string := "pyinterpreters.main"

  /** One field of a mapper struct: its Go name and the DWARF query its tag asks for. */
  datatype Decl = Decl(goName: string, op: Op, query: string)

  function O(n: string, q: string): Decl { Decl(n, Offsetof, q) }

  /** The tagged fields of each mapper struct, in declaration order. */
  function Decls(m: Mapper): seq<Decl>
  {
    var common := [O(PyObjectObType, QPyObjectObType)];
    var code := [O(PyCodeObjectCoFilename, QPyCodeObjectCoFilename), O(PyCodeObjectCoName, QPyCodeObjectCoName)];
    match m
    case Python27 =>
      common + [O(PyStringData, QPyStringObjectObSval), O(PyStringSize, QPyStringObjectObSize)] + OldThreadDecls()
      + code + [O(PyCodeObjectCoVarNames, QPyCodeObjectCoVarnames), O(PyCodeObjectCoFirstlineno, QPyCodeObjectCoFirstlineno),
        O(PyTupleObjectObItem, QPyTupleObjectObItem)]
    case Python33To39 =>
      common + [Decl(PyStringData, Sizeof, QPyASCIIObject), O(PyStringSize, QPyVarObjectObSize)] + OldThreadDecls()
      + code + [O(PyCodeObjectCoVarNames, QPyCodeObjectCoVarnames), O(PyCodeObjectCoFirstlineno, QPyCodeObjectCoFirstlineno),
        O(PyTupleObjectObItem, QPyTupleObjectObItem)]
    case Python310 =>
      common + [Decl(PyStringData, Sizeof, QPyASCIIObject)] + OldThreadDecls()
      + code + [O(PyCodeObjectCoVarNames, QPyCodeObjectCoVarnames), O(PyCodeObjectCoFirstlineno, QPyCodeObjectCoFirstlineno),
        O(PyTupleObjectObItem, QPyTupleObjectObItem)]
    case Python311 =>
      common + [Decl(PyStringData, Sizeof, QPyASCIIObject)] + NewThreadDecls()
      + [O(PyThreadStateCFrame, QPyThreadStateCframe), O(PyCFrameCurrentFrame, QPyCFrameCurrentFrame)]
      + InterpDecls()
      + [O(PyFrameObjectFBack, QPyInterpreterFramePrevious), O(PyFrameObjectFCode, QPyInterpreterFrameFCode),
        O(PyFrameObjectFLocalsplus, QPyInterpreterFrameLocalsplus)]
      + code + [O(PyCodeObjectCoVarNames, QPyCodeObjectCoLocalsplusnames), O(PyCodeObjectCoFirstlineno, QPyCodeObjectCoFirstlineno),
        O(PyTupleObjectObItem, QPyTupleObjectObItem)]
    case Python312 =>
      common + [Decl(PyStringData, Sizeof, QPyASCIIObject)] + NewThreadDecls()
      + [O(PyThreadStateCFrame, QPyThreadStateCframe)]
      + InterpDecls()
      + [O(PyFrameObjectFBack, QPyInterpreterFramePrevious), O(PyFrameObjectFCode, QPyInterpreterFrameFCode),
        O(PyFrameObjectFLocalsplus, QPyInterpreterFrameLocalsplus)]
      + code + [O(PyCodeObjectCoVarNames, QPyCodeObjectCoVarnames), O(PyCodeObjectCoFirstlineno, QPyCodeObjectCoFirstlineno),
        O(PyTupleObjectObItem, QPyTupleObjectObItem)]
    case Python313 =>
      common + [Decl(PyStringData, Sizeof, QPyASCIIObject)] + NewThreadDecls()
      + [O(PyThreadStateCurrentFrame, QPyThreadStateCurrentFrame)]
      + InterpDecls()
      + [O(PyFrameObjectFBack, QPyInterpreterFramePrevious), O(PyFrameObjectFExecutable, QPyInterpreterFrameFExecutable),
        O(PyFrameObjectFLocalsplus, QPyInterpreterFrameLocalsplus)]
      + code + [O(PyCodeObjectCoFirstlineno, QPyCodeObjectCoFirstlineno), O(PyCodeObjectCoVarNames, QPyCodeObjectCoVarnames),
        O(PyTupleObjectObItem, QPyTupleObjectObItem)]
  }

  /** Type name, thread state and frame fields shared by 2.7 to 3.10. */
  function OldThreadDecls(): seq<Decl>
  {
    [O(PyTypeObjectTpName, QPyTypeObjectTpName), O(PyThreadStateInterp, QPyThreadStateInterp),
     O(PyThreadStateNext, QPyThreadStateNext), O(PyThreadStateFrame, QPyThreadStateFrame),
     O(PyThreadStateThreadID, QPyThreadStateThreadId), O(PyInterpreterStateTstateHead, QPyInterpreterStateTstateHead),
     O(PyFrameObjectFBack, QPyFrameObjectFBack), O(PyFrameObjectFCode, QPyFrameObjectFCode),
     O(PyFrameObjectFLineNo, QPyFrameObjectFLineno), O(PyFrameObjectFLocalsplus, QPyFrameObjectFLocalsplus)]
  }

  /** Type name and thread state fields shared by 3.11 and later. */
  function NewThreadDecls(): seq<Decl>
  {
    [O(PyTypeObjectTpName, QPyTypeObjectTpName), O(PyThreadStateInterp, QPyThreadStateInterp),
     O(PyThreadStateNext, QPyThreadStateNext), O(PyThreadStateThreadID, QPyThreadStateThreadId),
     O(PyThreadStateNativeThreadID, QPyThreadStateNativeThreadId)]
  }

  /** The two-part interpreter list and main interpreter queries of 3.11 and later. */
  function InterpDecls(): seq<Decl>
  {
    [O(PyInterpreterStateTstateHead, QPyInterpreterStateThreads), O(PyInterpreterStateIsPythreadsHead, QPythreadsHead),
     O(PyRuntimeStateInterpreters, QPyruntimestateInterpreters), O(PyRuntimeStatePyInterpretersMain, QPyinterpretersMain)]
  }

  /** The value extraction left in a Go field (zero when never written). */
  function Get(vals: map<string, int>, name: string): int
  {
    if name in vals then vals[name] else 0
  }

  /** The Go field `name` of mapper m carries the tag `offsetof:"q"`. */
  predicate Offset(m: Mapper, name: string, q: string)
  {
    Decl(name, Offsetof, q) in Decls(m)
  }

  /** The Go field `name` of mapper m carries the tag `sizeof:"q"`. */
  predicate Size(m: Mapper, name: string, q: string)
  {
    Decl(name, Sizeof, q) in Decls(m)
  }

  // ----- Layout() -----

  function LayoutOf(m: Mapper, vals: map<string, int>): Layout
  {
    var obj := PyObject(Get(vals, PyObjectObType));
    var tp := PyTypeObject(Get(vals, PyTypeObjectTpName));
    var code := PyCodeObject(Get(vals, PyCodeObjectCoFilename), Get(vals, PyCodeObjectCoName), Get(vals, PyCodeObjectCoVarNames), Get(vals, PyCodeObjectCoFirstlineno));
    var tuple := PyTupleObject(Get(vals, PyTupleObjectObItem));
    match m
    case Python27 | Python33To39 | Python310 =>
      Layout(obj,
        PyString(Get(vals, PyStringData), if m == Python310 then DoesNotExist else Get(vals, PyStringSize)),
        tp,
        PyThreadState(Get(vals, PyThreadStateNext), Get(vals, PyThreadStateInterp), Get(vals, PyThreadStateFrame), Get(vals, PyThreadStateThreadID), DoesNotExist, DoesNotExist),
        PyCFrame(0),
        PyInterpreterState(Get(vals, PyInterpreterStateTstateHead)),
        PyRuntimeState(DoesNotExist),
        PyFrameObject(Get(vals, PyFrameObjectFBack), Get(vals, PyFrameObjectFCode), Get(vals, PyFrameObjectFLineNo), Get(vals, PyFrameObjectFLocalsplus)),
        code, tuple)
    case Python311 | Python312 | Python313 =>
      Layout(obj,
        PyString(Get(vals, PyStringData), DoesNotExist),
        tp,
        PyThreadState(Get(vals, PyThreadStateNext), Get(vals, PyThreadStateInterp), DoesNotExist, Get(vals, PyThreadStateThreadID), Get(vals, PyThreadStateNativeThreadID),
          if m == Python313 then DoesNotExist else Get(vals, PyThreadStateCFrame)),
        PyCFrame(if m == Python311 then Get(vals, PyCFrameCurrentFrame) else if m == Python312 then 0 else Get(vals, PyThreadStateCurrentFrame)),
        PyInterpreterState(Get(vals, PyInterpreterStateTstateHead) + Get(vals, PyInterpreterStateIsPythreadsHead)),
        PyRuntimeState(Get(vals, PyRuntimeStateInterpreters) + Get(vals, PyRuntimeStatePyInterpretersMain)),
        PyFrameObject(Get(vals, PyFrameObjectFBack), if m == Python313 then Get(vals, PyFrameObjectFExecutable) else Get(vals, PyFrameObjectFCode),
          DoesNotExist, Get(vals, PyFrameObjectFLocalsplus)),
        code, tuple)
  }

  predicate Modern(m: Mapper) { m == Python311 || m == Python312 || m == Python313 }

  /** Up to 3.10 the native thread id, cframe and main interpreter do not exist and the current frame is 0. */
  lemma OldSentinels(m: Mapper, vals: map<string, int>)
    requires !Modern(m)
    ensures LayoutOf(m, vals).pyThreadState.nativeThreadID == DoesNotExist
    ensures LayoutOf(m, vals).pyThreadState.cFrame == DoesNotExist
    ensures LayoutOf(m, vals).pyRuntimeState.interpMain == DoesNotExist
    ensures LayoutOf(m, vals).pyCFrame.currentFrame == 0
    ensures Offset(m, PyThreadStateFrame, QPyThreadStateFrame) &&
      LayoutOf(m, vals).pyThreadState.frame == Get(vals, PyThreadStateFrame)
    ensures Offset(m, PyFrameObjectFLineNo, QPyFrameObjectFLineno) &&
      LayoutOf(m, vals).pyFrameObject.fLineno == Get(vals, PyFrameObjectFLineNo)
    ensures Offset(m, PyInterpreterStateTstateHead, QPyInterpreterStateTstateHead) &&
      LayoutOf(m, vals).pyInterpreterState.tStateHead == Get(vals, PyInterpreterStateTstateHead)
    ensures Offset(m, PyFrameObjectFCode, QPyFrameObjectFCode) &&
      LayoutOf(m, vals).pyFrameObject.fCode == Get(vals, PyFrameObjectFCode)
  {
  }

  /** The string size is extracted for 2.7 and 3.3 - 3.9 only; from 3.10 on it is -1. */
  lemma StringSize(m: Mapper, vals: map<string, int>)
    ensures m == Python27 ==>
      Offset(m, PyStringSize, QPyStringObjectObSize) &&
      LayoutOf(m, vals).pyString.size == Get(vals, PyStringSize)
    ensures m == Python33To39 ==>
      Offset(m, PyStringSize, QPyVarObjectObSize) &&
      LayoutOf(m, vals).pyString.size == Get(vals, PyStringSize)
    ensures m != Python27 && m != Python33To39 ==> LayoutOf(m, vals).pyString.size == DoesNotExist
    ensures m == Python27 ==> Offset(m, PyStringData, QPyStringObjectObSval)
    ensures m != Python27 ==> Size(m, PyStringData, QPyASCIIObject)
    ensures LayoutOf(m, vals).pyString.data == Get(vals, PyStringData)
  {
    if m != Python27 {
      assert Decls(m)[1] == Decl(PyStringData, Sizeof, QPyASCIIObject);
    }
  }

  /** From 3.11 the thread list head and the main interpreter are sums of two extracted offsets. */
  lemma ModernSums(m: Mapper, vals: map<string, int>)
    requires Modern(m)
    ensures Offset(m, PyInterpreterStateTstateHead, QPyInterpreterStateThreads)
    ensures Offset(m, PyInterpreterStateIsPythreadsHead, QPythreadsHead)
    ensures LayoutOf(m, vals).pyInterpreterState.tStateHead ==
      Get(vals, PyInterpreterStateTstateHead) + Get(vals, PyInterpreterStateIsPythreadsHead)
    ensures Offset(m, PyRuntimeStateInterpreters, QPyruntimestateInterpreters)
    ensures Offset(m, PyRuntimeStatePyInterpretersMain, QPyinterpretersMain)
    ensures LayoutOf(m, vals).pyRuntimeState.interpMain ==
      Get(vals, PyRuntimeStateInterpreters) + Get(vals, PyRuntimeStatePyInterpretersMain)
    ensures Offset(m, PyThreadStateNativeThreadID, QPyThreadStateNativeThreadId) &&
      LayoutOf(m, vals).pyThreadState.nativeThreadID == Get(vals, PyThreadStateNativeThreadID)
  {
  }

  /** From 3.11 there is no frame pointer in the thread state and no line number in the frame. */
  lemma ModernNoFrame(m: Mapper, vals: map<string, int>)
    requires Modern(m)
    ensures LayoutOf(m, vals).pyThreadState.frame == DoesNotExist
    ensures LayoutOf(m, vals).pyFrameObject.fLineno == DoesNotExist
  {
  }

  /**
   * The cframe rules: 3.11 extracts both the cframe and the current frame;
   * 3.12 extracts the cframe and writes 0 for the current frame; 3.13 has no
   * cframe, reads the current frame from the thread state and the code from
   * f_executable.
   */
  lemma CFrameRules(m: Mapper, vals: map<string, int>)
    ensures m == Python311 || m == Python312 ==>
      Offset(m, PyThreadStateCFrame, QPyThreadStateCframe) &&
      LayoutOf(m, vals).pyThreadState.cFrame == Get(vals, PyThreadStateCFrame) &&
      Offset(m, PyFrameObjectFCode, QPyInterpreterFrameFCode) &&
      LayoutOf(m, vals).pyFrameObject.fCode == Get(vals, PyFrameObjectFCode)
    ensures m == Python311 ==>
      Offset(m, PyCFrameCurrentFrame, QPyCFrameCurrentFrame) &&
      LayoutOf(m, vals).pyCFrame.currentFrame == Get(vals, PyCFrameCurrentFrame)
    ensures m == Python312 ==> LayoutOf(m, vals).pyCFrame.currentFrame == 0
    ensures m == Python313 ==>
      LayoutOf(m, vals).pyThreadState.cFrame == DoesNotExist &&
      Offset(m, PyThreadStateCurrentFrame, QPyThreadStateCurrentFrame) &&
      LayoutOf(m, vals).pyCFrame.currentFrame == Get(vals, PyThreadStateCurrentFrame) &&
      Offset(m, PyFrameObjectFExecutable, QPyInterpreterFrameFExecutable) &&
      LayoutOf(m, vals).pyFrameObject.fCode == Get(vals, PyFrameObjectFExecutable)
  {
  }

  /** The object and type fields every mapper copies unchanged from the offset its tag asks for. */
  lemma CopiedFields(m: Mapper, vals: map<string, int>)
    ensures Offset(m, PyObjectObType, QPyObjectObType) &&
      LayoutOf(m, vals).pyObject.obType == Get(vals, PyObjectObType)
    ensures Offset(m, PyTypeObjectTpName, QPyTypeObjectTpName) &&
      LayoutOf(m, vals).pyTypeObject.tpName == Get(vals, PyTypeObjectTpName)
  {
    match m {
      case Python27 => case Python33To39 => case Python310 =>
      case Python311 => case Python312 => case Python313 =>
    }
  }

  /** The thread-state links and thread id every mapper copies unchanged from the offset its tag asks for. */
  lemma CopiedThreadFields(m: Mapper, vals: map<string, int>)
    ensures Offset(m, PyThreadStateInterp, QPyThreadStateInterp) &&
      LayoutOf(m, vals).pyThreadState.interp == Get(vals, PyThreadStateInterp)
    ensures Offset(m, PyThreadStateNext, QPyThreadStateNext) &&
      LayoutOf(m, vals).pyThreadState.next == Get(vals, PyThreadStateNext)
    ensures Offset(m, PyThreadStateThreadID, QPyThreadStateThreadId) &&
      LayoutOf(m, vals).pyThreadState.threadID == Get(vals, PyThreadStateThreadID)
  {
    var interp, next, tid := O(PyThreadStateInterp, QPyThreadStateInterp), O(PyThreadStateNext, QPyThreadStateNext),
      O(PyThreadStateThreadID, QPyThreadStateThreadId);
    if Modern(m) {
      assert interp in NewThreadDecls() && next in NewThreadDecls() && tid in NewThreadDecls();
    } else {
      assert interp in OldThreadDecls() && next in OldThreadDecls() && tid in OldThreadDecls();
    }
    match m {
      case Python27 => case Python33To39 => case Python310 =>
      case Python311 => case Python312 => case Python313 =>
    }
  }

  /** The frame fields every mapper copies unchanged from the offset its tag asks for. */
  lemma CopiedFrameFields(m: Mapper, vals: map<string, int>)
    ensures Offset(m, PyFrameObjectFBack, if Modern(m) then QPyInterpreterFramePrevious else QPyFrameObjectFBack) &&
      LayoutOf(m, vals).pyFrameObject.fBack == Get(vals, PyFrameObjectFBack)
    ensures Offset(m, PyFrameObjectFLocalsplus, if Modern(m) then QPyInterpreterFrameLocalsplus else QPyFrameObjectFLocalsplus) &&
      LayoutOf(m, vals).pyFrameObject.fLocalsplus == Get(vals, PyFrameObjectFLocalsplus)
  {
    match m {
      case Python27 => case Python33To39 => case Python310 =>
      case Python311 => case Python312 => case Python313 =>
    }
  }

  /** The code and tuple fields every mapper copies unchanged from the offset its tag asks for. */
  lemma CopiedCodeFields(m: Mapper, vals: map<string, int>)
    ensures Offset(m, PyCodeObjectCoFilename, QPyCodeObjectCoFilename) &&
      LayoutOf(m, vals).pyCodeObject.coFilename == Get(vals, PyCodeObjectCoFilename)
    ensures Offset(m, PyCodeObjectCoName, QPyCodeObjectCoName) &&
      LayoutOf(m, vals).pyCodeObject.coName == Get(vals, PyCodeObjectCoName)
    ensures Offset(m, PyCodeObjectCoVarNames, if m == Python311 then QPyCodeObjectCoLocalsplusnames else QPyCodeObjectCoVarnames) &&
      LayoutOf(m, vals).pyCodeObject.coVarnames == Get(vals, PyCodeObjectCoVarNames)
    ensures Offset(m, PyCodeObjectCoFirstlineno, QPyCodeObjectCoFirstlineno) &&
      LayoutOf(m, vals).pyCodeObject.coFirstlineno == Get(vals, PyCodeObjectCoFirstlineno)
    ensures Offset(m, PyTupleObjectObItem, QPyTupleObjectObItem) &&
      LayoutOf(m, vals).pyTupleObject.obItem == Get(vals, PyTupleObjectObItem)
  {
    match m {
      case Python27 => case Python33To39 => case Python310 =>
      case Python311 => case Python312 => case Python313 =>
    }
  }
}
