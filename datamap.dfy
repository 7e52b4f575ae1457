/**
 * datamap.New: the extraction plan read off a Go layout struct. Each field of
 * the struct carries an `offsetof:"S.f"`, `offsetof:"f"` or `sizeof:"S"` tag;
 * New groups the requested DWARF queries by (struct name, operation). The
 * reflect types are modelled as a small tree of GoType values, and a
 * reflect.Value pointing at a field is modelled by the path of field names
 * from the root of the layout struct.
 */
module Datamap {
  import opened Wrappers
  import Strs

  // ----- Go struct types, as reflect shows them -----

  datatype Kind = Int64 | Uint64 | Int | StructKind | OtherKind(name: string)

  /** One key:"value" pair of a Go struct tag. */
  datatype TagEntry = TagEntry(key: string, value: string)

  /**
   * A reflect.Type: name is Type.Name() ("" for an anonymous struct), display
   * is Type.String(), fields are only meaningful for a struct kind.
   */
  datatype GoType = GoType(name: string, display: string, kind: Kind, fields: seq<GoField>)

  datatype GoField = GoField(name: string, typ: GoType, tag: seq<TagEntry>)

  /** The argument of New: nil, a non-pointer value, or a pointer to a value of type elem. */
  datatype Arg = NilArg | NonPointer(t: GoType) | PointerTo(elem: GoType)

  /** Where a reflect.Value points: the field names from the layout struct's root. */
  type Path = seq<string>

  // ----- the result -----

  datatype Op = OpOffset | OpSize

  datatype Field = Field(name: string, target: Path)

  /** datamap.Struct: value is set for a size query, fields for an offset query. */
  datatype Struct = Struct(structName: string, op: Op, value: Option<Path>, fields: seq<Field>)

  datatype GenError =
    | InvalidOffsetTag(tag: string)
    | SizeNotInt64(kind: Kind)
    | InNested(inner: GenError)

  datatype NewError =
    | NilLayoutMap
    | NotAPointer
    | NotAStruct(name: string, kind: Kind)
    | GenerateFailed(cause: GenError)

  // ----- struct tags -----

  /** StructTag.Lookup: the value of the first entry with the given key. */
  function Lookup(tag: seq<TagEntry>, key: string): (r: Option<string>)
    ensures r.Some? ==> TagEntry(key, r.value) in tag
    ensures r.None? ==> forall e :: e in tag ==> e.key != key
  {
    if tag == [] then None
    else if tag[0].key == key then Some(tag[0].value)
    else Lookup(tag[1..], key)
  }

  lemma {:induction false} LookupPrefix(tag: seq<TagEntry>, extra: seq<TagEntry>, key: string)
    requires Lookup(tag, key).Some?
    ensures Lookup(tag + extra, key) == Lookup(tag, key)
  {
    assert (tag + extra)[1..] == tag[1..] + extra;
    if tag[0].key != key {
      LookupPrefix(tag[1..], extra, key);
    }
  }

  datatype Selection = Selection(value: string, op: Op)

  /** The tag value and operation a field asks for. */
  function Select(tag: seq<TagEntry>): (s: Selection)
    ensures s.op == OpSize ==> Lookup(tag, "sizeof") == Some(s.value) && Lookup(tag, "offsetof") in {None, Some("")}
    ensures s.op == OpOffset && s.value != "" ==> Lookup(tag, "offsetof") == Some(s.value)
  {
    var off := Lookup(tag, "offsetof");
    if off.Some? && off.value != "" then Selection(off.value, OpOffset)
    else
      match Lookup(tag, "sizeof")
      case Some(v) => Selection(v, OpSize)
      case None => Selection("", OpOffset)
  }

  /** A struct tag holding a single key. */
  function Tagged(key: string, value: string): seq<TagEntry> { [TagEntry(key, value)] }

  /** The Go types of the fields the layout mappers declare. */
  const Int64T := GoType("int64", "int64", Int64, [])
  const Uint64T := GoType("uint64", "uint64", Uint64, [])

  /** A lone non-empty offsetof entry selects its value as an offset. */
  lemma OffsetTag(v: string)
    requires v != ""
    ensures Select(Tagged("offsetof", v)) == Selection(v, OpOffset)
  {
    assert Lookup(Tagged("offsetof", v), "offsetof") == Some(v);
  }

  /** A lone empty offsetof entry selects nothing. */
  lemma EmptyOffsetTag()
    ensures Select(Tagged("offsetof", "")) == Selection("", OpOffset)
  {
    assert "offsetof"[0] != "sizeof"[0];
    assert Lookup(Tagged("offsetof", ""), "offsetof") == Some("");
    assert Lookup(Tagged("offsetof", ""), "sizeof") == None;
  }

  /** A lone sizeof entry selects its value as a size. */
  lemma SizeTag(v: string)
    ensures Select(Tagged("sizeof", v)) == Selection(v, OpSize)
  {
    assert "offsetof"[0] != "sizeof"[0];
    assert Lookup(Tagged("sizeof", v), "offsetof") == None;
    assert Lookup(Tagged("sizeof", v), "sizeof") == Some(v);
  }

  /** A field whose selected value is empty or "-" is skipped. */
  predicate Skipped(s: Selection) { s.value == "" || s.value == "-" }

  /** A non-empty offsetof value wins: appending any sizeof entry changes nothing. */
  lemma OffsetofPrecedence(tag: seq<TagEntry>, size: string)
    requires Lookup(tag, "offsetof").Some? && Lookup(tag, "offsetof").value != ""
    ensures Select(tag + [TagEntry("sizeof", size)]) == Select(tag) == Selection(Lookup(tag, "offsetof").value, OpOffset)
  {
    LookupPrefix(tag, [TagEntry("sizeof", size)], "offsetof");
  }

  // ----- the group table (groupByStructAndOp) -----

  /** groupKey: fmt.Sprintf("%s-%d", name, op). */
  function GroupKey(name: string, op: Op): string
  {
    name + "-" + (if op == OpOffset then "0" else "1")
  }

  lemma GroupKeyInjective(n1: string, o1: Op, n2: string, o2: Op)
    requires GroupKey(n1, o1) == GroupKey(n2, o2)
    ensures n1 == n2 && o1 == o2
  {
    var k := GroupKey(n1, o1);
    assert k[|k| - 1] == (if o1 == OpOffset then '0' else '1');
    assert k[|k| - 1] == (if o2 == OpOffset then '0' else '1');
    assert n1 == k[..|k| - 2];
    assert n2 == k[..|k| - 2];
  }

  /**
   * The Go map together with the order in which its keys were first
   * inserted; maps.Values has no defined order, and the model returns this one.
   */
  datatype Table = Table(groups: map<string, Struct>, order: seq<string>)

  const EmptyTable := Table(map[], [])

  function KeyOf(s: Struct): string { GroupKey(s.structName, s.op) }

  ghost predicate Valid(tbl: Table)
  {
    (forall k :: k in tbl.groups <==> k in tbl.order) &&
    (forall i, j :: 0 <= i < j < |tbl.order| ==> tbl.order[i] != tbl.order[j]) &&
    (forall k :: k in tbl.groups ==> KeyOf(tbl.groups[k]) == k)
  }

  /** The group of (name, op), if there is one. */
  function GroupOf(tbl: Table, name: string, op: Op): Option<Struct>
  {
    var k := GroupKey(name, op);
    if k in tbl.groups then Some(tbl.groups[k]) else None
  }

  /** A group's own (name, op) finds it again. */
  lemma GroupOfKey(tbl: Table, k: string)
    requires Valid(tbl) && k in tbl.groups
    ensures GroupOf(tbl, tbl.groups[k].structName, tbl.groups[k].op) == Some(tbl.groups[k])
  {
  }

  /** maps.Values. */
  function Values(tbl: Table): (r: seq<Struct>)
    requires Valid(tbl)
    ensures |r| == |tbl.order| == |tbl.groups|
    ensures forall i :: 0 <= i < |r| ==> GroupOf(tbl, r[i].structName, r[i].op) == Some(r[i])
    ensures forall n, o :: GroupOf(tbl, n, o).Some? ==> GroupOf(tbl, n, o).value in r
  {
    var r := seq(|tbl.order|, i requires 0 <= i < |tbl.order| => tbl.groups[tbl.order[i]]);
    assert forall i :: 0 <= i < |r| ==> KeyOf(r[i]) == tbl.order[i];
    forall n, o | GroupOf(tbl, n, o).Some? ensures GroupOf(tbl, n, o).value in r {
      var k := GroupKey(n, o);
      var i :| 0 <= i < |tbl.order| && tbl.order[i] == k;
      assert r[i] == tbl.groups[k];
    }
    OrderSize(tbl);
    r
  }

  lemma OrderSize(tbl: Table)
    requires Valid(tbl)
    ensures |tbl.order| == |tbl.groups|
  {
    DistinctCard(tbl.order);
    assert (set k | k in tbl.order) == tbl.groups.Keys;
  }

  lemma {:induction false} DistinctCard(s: seq<string>)
    requires forall i, j :: 0 <= i < j < |s| ==> s[i] != s[j]
    ensures |set k | k in s| == |s|
  {
    if s != [] {
      var t := s[..|s| - 1];
      DistinctCard(t);
      assert (set k | k in s) == (set k | k in t) + {s[|s| - 1]};
      assert s[|s| - 1] !in t;
    }
  }

  /** At most one group exists per (struct name, operation). */
  lemma OneGroupPerKey(tbl: Table)
    requires Valid(tbl)
    ensures forall i, j :: 0 <= i < j < |Values(tbl)| ==>
      (Values(tbl)[i].structName, Values(tbl)[i].op) != (Values(tbl)[j].structName, Values(tbl)[j].op)
  {
    var r := Values(tbl);
    forall i, j | 0 <= i < j < |r| ensures (r[i].structName, r[i].op) != (r[j].structName, r[j].op) {
      assert r[i] == tbl.groups[tbl.order[i]] && r[j] == tbl.groups[tbl.order[j]];
    }
  }

  function Appended(g: Option<Struct>, name: string, op: Op, fs: seq<Field>): Struct
  {
    match g
    case Some(s) => s.(fields := s.fields + fs)
    case None => Struct(name, op, None, fs)
  }

  /** addActionByField: append fs to the (name, op) group, creating it when absent. */
  function AddByField(tbl: Table, name: string, op: Op, fs: seq<Field>): (r: Table)
    requires Valid(tbl)
    ensures Valid(r)
    ensures GroupOf(r, name, op) == Some(Appended(GroupOf(tbl, name, op), name, op, fs))
    ensures forall n, o :: (n, o) != (name, op) ==> GroupOf(r, n, o) == GroupOf(tbl, n, o)
    ensures r.order == if GroupOf(tbl, name, op).Some? then tbl.order else tbl.order + [GroupKey(name, op)]
  {
    var k := GroupKey(name, op);
    var g := GroupOf(tbl, name, op);
    var r := if g.Some? then Table(tbl.groups[k := Appended(g, name, op, fs)], tbl.order)
             else Table(tbl.groups[k := Appended(g, name, op, fs)], tbl.order + [k]);
    forall n, o | (n, o) != (name, op) ensures GroupOf(r, n, o) == GroupOf(tbl, n, o) {
      if GroupKey(n, o) == k { GroupKeyInjective(n, o, name, op); }
    }
    r
  }

  /** addActionByStruct: create the (name, op) group with the given value unless it exists. */
  function AddByStruct(tbl: Table, name: string, op: Op, value: Path): (r: Table)
    requires Valid(tbl)
    ensures Valid(r)
    ensures GroupOf(r, name, op) == if GroupOf(tbl, name, op).Some? then GroupOf(tbl, name, op) else Some(Struct(name, op, Some(value), []))
    ensures forall n, o :: (n, o) != (name, op) ==> GroupOf(r, n, o) == GroupOf(tbl, n, o)
    ensures r.order == if GroupOf(tbl, name, op).Some? then tbl.order else tbl.order + [GroupKey(name, op)]
  {
    var k := GroupKey(name, op);
    if k in tbl.groups then tbl
    else
      var r := Table(tbl.groups[k := Struct(name, op, Some(value), [])], tbl.order + [k]);
      assert forall n, o :: (n, o) != (name, op) ==> GroupOf(r, n, o) == GroupOf(tbl, n, o) by {
        forall n, o | (n, o) != (name, op) ensures GroupOf(r, n, o) == GroupOf(tbl, n, o) {
          if GroupKey(n, o) == k { GroupKeyInjective(n, o, name, op); }
        }
      }
      r
  }

  /** Size groups and existing groups survive re-filing in any case. */
  ghost predicate Grows(tbl: Table, r: Table)
  {
    (forall n, o :: GroupOf(tbl, n, o).Some? ==> GroupOf(r, n, o).Some?) &&
    (forall n :: GroupOf(r, n, OpSize) == GroupOf(tbl, n, OpSize))
  }

  /** Where a nested group is re-filed: anonymous structs go under the tag value. */
  function RefileName(g: Struct, tv: string): string
  {
    if Strs.HasPrefix(g.structName, "struct ") then tv else g.structName
  }

  /** The loop over nestedStructs: each one's fields become offset fields of the outer table. */
  function Refile(tbl: Table, ns: seq<Struct>, tv: string): (r: Table)
    requires Valid(tbl)
    ensures Valid(r) && Grows(tbl, r)
    decreases |ns|
  {
    if ns == [] then tbl
    else Refile(AddByField(tbl, RefileName(ns[0], tv), OpOffset, ns[0].fields), ns[1..], tv)
  }

  // ----- generateFromStructType -----

  /** structName: Name(), or String() for an anonymous struct. */
  function StructName(t: GoType): string { if t.name == "" then t.display else t.name }

  /** What field i contributes to the table (one iteration of the field loop). */
  function Step(t: GoType, path: Path, i: nat, tbl: Table): (r: Result<Table, GenError>)
    requires i < |t.fields| && Valid(tbl)
    ensures r.Ok? ==> Valid(r.value)
    ensures r.Ok? ==> forall n, o :: GroupOf(tbl, n, o).Some? ==> GroupOf(r.value, n, o).Some?
    ensures r.Ok? && Select(t.fields[i].tag).op == OpOffset ==> Grows(tbl, r.value)
    decreases t, 0, 0
  {
    var f := t.fields[i];
    var sel := Select(f.tag);
    var at := path + [f.name];
    if Skipped(sel) then Ok(tbl)
    else if sel.op == OpOffset then
      if '.' in sel.value then
        var parts := Strs.Split(sel.value, '.');
        if |parts| != 2 then Err(InvalidOffsetTag(sel.value))
        else Ok(AddByField(tbl, parts[0], OpOffset, [Field(parts[1], at)]))
      else if f.typ.kind == StructKind then
        assert f in t.fields;
        match Gen(f.typ, at)
        case Err(e) => Err(InNested(e))
        case Ok(ns) => Ok(Refile(tbl, ns, sel.value))
      else Ok(AddByField(tbl, StructName(t), OpOffset, [Field(sel.value, at)]))
    else if f.typ.kind != Int64 then Err(SizeNotInt64(f.typ.kind))
    else Ok(AddByStruct(tbl, sel.value, OpSize, at))
  }

  /** The field loop from field i on, starting from table tbl. */
  function GenFrom(t: GoType, path: Path, i: nat, tbl: Table): (r: Result<Table, GenError>)
    requires i <= |t.fields| && Valid(tbl)
    ensures r.Ok? ==> Valid(r.value)
    decreases t, 1, |t.fields| - i
  {
    if i == |t.fields| then Ok(tbl)
    else
      match Step(t, path, i, tbl)
      case Err(e) => Err(e)
      case Ok(next) => GenFrom(t, path, i + 1, next)
  }

  /** The field loop from i: a field that fails stops it with that field's error. */
  lemma GenFromErr(t: GoType, path: Path, i: nat, tbl: Table)
    requires i < |t.fields| && Valid(tbl) && Step(t, path, i, tbl).Err?
    ensures GenFrom(t, path, i, tbl) == Err(Step(t, path, i, tbl).error)
  {
  }

  /** The field loop from i: a field that succeeds hands its table to field i + 1. */
  lemma GenFromOk(t: GoType, path: Path, i: nat, tbl: Table)
    requires i < |t.fields| && Valid(tbl) && Step(t, path, i, tbl).Ok?
    ensures GenFrom(t, path, i, tbl) == GenFrom(t, path, i + 1, Step(t, path, i, tbl).value)
  {
  }

  /** generateFromStructType: the groups, at most one per (struct name, operation). */
  function Gen(t: GoType, path: Path): (r: Result<seq<Struct>, GenError>)
    ensures r.Ok? ==> forall i, j :: 0 <= i < j < |r.value| ==>
      (r.value[i].structName, r.value[i].op) != (r.value[j].structName, r.value[j].op)
    decreases t, 2, 0
  {
    match GenFrom(t, path, 0, EmptyTable)
    case Err(e) => Err(e)
    case Ok(tbl) => OneGroupPerKey(tbl); Ok(Values(tbl))
  }

  /** The imperative field loop of generateFromStructType, recursing into nested structs. */
  method GenerateFromStructType(t: GoType, path: Path) returns (r: Result<seq<Struct>, GenError>)
    ensures r == Gen(t, path)
    decreases t, 2, 0
  {
    var tbl := EmptyTable;
    var i := 0;
    while i < |t.fields|
      invariant 0 <= i <= |t.fields| && Valid(tbl)
      invariant GenFrom(t, path, 0, EmptyTable) == GenFrom(t, path, i, tbl)
    {
      var next := FieldStep(t, path, i, tbl);
      if next.Err? {
        GenFromErr(t, path, i, tbl);
        return Err(next.error);
      }
      GenFromOk(t, path, i, tbl);
      tbl := next.value;
      i := i + 1;
    }
    OneGroupPerKey(tbl);
    r := Ok(Values(tbl));
  }

  /** The body of the field loop of generateFromStructType, for field i. */
  method FieldStep(t: GoType, path: Path, i: nat, tbl: Table) returns (r: Result<Table, GenError>)
    requires i < |t.fields| && Valid(tbl)
    ensures r == Step(t, path, i, tbl)
    decreases t, 1, 0
  {
    var field := t.fields[i];
    var fieldValue := path + [field.name];
    var sel := Select(field.tag);
    if Skipped(sel) {
      return Ok(tbl);
    }
    if sel.op == OpOffset {
      if '.' in sel.value {
        var parts := Strs.Split(sel.value, '.');
        if |parts| != 2 {
          return Err(InvalidOffsetTag(sel.value));
        }
        return Ok(AddByField(tbl, parts[0], OpOffset, [Field(parts[1], fieldValue)]));
      }
      if field.typ.kind == StructKind {
        assert field in t.fields;
        var nested := GenerateFromStructType(field.typ, fieldValue);
        if nested.Err? {
          return Err(InNested(nested.error));
        }
        var refiled := RefileAll(tbl, nested.value, sel.value);
        return Ok(refiled);
      }
      return Ok(AddByField(tbl, StructName(t), OpOffset, [Field(sel.value, fieldValue)]));
    }
    if field.typ.kind != Int64 {
      return Err(SizeNotInt64(field.typ.kind));
    }
    return Ok(AddByStruct(tbl, sel.value, OpSize, fieldValue));
  }

  /** The loop that files a nested struct's groups into the outer table. */
  method RefileAll(tbl: Table, ns: seq<Struct>, tv: string) returns (r: Table)
    requires Valid(tbl)
    ensures r == Refile(tbl, ns, tv)
  {
    r := tbl;
    var j := 0;
    while j < |ns|
      invariant 0 <= j <= |ns| && Valid(r)
      invariant Refile(tbl, ns, tv) == Refile(r, ns[j..], tv)
    {
      assert ns[j..][1..] == ns[j + 1..];
      r := AddByField(r, RefileName(ns[j], tv), OpOffset, ns[j].fields);
      j := j + 1;
    }
  }

  // ----- properties of generateFromStructType -----

  /** Step and GenFrom look at the struct only through its fields and its name. */
  lemma StepSame(t: GoType, u: GoType, path: Path, i: nat, j: nat, tbl: Table)
    requires i < |t.fields| && j < |u.fields| && Valid(tbl)
    requires t.fields[i] == u.fields[j] && StructName(t) == StructName(u)
    ensures Step(t, path, i, tbl) == Step(u, path, j, tbl)
  {
  }

  /** Removing field i, which is skipped, from t gives u. */
  ghost predicate Without(t: GoType, u: GoType, i: nat)
  {
    i < |t.fields| && StructName(t) == StructName(u) && u.fields == t.fields[..i] + t.fields[i + 1..]
  }

  lemma {:induction false} AfterSkip(t: GoType, u: GoType, path: Path, i: nat, j: nat, tbl: Table)
    requires Without(t, u, i) && i < j <= |t.fields| && Valid(tbl)
    ensures GenFrom(t, path, j, tbl) == GenFrom(u, path, j - 1, tbl)
    decreases |t.fields| - j
  {
    if j < |t.fields| {
      StepSame(t, u, path, j, j - 1, tbl);
      var r := Step(t, path, j, tbl);
      if r.Ok? {
        AfterSkip(t, u, path, i, j + 1, r.value);
      }
    }
  }

  lemma {:induction false} BeforeSkip(t: GoType, u: GoType, path: Path, i: nat, j: nat, tbl: Table)
    requires Without(t, u, i) && Skipped(Select(t.fields[i].tag)) && j <= i && Valid(tbl)
    ensures GenFrom(t, path, j, tbl) == GenFrom(u, path, j, tbl)
    decreases i - j
  {
    if j == i {
      AfterSkip(t, u, path, i, i + 1, tbl);
    } else {
      StepSame(t, u, path, j, j, tbl);
      var r := Step(t, path, j, tbl);
      if r.Ok? {
        BeforeSkip(t, u, path, i, j + 1, r.value);
      }
    }
  }

  /** A field whose selected tag value is empty or "-" contributes nothing. */
  lemma SkippedFieldIgnored(t: GoType, u: GoType, path: Path, i: nat)
    requires Without(t, u, i) && Skipped(Select(t.fields[i].tag))
    ensures Gen(t, path) == Gen(u, path)
  {
    BeforeSkip(t, u, path, i, 0, EmptyTable);
  }

  /** The field asks for a size: its sizeof tag is selected and not skipped. */
  predicate AsksSize(f: GoField) { Select(f.tag).op == OpSize && !Skipped(Select(f.tag)) }

  /** Field j is the first field asking for the size of g, and g records where it points. */
  ghost predicate SizeSource(t: GoType, path: Path, j: nat, g: Struct)
  {
    j < |t.fields| && Select(t.fields[j].tag) == Selection(g.structName, OpSize) &&
    t.fields[j].typ.kind == Int64 &&
    g == Struct(g.structName, OpSize, Some(path + [t.fields[j].name]), []) &&
    forall k :: 0 <= k < j ==> Select(t.fields[k].tag) != Select(t.fields[j].tag)
  }

  ghost predicate SizeInv(t: GoType, path: Path, i: nat, tbl: Table)
    requires i <= |t.fields|
  {
    (forall n :: GroupOf(tbl, n, OpSize).Some? ==> exists j: nat :: j < i && SizeSource(t, path, j, GroupOf(tbl, n, OpSize).value)) &&
    (forall j :: 0 <= j < i && AsksSize(t.fields[j]) ==>
      GroupOf(tbl, Select(t.fields[j].tag).value, OpSize).Some? && t.fields[j].typ.kind == Int64)
  }

  lemma StepSize(t: GoType, path: Path, i: nat, tbl: Table)
    requires i < |t.fields| && Valid(tbl) && SizeInv(t, path, i, tbl) && Step(t, path, i, tbl).Ok?
    ensures SizeInv(t, path, i + 1, Step(t, path, i, tbl).value)
  {
    var f := t.fields[i];
    var sel := Select(f.tag);
    var r := Step(t, path, i, tbl).value;
    if Skipped(sel) {
      assert r == tbl;
    } else if sel.op == OpOffset {
      assert Grows(tbl, r);
    } else {
      assert r == AddByStruct(tbl, sel.value, OpSize, path + [f.name]);
      forall n | GroupOf(r, n, OpSize).Some?
        ensures exists j: nat :: j < i + 1 && SizeSource(t, path, j, GroupOf(r, n, OpSize).value)
      {
        if n != sel.value || GroupOf(tbl, n, OpSize).Some? {
          assert GroupOf(r, n, OpSize) == GroupOf(tbl, n, OpSize);
        } else {
          forall k | 0 <= k < i ensures Select(t.fields[k].tag) != sel {
            if Select(t.fields[k].tag) == sel { assert AsksSize(t.fields[k]); }
          }
          assert SizeSource(t, path, i, GroupOf(r, n, OpSize).value);
        }
      }
      forall j | 0 <= j < i + 1 && AsksSize(t.fields[j])
        ensures GroupOf(r, Select(t.fields[j].tag).value, OpSize).Some?
      {
        if j < i {
          assert GroupOf(tbl, Select(t.fields[j].tag).value, OpSize).Some?;
        }
      }
    }
  }

  lemma {:induction false} GenFromSize(t: GoType, path: Path, i: nat, tbl: Table)
    requires i <= |t.fields| && Valid(tbl) && SizeInv(t, path, i, tbl) && GenFrom(t, path, i, tbl).Ok?
    ensures SizeInv(t, path, |t.fields|, GenFrom(t, path, i, tbl).value)
    decreases |t.fields| - i
  {
    if i < |t.fields| {
      StepSize(t, path, i, tbl);
      GenFromSize(t, path, i + 1, Step(t, path, i, tbl).value);
    }
  }

  /**
   * Size groups come only from the struct's own sizeof fields: each is the
   * first such field for its name, which must be an int64. Sizes asked for
   * inside nested structs therefore do not survive as size groups.
   */
  lemma SizeGroups(t: GoType, path: Path)
    requires Gen(t, path).Ok?
    ensures forall g :: g in Gen(t, path).value && g.op == OpSize ==> exists j: nat :: SizeSource(t, path, j, g)
    ensures forall j :: 0 <= j < |t.fields| && AsksSize(t.fields[j]) ==>
      t.fields[j].typ.kind == Int64 &&
      exists g :: g in Gen(t, path).value && g.op == OpSize && g.structName == Select(t.fields[j].tag).value
  {
    var tbl := GenFrom(t, path, 0, EmptyTable).value;
    GenFromSize(t, path, 0, EmptyTable);
    var r := Values(tbl);
    assert Gen(t, path).value == r;
    forall g | g in r && g.op == OpSize ensures exists j: nat :: SizeSource(t, path, j, g) {
      var i :| 0 <= i < |r| && r[i] == g;
      assert GroupOf(tbl, g.structName, OpSize) == Some(g);
    }
    forall j | 0 <= j < |t.fields| && AsksSize(t.fields[j])
      ensures exists g :: g in r && g.op == OpSize && g.structName == Select(t.fields[j].tag).value
    {
      var n := Select(t.fields[j].tag).value;
      var g := GroupOf(tbl, n, OpSize).value;
      assert g in r;
      assert KeyOf(g) == GroupKey(n, OpSize);
      GroupKeyInjective(g.structName, g.op, n, OpSize);
    }
  }

  /** The selected value is the one-dot offset tag "s.x". */
  predicate OneDot(f: GoField, s: string)
  {
    var v := Select(f.tag).value;
    Select(f.tag).op == OpOffset && |v| > |s| && v[..|s|] == s && v[|s|] == '.' && '.' !in v[|s| + 1..]
  }

  /** The part after the dot, when the value starts with s. */
  function Member(v: string, s: string): string
  {
    if |v| > |s| then v[|s| + 1..] else ""
  }

  /** offsetof:"s.x" appends field x, pointing at this field, to the (s, offset) group. */
  lemma StepOneDot(t: GoType, path: Path, i: nat, tbl: Table, s: string)
    requires i < |t.fields| && Valid(tbl) && '.' !in s && OneDot(t.fields[i], s)
    ensures Step(t, path, i, tbl) ==
      Ok(AddByField(tbl, s, OpOffset, [Field(Member(Select(t.fields[i].tag).value, s), path + [t.fields[i].name])]))
  {
    OneDotParts(Select(t.fields[i].tag).value, s);
  }

  /** A value "s.x" with a single dot splits into s and x. */
  lemma OneDotParts(v: string, s: string)
    requires '.' !in s && |v| > |s| && v[..|s|] == s && v[|s|] == '.' && '.' !in v[|s| + 1..]
    ensures '.' in v && Strs.Split(v, '.') == [s, Member(v, s)]
  {
    var x := Member(v, s);
    Strs.Around(v, |s|);
    Strs.SplitAfter(s, '.', x);
    Strs.NoSepSingle(x, '.');
  }

  /** offsetof:"a.b.c" has more than one dot and is rejected. */
  lemma StepTwoDots(t: GoType, path: Path, i: nat, tbl: Table, a: string, b: string, c: string)
    requires i < |t.fields| && Valid(tbl) && '.' !in a && '.' !in b
    requires Select(t.fields[i].tag) == Selection(a + "." + b + "." + c, OpOffset)
    ensures Step(t, path, i, tbl) == Err(InvalidOffsetTag(a + "." + b + "." + c))
  {
    var v := a + "." + b + "." + c;
    Strs.SplitAfter(a, '.', b + "." + c);
    Strs.SplitAfter(b, '.', c);
    assert v == a + ['.'] + (b + "." + c);
    assert v[|a|] == '.';
  }

  /**
   * offsetof without a dot on a struct-typed field recurses into that struct
   * and re-files its groups; on any other field it adds an offset field named
   * by the tag to the enclosing struct's group.
   */
  lemma StepNoDot(t: GoType, path: Path, i: nat, tbl: Table)
    requires i < |t.fields| && Valid(tbl)
    requires Select(t.fields[i].tag).op == OpOffset && !Skipped(Select(t.fields[i].tag)) && '.' !in Select(t.fields[i].tag).value
    ensures t.fields[i].typ.kind == StructKind && Gen(t.fields[i].typ, path + [t.fields[i].name]).Err? ==>
      Step(t, path, i, tbl) == Err(InNested(Gen(t.fields[i].typ, path + [t.fields[i].name]).error))
    ensures t.fields[i].typ.kind == StructKind && Gen(t.fields[i].typ, path + [t.fields[i].name]).Ok? ==>
      Step(t, path, i, tbl) == Ok(Refile(tbl, Gen(t.fields[i].typ, path + [t.fields[i].name]).value, Select(t.fields[i].tag).value))
    ensures t.fields[i].typ.kind != StructKind ==>
      Step(t, path, i, tbl) == Ok(AddByField(tbl, StructName(t), OpOffset, [Field(Select(t.fields[i].tag).value, path + [t.fields[i].name])]))
  {
  }

  /** The offset fields asked for by a struct whose every field is tagged "s.x". */
  function DottedFields(t: GoType, path: Path, s: string): (r: seq<Field>)
    ensures |r| == |t.fields|
  {
    seq(|t.fields|, i requires 0 <= i < |t.fields| => Field(Member(Select(t.fields[i].tag).value, s), path + [t.fields[i].name]))
  }

  function SingleGroup(s: string, fs: seq<Field>): Table
  {
    Table(map[GroupKey(s, OpOffset) := Struct(s, OpOffset, None, fs)], [GroupKey(s, OpOffset)])
  }

  lemma {:induction false} DottedFrom(t: GoType, path: Path, s: string, i: nat)
    requires 0 < i <= |t.fields| && '.' !in s
    requires forall k :: 0 <= k < |t.fields| ==> OneDot(t.fields[k], s)
    ensures Valid(SingleGroup(s, DottedFields(t, path, s)[..i]))
    ensures GenFrom(t, path, i, SingleGroup(s, DottedFields(t, path, s)[..i])) == Ok(SingleGroup(s, DottedFields(t, path, s)))
    decreases |t.fields| - i
  {
    var df := DottedFields(t, path, s);
    var tbl := SingleGroup(s, df[..i]);
    SingleGroupValues(s, df[..i]);
    if i < |t.fields| {
      StepOneDot(t, path, i, tbl, s);
      GenFromOk(t, path, i, tbl);
      SingleGroupAppend(s, df[..i], df[i]);
      Strs.TakeSnoc(df, i);
      DottedFrom(t, path, s, i + 1);
    } else {
      assert df[..i] == df;
    }
  }

  lemma SingleGroupFirst(s: string, fs: seq<Field>)
    ensures AddByField(EmptyTable, s, OpOffset, fs) == SingleGroup(s, fs)
  {
    var r := AddByField(EmptyTable, s, OpOffset, fs);
    assert r.order == [GroupKey(s, OpOffset)];
    assert r.groups.Keys == {GroupKey(s, OpOffset)};
  }

  /** One more field for s extends its single group. */
  lemma SingleGroupAppend(s: string, fs: seq<Field>, f: Field)
    ensures Valid(SingleGroup(s, fs))
    ensures AddByField(SingleGroup(s, fs), s, OpOffset, [f]) == SingleGroup(s, fs + [f])
  {
    var tbl := SingleGroup(s, fs);
    assert GroupOf(tbl, s, OpOffset) == Some(Struct(s, OpOffset, None, fs));
    var r := AddByField(tbl, s, OpOffset, [f]);
    assert r.groups.Keys == {GroupKey(s, OpOffset)};
  }

  lemma SingleGroupValues(s: string, fs: seq<Field>)
    ensures Valid(SingleGroup(s, fs)) && Values(SingleGroup(s, fs)) == [Struct(s, OpOffset, None, fs)]
  {
  }

  /** A struct whose every field is tagged offsetof:"s.x" gives one group for s, fields in declaration order. */
  lemma AllDotted(t: GoType, path: Path, s: string)
    requires 0 < |t.fields| && '.' !in s
    requires forall k :: 0 <= k < |t.fields| ==> OneDot(t.fields[k], s)
    ensures Gen(t, path) == Ok([Struct(s, OpOffset, None, DottedFields(t, path, s))])
  {
    var df := DottedFields(t, path, s);
    StepOneDot(t, path, 0, EmptyTable, s);
    assert df[..1] == [df[0]];
    SingleGroupFirst(s, [df[0]]);
    assert Step(t, path, 0, EmptyTable) == Ok(SingleGroup(s, df[..1]));
    DottedFrom(t, path, s, 1);
    assert GenFrom(t, path, 0, EmptyTable) == Ok(SingleGroup(s, df));
    SingleGroupValues(s, df);
  }

  /** New's result, as a specification. */
  function Build(arg: Arg): Result<seq<Struct>, NewError>
  {
    match arg
    case NilArg => Err(NilLayoutMap)
    case NonPointer(_) => Err(NotAPointer)
    case PointerTo(st) =>
      if st.kind != StructKind then Err(NotAStruct(st.name, st.kind))
      else match Gen(st, [])
        case Err(e) => Err(GenerateFailed(e))
        case Ok(structs) => Ok(structs)
  }

  /** New: fails for nil, a non-pointer and a pointer to a non-struct; otherwise generates. */
  method New(arg: Arg) returns (r: Result<seq<Struct>, NewError>)
    ensures r == Build(arg)
    ensures arg.NilArg? ==> r == Err(NilLayoutMap)
    ensures arg.NonPointer? ==> r == Err(NotAPointer)
    ensures arg.PointerTo? && arg.elem.kind != StructKind ==> r == Err(NotAStruct(arg.elem.name, arg.elem.kind))
    ensures arg.PointerTo? && arg.elem.kind == StructKind ==>
      (r.Ok? <==> Gen(arg.elem, []).Ok?) && (r.Ok? ==> r.value == Gen(arg.elem, []).value)
  {
    if arg.NilArg? {
      return Err(NilLayoutMap);
    }
    if !arg.PointerTo? {
      return Err(NotAPointer);
    }
    var st := arg.elem;
    if st.kind != StructKind {
      return Err(NotAStruct(st.name, st.kind));
    }
    var structs := GenerateFromStructType(st, []);
    if structs.Err? {
      return Err(GenerateFailed(structs.error));
    }
    r := Ok(structs.value);
  }
}
