/**
 * Concrete layout structs for datamap.New, among them ones taken from the
 * cases of pkg/datamap/datamap_test.go, with what the code as written makes
 * of them.
 */
module DatamapExamples {
  import opened Wrappers
  import opened Datamap

  const IntT := GoType("int", "int", Int, [])

  function Anon(fields: seq<GoField>): GoType { GoType("", "struct { ... }", StructKind, fields) }

  /** The tag value "s.x". */
  function Dotted(s: string, x: string): string { s + "." + x }

  /** offsetof:"s.x" with no other dot is a one-dot tag naming member x of s. */
  lemma DottedTag(f: GoField, s: string, x: string)
    requires f.tag == Tagged("offsetof", Dotted(s, x)) && '.' !in s && '.' !in x
    ensures OneDot(f, s) && Member(Select(f.tag).value, s) == x
  {
    var v := Dotted(s, x);
    OffsetTag(v);
    assert v[..|s|] == s && v[|s|] == '.' && v[|s| + 1..] == x;
  }

  /** sizeof on an int64 field creates the size group pointing at that field. */
  lemma StepSizeField(t: GoType, path: Path, i: nat, tbl: Table)
    requires i < |t.fields| && Valid(tbl)
    requires Select(t.fields[i].tag).op == OpSize && !Skipped(Select(t.fields[i].tag)) && t.fields[i].typ.kind == Int64
    ensures Step(t, path, i, tbl) == Ok(AddByStruct(tbl, Select(t.fields[i].tag).value, OpSize, path + [t.fields[i].name]))
  {
  }

  /** Two offset groups created one after the other come out in that order. */
  lemma TwoFieldGroups(n1: string, fs1: seq<Field>, n2: string, fs2: seq<Field>)
    requires n1 != n2
    ensures Values(AddByField(AddByField(EmptyTable, n1, OpOffset, fs1), n2, OpOffset, fs2)) ==
      [Struct(n1, OpOffset, None, fs1), Struct(n2, OpOffset, None, fs2)]
  {
    var t1 := AddByField(EmptyTable, n1, OpOffset, fs1);
    var t2 := AddByField(t1, n2, OpOffset, fs2);
    assert GroupOf(t2, n1, OpOffset) == GroupOf(t1, n1, OpOffset);
    assert t2.order == [GroupKey(n1, OpOffset), GroupKey(n2, OpOffset)];
  }

  /** An offset group and then a size group come out in that order. */
  lemma FieldThenSizeGroups(n1: string, fs1: seq<Field>, n2: string, v: Path)
    ensures Values(AddByStruct(AddByField(EmptyTable, n1, OpOffset, fs1), n2, OpSize, v)) ==
      [Struct(n1, OpOffset, None, fs1), Struct(n2, OpSize, Some(v), [])]
  {
    var t1 := AddByField(EmptyTable, n1, OpOffset, fs1);
    var t2 := AddByStruct(t1, n2, OpSize, v);
    assert GroupOf(t1, n2, OpSize) == None;
    assert GroupOf(t2, n1, OpOffset) == GroupOf(t1, n1, OpOffset);
    assert t2.order == [GroupKey(n1, OpOffset), GroupKey(n2, OpSize)];
  }

  /** The "simple" case: two fields tagged simple.a and simple.b form one group. */
  lemma SimpleCase()
    ensures Build(PointerTo(Anon([
        GoField("gopherA", IntT, Tagged("offsetof", Dotted("simple", "a"))),
        GoField("b", IntT, Tagged("offsetof", Dotted("simple", "b")))]))) ==
      Ok([Struct("simple", OpOffset, None, [Field("a", ["gopherA"]), Field("b", ["b"])])])
  {
    var t := Anon([
      GoField("gopherA", IntT, Tagged("offsetof", Dotted("simple", "a"))),
      GoField("b", IntT, Tagged("offsetof", Dotted("simple", "b")))]);
    DottedTag(t.fields[0], "simple", "a");
    DottedTag(t.fields[1], "simple", "b");
    AllDotted(t, [], "simple");
    var df := DottedFields(t, [], "simple");
    var none: Path := [];
    assert none + ["gopherA"] == ["gopherA"] && none + ["b"] == ["b"];
    assert df[0] == Field("a", ["gopherA"]) && df[1] == Field("b", ["b"]);
    assert df == [Field("a", ["gopherA"]), Field("b", ["b"])];
  }

  /** An untagged struct gives no groups (the "no tags" case of the tests expects an error instead). */
  lemma NoTagsCase()
    ensures Build(PointerTo(Anon([GoField("a", IntT, []), GoField("b", IntT, [])]))) == Ok([])
  {
    var t := Anon([GoField("a", IntT, []), GoField("b", IntT, [])]);
    assert Select([]) == Selection("", OpOffset);
    assert Step(t, [], 0, EmptyTable) == Ok(EmptyTable);
    assert Step(t, [], 1, EmptyTable) == Ok(EmptyTable);
    assert GenFrom(t, [], 1, EmptyTable) == Ok(EmptyTable);
    assert GenFrom(t, [], 0, EmptyTable) == Ok(EmptyTable);
    assert Values(EmptyTable) == [];
    assert Gen(t, []) == Ok([]);
  }

  /** sizeof on an int field is rejected (the "sizeof" case of the tests expects two size groups). */
  lemma SizeofOnIntCase()
    ensures Build(PointerTo(Anon([GoField("a", IntT, Tagged("sizeof", "A")), GoField("b", IntT, Tagged("sizeof", "B"))]))) ==
      Err(GenerateFailed(SizeNotInt64(Int)))
  {
    var t := Anon([GoField("a", IntT, Tagged("sizeof", "A")), GoField("b", IntT, Tagged("sizeof", "B"))]);
    SizeTag("A");
    assert Step(t, [], 0, EmptyTable) == Err(SizeNotInt64(Int));
    assert GenFrom(t, [], 0, EmptyTable) == Err(SizeNotInt64(Int));
    assert Gen(t, []) == Err(SizeNotInt64(Int));
  }

  /** The struct of the "ignore" case. */
  function IgnoreStruct(): GoType
  {
    Anon([
      GoField("a", IntT, Tagged("offsetof", "-")),
      GoField("b", IntT, Tagged("offsetof", "_MyStruct.b")),
      GoField("c", IntT, Tagged("offsetof", ""))])
  }

  lemma IgnoreFirst() ensures Step(IgnoreStruct(), [], 0, EmptyTable) == Ok(EmptyTable) { OffsetTag("-"); }

  lemma IgnoreSecond()
    ensures Step(IgnoreStruct(), [], 1, EmptyTable) == Ok(SingleGroup("_MyStruct", [Field("b", ["b"])]))
  {
    var t := IgnoreStruct();
    var f := t.fields[1];
    assert f == GoField("b", IntT, Tagged("offsetof", "_MyStruct.b"));
    OffsetTag("_MyStruct.b");
    assert OneDot(f, "_MyStruct");
    StepOneDot(t, [], 1, EmptyTable, "_MyStruct");
    assert Member("_MyStruct.b", "_MyStruct") == "b";
    var p: Path := [];
    assert Select(f.tag).value == "_MyStruct.b";
    assert p + [f.name] == ["b"];
    var fs := [Field(Member(Select(f.tag).value, "_MyStruct"), p + [f.name])];
    assert fs == [Field("b", ["b"])];
    SingleGroupFirst("_MyStruct", fs);
  }

  lemma IgnoreThird()
    ensures Valid(SingleGroup("_MyStruct", [Field("b", ["b"])]))
    ensures Step(IgnoreStruct(), [], 2, SingleGroup("_MyStruct", [Field("b", ["b"])])) == Ok(SingleGroup("_MyStruct", [Field("b", ["b"])]))
  {
    SingleGroupValues("_MyStruct", [Field("b", ["b"])]);
    EmptyOffsetTag();
  }

  lemma IgnoreFields()
    ensures GenFrom(IgnoreStruct(), [], 0, EmptyTable) == Ok(SingleGroup("_MyStruct", [Field("b", ["b"])]))
  {
    var tbl := SingleGroup("_MyStruct", [Field("b", ["b"])]);
    IgnoreThird();
    assert GenFrom(IgnoreStruct(), [], 2, tbl) == Ok(tbl);
    IgnoreSecond();
    assert GenFrom(IgnoreStruct(), [], 1, EmptyTable) == Ok(tbl);
    IgnoreFirst();
  }

  /** The "ignore" case: fields tagged "-" and "" are skipped. */
  lemma IgnoreCase()
    ensures Build(PointerTo(IgnoreStruct())) == Ok([Struct("_MyStruct", OpOffset, None, [Field("b", ["b"])])])
  {
    IgnoreFields();
    SingleGroupValues("_MyStruct", [Field("b", ["b"])]);
  }

  /** The two-dot tag of the "nested target" case. */
  const TwoDots := Dotted(Dotted("_AnotherStructTypeILookFor", "nested_struct"), "field_two")

  /** The struct of the "nested target" case (its first two fields). */
  function NestedTargetStruct(): GoType
  {
    Anon([
      GoField("a", IntT, Tagged("offsetof", Dotted("_StructTypeILookFor", "field_one"))),
      GoField("b", IntT, Tagged("offsetof", TwoDots))])
  }

  lemma NestedTargetFirst()
    ensures Step(NestedTargetStruct(), [], 0, EmptyTable).Ok?
  {
    var t := NestedTargetStruct();
    DottedTag(t.fields[0], "_StructTypeILookFor", "field_one");
    StepOneDot(t, [], 0, EmptyTable, "_StructTypeILookFor");
  }

  lemma NestedTargetSecond(tbl: Table)
    requires Valid(tbl)
    ensures Step(NestedTargetStruct(), [], 1, tbl) == Err(InvalidOffsetTag(TwoDots))
  {
    OffsetTag(TwoDots);
    StepTwoDots(NestedTargetStruct(), [], 1, tbl, "_AnotherStructTypeILookFor", "nested_struct", "field_two");
  }

  /** The "nested target" case: a two-dot tag is rejected (the tests expect a two-level route). */
  lemma NestedTargetFields()
    ensures GenFrom(NestedTargetStruct(), [], 0, EmptyTable) == Err(InvalidOffsetTag(TwoDots))
  {
    var t := NestedTargetStruct();
    NestedTargetFirst();
    var tbl := Step(t, [], 0, EmptyTable).value;
    NestedTargetSecond(tbl);
    GenFromOk(t, [], 0, EmptyTable);
    GenFromErr(t, [], 1, tbl);
  }

  lemma NestedTargetCase()
    ensures Build(PointerTo(NestedTargetStruct())) == Err(GenerateFailed(InvalidOffsetTag(TwoDots)))
  {
    NestedTargetFields();
  }

  /** A nested anonymous struct asking for the offset of x and the size of S. */
  function Inner(): GoType
  {
    Anon([GoField("x", Int64T, Tagged("offsetof", "x")), GoField("n", Int64T, Tagged("sizeof", "S"))])
  }

  function Outer(): GoType { Anon([GoField("inner", Inner(), Tagged("offsetof", "Outer"))]) }

  function InnerGroups(): seq<Struct>
  {
    [Struct("struct { ... }", OpOffset, None, [Field("x", ["inner", "x"])]), Struct("S", OpSize, Some(["inner", "n"]), [])]
  }

  /** The inner struct's table after its first field. */
  function InnerFirstTable(): Table
  {
    AddByField(EmptyTable, "struct { ... }", OpOffset, [Field("x", ["inner", "x"])])
  }

  lemma InnerFirst()
    ensures Valid(InnerFirstTable())
    ensures Step(Inner(), ["inner"], 0, EmptyTable) == Ok(InnerFirstTable())
  {
    OffsetTag("x");
    assert ["inner"] + ["x"] == ["inner", "x"];
    StepNoDot(Inner(), ["inner"], 0, EmptyTable);
  }

  lemma InnerSecond()
    ensures Valid(InnerFirstTable())
    ensures Step(Inner(), ["inner"], 1, InnerFirstTable()) == Ok(AddByStruct(InnerFirstTable(), "S", OpSize, ["inner", "n"]))
  {
    InnerFirst();
    SizeTag("S");
    assert ["inner"] + ["n"] == ["inner", "n"];
    StepSizeField(Inner(), ["inner"], 1, InnerFirstTable());
  }

  lemma InnerGen()
    ensures Gen(Inner(), ["inner"]) == Ok(InnerGroups())
  {
    var t := Inner();
    InnerFirst();
    GenFromOk(t, ["inner"], 0, EmptyTable);
    InnerSecond();
    GenFromOk(t, ["inner"], 1, InnerFirstTable());
    FieldThenSizeGroups("struct { ... }", [Field("x", ["inner", "x"])], "S", ["inner", "n"]);
  }

  function OuterTable(): Table
  {
    AddByField(AddByField(EmptyTable, "Outer", OpOffset, [Field("x", ["inner", "x"])]), "S", OpOffset, [])
  }

  lemma OuterRefile()
    ensures Refile(EmptyTable, InnerGroups(), "Outer") == OuterTable()
  {
    assert Strs.HasPrefix("struct { ... }", "struct ");
    assert !Strs.HasPrefix("S", "struct ");
    var o1 := AddByField(EmptyTable, "Outer", OpOffset, [Field("x", ["inner", "x"])]);
    assert Refile(EmptyTable, InnerGroups(), "Outer") == Refile(o1, InnerGroups()[1..], "Outer");
    assert InnerGroups()[1..][1..] == [];
  }

  lemma OuterField()
    ensures Select(Outer().fields[0].tag) == Selection("Outer", OpOffset) && '.' !in "Outer"
    ensures Outer().fields[0].typ == Inner() && Inner().kind == StructKind
    ensures [] + [Outer().fields[0].name] == ["inner"]
  {
    OffsetTag("Outer");
  }

  lemma OuterStep()
    ensures Step(Outer(), [], 0, EmptyTable) == Ok(OuterTable())
  {
    OuterField();
    StepNoDot(Outer(), [], 0, EmptyTable);
    InnerGen();
    OuterRefile();
  }

  lemma OuterValues()
    ensures Values(OuterTable()) == [Struct("Outer", OpOffset, None, [Field("x", ["inner", "x"])]), Struct("S", OpOffset, None, [])]
  {
    TwoFieldGroups("Outer", [Field("x", ["inner", "x"])], "S", []);
  }

  /**
   * A nested anonymous struct's offset group is re-filed under the outer tag
   * value; its size group becomes an empty offset group under its own name.
   */
  lemma NestedAnonymousCase()
    ensures Build(PointerTo(Outer())) ==
      Ok([Struct("Outer", OpOffset, None, [Field("x", ["inner", "x"])]), Struct("S", OpOffset, None, [])])
  {
    OuterStep();
    assert GenFrom(Outer(), [], 0, EmptyTable) == Ok(OuterTable());
    OuterValues();
  }
}
