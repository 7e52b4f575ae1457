/**
 * The layout of testdata/test.c read back through DataMap.ReadFromDWARF:
 * a typedef test_t of an anonymous struct holding two ints and a nested
 * anonymous struct, which holds two ints and a further nested struct.
 * The entry stream is the one a compiler emits for it: the nested struct
 * types are children of their enclosing struct, after its members.
 */
module DwarfExamples {
  import opened Wrappers
  import opened Dwarf

  // ----- entry shapes -----

  function Member(off: nat, name: string, typeRef: nat, loc: int): Entry
  {
    Entry(off, TagMember, false, [AttrField(AttrName, Str(name)), AttrField(AttrType, Ref(typeRef)), AttrField(AttrMemberLocation, Num(loc))])
  }

  function AnonStruct(off: nat, size: int): Entry
  {
    Entry(off, TagStructType, true, [AttrField(AttrByteSize, Num(size))])
  }

  function Null(off: nat): Entry { Entry(off, TagNull, false, []) }

  lemma MemberName(off: nat, name: string, typeRef: nat, loc: int)
    ensures NameOf(Member(off, name, typeRef, loc)) == Ok(Some(name))
  {
    var f := Member(off, name, typeRef, loc).field;
    var m1 := map[AttrName := Str(name)];
    var m2 := m1[AttrType := Ref(typeRef)];
    var m3 := m2[AttrMemberLocation := Num(loc)];
    assert AttrsFrom(f, 0, map[]) == AttrsFrom(f, 1, m1);
    assert AttrsFrom(f, 1, m1) == AttrsFrom(f, 2, m2);
    assert AttrsFrom(f, 2, m2) == AttrsFrom(f, 3, m3);
    assert m3[AttrName] == Str(name);
  }

  lemma AnonStructFacts(off: nat, size: int)
    ensures NameOf(AnonStruct(off, size)) == Ok(None)
    ensures Definition(AnonStruct(off, size))
  {
    var f := AnonStruct(off, size).field;
    assert AttrsFrom(f, 0, map[]) == Ok(map[AttrByteSize := Num(size)]);
  }

  // ----- test.c -----

  const IntT := OtherType("int", 4)

  function DeeplyT(): DType
  {
    StructType("", 8, [StructField("deeply_nested_a", IntT, 0), StructField("deeply_nested_b", IntT, 4)])
  }

  function NestedT(): DType
  {
    StructType("", 16, [StructField("nested_a", IntT, 0), StructField("nested_b", IntT, 4), StructField("deeply_nested", DeeplyT(), 8)])
  }

  function OuterT(): DType
  {
    StructType("", 24, [StructField("a", IntT, 0), StructField("b", IntT, 4), StructField("nested", NestedT(), 8)])
  }

  function Unit(): Entry { Entry(11, TagCompileUnit, true, [AttrField(AttrName, Str("test.c"))]) }
  function IntBase(): Entry { Entry(20, TagBaseType, false, [AttrField(AttrName, Str("int")), AttrField(AttrByteSize, Num(4))]) }
  function Typedef(): Entry { Entry(150, TagTypedef, false, [AttrField(AttrName, Str("test_t")), AttrField(AttrType, Ref(30))]) }
  function MainProgram(): Entry { Entry(160, TagSubprogram, false, [AttrField(AttrName, Str("main"))]) }

  /** The slot at each position of the entry stream. */
  function SlotAt(k: nat): Slot
  {
    if k == 0 then Good(Unit())
    else if k == 1 then Good(IntBase())
    else if k == 2 then Good(AnonStruct(30, 24))
    else if k == 3 then Good(Member(40, "a", 20, 0))
    else if k == 4 then Good(Member(50, "b", 20, 4))
    else if k == 5 then Good(Member(60, "nested", 70, 8))
    else if k == 6 then Good(AnonStruct(70, 16))
    else if k == 7 then Good(Member(80, "nested_a", 20, 0))
    else if k == 8 then Good(Member(90, "nested_b", 20, 4))
    else if k == 9 then Good(Member(100, "deeply_nested", 110, 8))
    else if k == 10 then Good(AnonStruct(110, 8))
    else if k == 11 then Good(Member(120, "deeply_nested_a", 20, 0))
    else if k == 12 then Good(Member(130, "deeply_nested_b", 20, 4))
    else if k == 13 then Good(Null(140))
    else if k == 14 then Good(Null(141))
    else if k == 15 then Good(Null(142))
    else if k == 16 then Good(Typedef())
    else if k == 17 then Good(MainProgram())
    else Good(Null(170))
  }

  function Stream(): seq<Slot>
  {
    seq(19, k requires 0 <= k < 19 => SlotAt(k))
  }

  function TestDwarf(): Dwarf
  {
    Dwarf(Stream(), map[30 := OuterT(), 70 := NestedT(), 110 := DeeplyT()])
  }

  function NoSymbols(name: string): Option<int> { None }

  function Plain(source: string, op: ExOp, target: string): Extractor { Extractor(source, op, false, target) }

  /** The routes of the test's layout struct, one chain per struct reached. */
  function Route1(): RouteNode
  {
    RouteNode("test_t", None, [Plain("test_t", OpSizeOf, "Size"), Plain("a", OpOffsetOf, "A"), Plain("b", OpOffsetOf, "B"), Plain("nested", OpSizeOf, "NestedSize")])
  }

  function NestedLeaf(): RouteNode
  {
    RouteNode("nested", None, [Plain("nested_a", OpOffsetOf, "NestedA"), Plain("nested_b", OpOffsetOf, "NestedB"), Plain("deeply_nested", OpSizeOf, "DeeplyNestedSize")])
  }

  function DeeplyLeaf(): RouteNode
  {
    RouteNode("deeply_nested", None, [Plain("deeply_nested_a", OpOffsetOf, "DeeplyNestedA"), Plain("deeply_nested_b", OpOffsetOf, "DeeplyNestedB")])
  }

  function Route2(): RouteNode { RouteNode("test_t", Some(NestedLeaf()), []) }

  function Route3(): RouteNode { RouteNode("test_t", Some(RouteNode("nested", Some(DeeplyLeaf()), [])), []) }

  function Routes(): seq<RouteNode> { [Route1(), Route2(), Route3()] }

  // ----- scanning helpers -----

  /** A slot the type scan passes over without a match. */
  predicate Unnamed(s: Slot, name: string)
  {
    s.Good? && (!(IsComposite(s.e) || s.e.tag == TagTypedef) || (NameOf(s.e).Ok? && NameOf(s.e) != Ok(Some(name))))
  }

  lemma {:induction false} SkipComposite(s: seq<Slot>, name: string, a: nat, b: nat, acc: seq<Entry>)
    requires a <= b <= |s|
    requires forall k :: a <= k < b ==> Unnamed(s[k], name)
    ensures CompositeFrom(s, name, a, acc) == CompositeFrom(s, name, b, acc)
    decreases b - a
  {
    if a < b {
      SkipComposite(s, name, a + 1, b, acc);
    }
  }

  lemma {:induction false} SkipField(s: seq<Slot>, name: string, a: nat, b: nat)
    requires a <= b <= |s|
    requires forall k :: a <= k < b ==> PassedBy(s[k], name)
    ensures FieldEntryFrom(s, name, a) == FieldEntryFrom(s, name, b)
    decreases b - a
  {
    if a < b {
      SkipField(s, name, a + 1, b);
    }
  }

  lemma {:induction false} SeekAt(s: seq<Slot>, off: nat, k: nat)
    requires k < |s| && s[k].Good? && s[k].e.offset == off
    requires forall j :: 0 <= j < k ==> !(s[j].Good? && s[j].e.offset == off)
    ensures SeekIndex(s, off) == k
    decreases k
  {
    if k > 0 {
      assert s[1..][k - 1] == s[k];
      SeekAt(s[1..], off, k - 1);
    }
  }

  // ----- the scans -----

  lemma TypedefName()
    ensures NameOf(Typedef()) == Ok(Some("test_t"))
  {
    var f := Typedef().field;
    var m1 := map[AttrName := Str("test_t")];
    assert AttrsFrom(f, 0, map[]) == AttrsFrom(f, 1, m1);
    assert AttrsFrom(f, 1, m1) == AttrsFrom(f, 2, m1[AttrType := Ref(30)]);
  }

  lemma ScanPrefix()
    ensures forall k :: 0 <= k < 16 ==> Unnamed(Stream()[k], "test_t")
  {
    forall k | 0 <= k < 16 ensures Unnamed(Stream()[k], "test_t") {
      if k == 2 {
        AnonStructFacts(30, 24);
      } else if k == 6 {
        AnonStructFacts(70, 16);
      } else if k == 10 {
        AnonStructFacts(110, 8);
      }
    }
  }

  lemma ScanTail()
    ensures CompositeFrom(Stream(), "test_t", 16, []) == Ok([Typedef()])
  {
    var s := Stream();
    TypedefName();
    assert s[16] == Good(Typedef());
    assert [] + [Typedef()] == [Typedef()];
    assert CompositeFrom(s, "test_t", 16, []) == CompositeFrom(s, "test_t", 17, [Typedef()]);
    assert Unnamed(s[17], "test_t") && Unnamed(s[18], "test_t");
    SkipComposite(s, "test_t", 17, 19, [Typedef()]);
  }

  lemma ScanTestT()
    ensures CompositeFrom(Stream(), "test_t", 0, []) == Ok([Typedef()])
  {
    ScanPrefix();
    SkipComposite(Stream(), "test_t", 0, 16, []);
    ScanTail();
  }

  lemma SeekOuter()
    ensures SeekIndex(Stream(), 30) == 2
  {
    assert Stream()[0].e.offset == 11 && Stream()[1].e.offset == 20;
    SeekAt(Stream(), 30, 2);
  }

  lemma TypedefType()
    ensures TypeOf(TestDwarf(), Typedef()) == Ok(AnonStruct(30, 24))
  {
    var f := Typedef().field;
    var m1 := map[AttrName := Str("test_t")];
    assert AttrsFrom(f, 0, map[]) == AttrsFrom(f, 1, m1);
    assert AttrsFrom(f, 1, m1) == AttrsFrom(f, 2, m1[AttrType := Ref(30)]);
    SeekOuter();
    assert EntryAt(TestDwarf(), 30) == Some(AnonStruct(30, 24));
  }

  lemma ActionableTestT()
    ensures FindActionableEntry(TestDwarf(), [Typedef()]) == Ok(AnonStruct(30, 24))
  {
    TypedefType();
    AnonStructFacts(30, 24);
    assert Candidate(TestDwarf(), Typedef()) == Ok(Some(AnonStruct(30, 24)));
  }

  lemma FieldMapSnoc(fs: seq<StructField>, f: StructField)
    ensures FieldMap(fs + [f]) == FieldMap(fs)[f.name := f]
  {
    assert (fs + [f])[..|fs|] == fs;
  }

  lemma FieldMap3(x: StructField, y: StructField, z: StructField)
    ensures FieldMap([x, y, z]) == map[x.name := x][y.name := y][z.name := z]
  {
    FieldMapSnoc([], x);
    assert [] + [x] == [x];
    FieldMapSnoc([x], y);
    assert [x] + [y] == [x, y];
    FieldMapSnoc([x, y], z);
    assert [x, y] + [z] == [x, y, z];
  }

  lemma OuterFields()
    ensures FieldMap(OuterT().fields) ==
      map["a" := StructField("a", IntT, 0), "b" := StructField("b", IntT, 4), "nested" := StructField("nested", NestedT(), 8)]
  {
    FieldMap3(StructField("a", IntT, 0), StructField("b", IntT, 4), StructField("nested", NestedT(), 8));
  }

  lemma NestedFields()
    ensures FieldMap(NestedT().fields) ==
      map["nested_a" := StructField("nested_a", IntT, 0), "nested_b" := StructField("nested_b", IntT, 4), "deeply_nested" := StructField("deeply_nested", DeeplyT(), 8)]
  {
    FieldMap3(StructField("nested_a", IntT, 0), StructField("nested_b", IntT, 4), StructField("deeply_nested", DeeplyT(), 8));
  }

  lemma DeeplyFields()
    ensures FieldMap(DeeplyT().fields) ==
      map["deeply_nested_a" := StructField("deeply_nested_a", IntT, 0), "deeply_nested_b" := StructField("deeply_nested_b", IntT, 4)]
  {
    var x := StructField("deeply_nested_a", IntT, 0);
    var y := StructField("deeply_nested_b", IntT, 4);
    FieldMapSnoc([], x);
    assert [] + [x] == [x];
    FieldMapSnoc([x], y);
    assert [x] + [y] == [x, y];
  }

  /** The reader stops at a named entry with the name it looks for. */
  lemma FoundAt(s: seq<Slot>, name: string, k: nat)
    requires k < |s| && s[k].Good? && s[k].e.tag != TagNull && name != "" && NameOf(s[k].e) == Ok(Some(name))
    ensures FieldEntryFrom(s, name, k) == Ok(s[k].e)
  {
  }

  lemma NestedPassed()
    ensures forall k :: 2 <= k < 5 ==> PassedBy(Stream()[k], "nested")
  {
    AnonStructFacts(30, 24);
    MemberName(40, "a", 20, 0);
    MemberName(50, "b", 20, 4);
    var s := Stream();
    assert PassedBy(s[2], "nested") && PassedBy(s[3], "nested") && PassedBy(s[4], "nested");
  }

  /** From the outer struct, the member nested is the fourth entry read. */
  lemma FindNested()
    ensures FieldEntry(TestDwarf(), AnonStruct(30, 24), "nested") == Ok(Member(60, "nested", 70, 8))
  {
    var s := Stream();
    SeekOuter();
    NestedPassed();
    SkipField(s, "nested", 2, 5);
    MemberName(60, "nested", 70, 8);
    FoundAt(s, "nested", 5);
  }

  lemma SeekNested()
    ensures SeekIndex(Stream(), 60) == 5
  {
    var s := Stream();
    assert s[0].e.offset == 11 && s[1].e.offset == 20 && s[2].e.offset == 30 && s[3].e.offset == 40 && s[4].e.offset == 50;
    forall j | 0 <= j < 5 ensures !(s[j].Good? && s[j].e.offset == 60) {
    }
    SeekAt(s, 60, 5);
  }

  lemma DeeplyPassedFirst()
    ensures PassedBy(Stream()[5], "deeply_nested") && PassedBy(Stream()[6], "deeply_nested")
  {
    MemberName(60, "nested", 70, 8);
    AnonStructFacts(70, 16);
  }

  lemma DeeplyPassedSecond()
    ensures PassedBy(Stream()[7], "deeply_nested") && PassedBy(Stream()[8], "deeply_nested")
  {
    MemberName(80, "nested_a", 20, 0);
    MemberName(90, "nested_b", 20, 4);
  }

  lemma DeeplyPassed()
    ensures forall k :: 5 <= k < 9 ==> PassedBy(Stream()[k], "deeply_nested")
  {
    DeeplyPassedFirst();
    DeeplyPassedSecond();
    forall k | 5 <= k < 9
      ensures PassedBy(Stream()[k], "deeply_nested")
    {
      assert k == 5 || k == 6 || k == 7 || k == 8;
    }
  }

  /** From the member nested, the reader passes the nested struct type and two members first. */
  lemma FindDeeplyNested()
    ensures FieldEntry(TestDwarf(), Member(60, "nested", 70, 8), "deeply_nested") == Ok(Member(100, "deeply_nested", 110, 8))
  {
    var s := Stream();
    SeekNested();
    DeeplyPassed();
    SkipField(s, "deeply_nested", 5, 9);
    MemberName(100, "deeply_nested", 110, 8);
    FoundAt(s, "deeply_nested", 9);
  }

  // ----- the three routes -----

  lemma Extract1(d: Dwarf)
    ensures ExtractFrom(d, NoSymbols, Leaf(Route1(), AnonStruct(30, 24), OuterT(), 0), 0) ==
      Outcome(Writes1(), None)
  {
    var leaf := Leaf(Route1(), AnonStruct(30, 24), OuterT(), 0);
    OuterFields();
    ExtractWrites(d, NoSymbols, leaf);
  }

  lemma Extract2(d: Dwarf)
    ensures ExtractFrom(d, NoSymbols, Leaf(NestedLeaf(), Member(60, "nested", 70, 8), NestedT(), 8), 0) ==
      Outcome(Writes2(), None)
  {
    var leaf := Leaf(NestedLeaf(), Member(60, "nested", 70, 8), NestedT(), 8);
    NestedFields();
    ExtractWrites(d, NoSymbols, leaf);
  }

  lemma Extract3(d: Dwarf)
    ensures ExtractFrom(d, NoSymbols, Leaf(DeeplyLeaf(), Member(100, "deeply_nested", 110, 8), DeeplyT(), 16), 0) ==
      Outcome(Writes3(), None)
  {
    var leaf := Leaf(DeeplyLeaf(), Member(100, "deeply_nested", 110, 8), DeeplyT(), 16);
    DeeplyFields();
    ExtractWrites(d, NoSymbols, leaf);
  }

  lemma FindOuter()
    ensures CompositeFrom(TestDwarf().stream, "test_t", 0, []) == Ok([Typedef()])
    ensures FindActionableEntry(TestDwarf(), [Typedef()]) == Ok(AnonStruct(30, 24))
    ensures TypeAt(TestDwarf(), 30) == Ok(OuterT())
  {
    ScanTestT();
    ActionableTestT();
  }

  lemma Route1Writes()
    ensures RouteOutcome(TestDwarf(), NoSymbols, Route1()) ==
      Outcome(Writes1(), None)
  {
    FindOuter();
    ScanTestT();
    assert Walk(TestDwarf(), Route1(), AnonStruct(30, 24), OuterT(), 0) == Ok(Leaf(Route1(), AnonStruct(30, 24), OuterT(), 0));
    Extract1(TestDwarf());
  }

  lemma Route2Walk()
    ensures Walk(TestDwarf(), Route2(), AnonStruct(30, 24), OuterT(), 0) == Ok(Leaf(NestedLeaf(), Member(60, "nested", 70, 8), NestedT(), 8))
  {
    OuterFields();
    FindNested();
  }

  lemma Route2Writes()
    ensures RouteOutcome(TestDwarf(), NoSymbols, Route2()) ==
      Outcome(Writes2(), None)
  {
    FindOuter();
    ScanTestT();
    Route2Walk();
    Extract2(TestDwarf());
  }

  lemma Route3Walk()
    ensures Walk(TestDwarf(), Route3(), AnonStruct(30, 24), OuterT(), 0) == Ok(Leaf(DeeplyLeaf(), Member(100, "deeply_nested", 110, 8), DeeplyT(), 16))
  {
    var mid := RouteNode("nested", Some(DeeplyLeaf()), []);
    NestedFields();
    FindDeeplyNested();
    assert Walk(TestDwarf(), mid, Member(60, "nested", 70, 8), NestedT(), 8) == Ok(Leaf(DeeplyLeaf(), Member(100, "deeply_nested", 110, 8), DeeplyT(), 16));
    OuterFields();
    FindNested();
  }

  lemma Route3Writes()
    ensures RouteOutcome(TestDwarf(), NoSymbols, Route3()) ==
      Outcome(Writes3(), None)
  {
    FindOuter();
    ScanTestT();
    Route3Walk();
    Extract3(TestDwarf());
  }

  lemma ThreeRoutes(d: Dwarf, sym: string -> Option<int>, rs: seq<RouteNode>, w1: seq<Write>, w2: seq<Write>, w3: seq<Write>)
    requires |rs| == 3
    requires RouteOutcome(d, sym, rs[0]) == Outcome(w1, None)
    requires RouteOutcome(d, sym, rs[1]) == Outcome(w2, None)
    requires RouteOutcome(d, sym, rs[2]) == Outcome(w3, None)
    ensures RoutesFrom(d, sym, rs, 0) == Outcome(w1 + w2 + w3, None)
  {
    assert RoutesFrom(d, sym, rs, 3) == Outcome([], None);
    assert RoutesFrom(d, sym, rs, 2) == Outcome(w3 + [], None);
    assert w3 + [] == w3;
    assert RoutesFrom(d, sym, rs, 1) == Outcome(w2 + w3, None);
    assert w1 + (w2 + w3) == w1 + w2 + w3;
  }

  function Writes1(): seq<Write> { [Write("Size", 24), Write("A", 0), Write("B", 4), Write("NestedSize", 16)] }
  function Writes2(): seq<Write> { [Write("NestedA", 8), Write("NestedB", 12), Write("DeeplyNestedSize", 8)] }
  function Writes3(): seq<Write> { [Write("DeeplyNestedA", 16), Write("DeeplyNestedB", 20)] }

  lemma AllWrites()
    ensures Writes1() + Writes2() + Writes3() ==
      [ Write("Size", 24), Write("A", 0), Write("B", 4), Write("NestedSize", 16),
        Write("NestedA", 8), Write("NestedB", 12), Write("DeeplyNestedSize", 8),
        Write("DeeplyNestedA", 16), Write("DeeplyNestedB", 20) ]
  {
    var all := Writes1() + Writes2() + Writes3();
    forall i | 0 <= i < 9 ensures all[i] == [ Write("Size", 24), Write("A", 0), Write("B", 4), Write("NestedSize", 16),
        Write("NestedA", 8), Write("NestedB", 12), Write("DeeplyNestedSize", 8),
        Write("DeeplyNestedA", 16), Write("DeeplyNestedB", 20) ][i] {
    }
  }

  /** The sizes and offsets the test expects of test_t: 24, 0, 4, 16, 8, 12, 8, 16, 20. */
  lemma TestLayout()
    ensures ReadSpec(Some(TestDwarf()), NoSymbols, Routes()) == Outcome(
      [ Write("Size", 24), Write("A", 0), Write("B", 4), Write("NestedSize", 16),
        Write("NestedA", 8), Write("NestedB", 12), Write("DeeplyNestedSize", 8),
        Write("DeeplyNestedA", 16), Write("DeeplyNestedB", 20) ], None)
  {
    Route1Writes();
    Route2Writes();
    Route3Writes();
    ThreeRoutes(TestDwarf(), NoSymbols, Routes(), Writes1(), Writes2(), Writes3());
    AllWrites();
  }
}
