/**
 * The OpenJDK layout mapper: one constraint admitting every version from 17
 * on, pre-releases included, and a mapper struct whose Layout copies each
 * extracted field into the java.Layout field of the same name.
 *
 * java.Layout is modelled as the map from its field names to their values;
 * all its fields are uint64.
 */
module OpenJdk {
  import opened Wrappers
  import Semver
  import Strs
  import opened Datamap
  import PythonDatamap

  /** ">=17.0.0-0". */
  const Above17: Semver.Constraint := Semver.AtLeast(Semver.Version(17, 0, 0, "0", ""))

  /** DataMapForLayout on a parsed version: the openjdk mapper or nil. */
  predicate HasMapper(v: Semver.Version) { Semver.Check(Above17, v) }

  /** Every version from 17.0.0 on, pre-releases included, and no other gets the mapper. */
  lemma HasMapperMeaning(v: Semver.Version)
    requires Semver.Valid(v)
    ensures HasMapper(v) <==> v.major >= 17
  {
    Semver.AtLeastZeroPre(v, Semver.Version(17, 0, 0, "0", ""));
  }

  /** The outcome of DataMapForLayout: MustParse panics on an unparsable version. */
  datatype Dispatch = Unparsable | NoMapper | Found

  function DataMapForLayout(s: string): (r: Dispatch)
    ensures r == Unparsable <==> Semver.Parse(s).None?
    ensures r == Found <==> Semver.Parse(s).Some? && Semver.Parse(s).value.major >= 17
  {
    match Semver.Parse(s)
    case None => Unparsable
    case Some(v) =>
      Semver.ParseValid(s);
      HasMapperMeaning(v);
      if HasMapper(v) then Found else NoMapper
  }

  // ----- the mapper struct -----

  /** No character of s is a dot. */
  predicate NoDot(s: string) { forall k :: 0 <= k < |s| ==> s[k] != '.' }

  /** A C identifier as the tags use it: non-empty and without a dot. */
  type Ident = s: string | s != "" && NoDot(s) witness "_"

  /**
   * A field of the openjdk struct: offsetof:"strct.member" or sizeof:"strct".
   * The parts are identifiers, so every constant below is checked to carry
   * tags with at most one dot.
   */
  datatype Decl = Off(goName: string, strct: Ident, member: Ident) | Sz(goName: string, strct: Ident)

  /** The tag value a declaration carries. */
  function TagValue(d: Decl): string
  {
    match d
    case Off(_, s, m) => s + "." + m
    case Sz(_, s) => s
  }

  /** The Go field a declaration stands for: every openjdk field is a uint64. */
  function ToGoField(d: Decl): GoField
  {
    GoField(d.goName, Uint64T, Tagged(if d.Off? then "offsetof" else "sizeof", TagValue(d)))
  }

  // The fields of the openjdk struct, in declaration order (the commented-out ones omitted), group by group.

  /** The collected heap, memory regions, heap words and VM struct entries. */
  const HeapDecls: seq<Decl> := [
      Off("CollectedHeapReserve", "CollectedHeap", "_reserved"),
      Off("MemRegionStart", "MemRegion", "_start"),
      Off("MemRegionEnd", "MemRegion", "_end"),
      Sz("HeapWordSize", "HeapWord"),
      Off("VMStructEntryTypeName", "VMStructEntry", "typeName"),
      Off("VMStructEntryFieldName", "VMStructEntry", "fieldName"),
      Off("VMStructEntryAddress", "VMStructEntry", "address"),
      Sz("VMStructEntrySize", "VMStructEntry")]

  /** Klass, constant pool, oopDesc, access flags and Symbol. */
  const KlassDecls: seq<Decl> := [
      Off("KlassName", "Klass", "_name"),
      Off("ConstantPoolHolder", "ConstantPool", "_pool_holder"),
      Off("ConstantPoolSize", "ConstantPool", "_size"),
      Off("OOPDescMetadata", "oopDesc", "_metadata"),
      Sz("OPPDescSize", "oopDesc"),
      Off("AccessFlags", "AccessFlags", "_flags"),
      Off("SymbolLengthAndRefcount", "Symbol", "_length_and_refcount"),
      Off("SymbolBody", "Symbol", "_body")]

  /** Method and ConstMethod. */
  const MethodDecls: seq<Decl> := [
      Off("MethodConst", "Method", "_constMethod"),
      Off("MethodAccessFlags", "Method", "_access_flags"),
      Sz("MethodSize", "Method"),
      Off("ConstMethodConstants", "ConstMethod", "_constants"),
      Off("ConstMethodFlags", "ConstMethod", "_flags"),
      Off("ConstMethodCodeSize", "ConstMethod", "_code_size"),
      Off("ConstMethodNameIndex", "ConstMethod", "_name_index"),
      Off("ConstMethodSignatureIndex", "ConstMethod", "_signature_index"),
      Sz("ConstMethodSize", "ConstMethod")]

  /** CodeHeap and VirtualSpace. */
  const CodeHeapDecls: seq<Decl> := [
      Off("CodeHeapMemory", "CodeHeap", "_memory"),
      Off("CodeHeapSegmap", "CodeHeap", "_segmap"),
      Off("CodeHeapLog2SegmentSize", "CodeHeap", "_log2_segment_size"),
      Off("VirtualSpaceLowBoundary", "VirtualSpace", "_low_boundary"),
      Off("VirtualSpaceHighBoundary", "VirtualSpace", "_high_boundary"),
      Off("VirtualSpaceLow", "VirtualSpace", "_low"),
      Off("VirtualSpaceHigh", "VirtualSpace", "_high")]

  /** CodeBlob. */
  const CodeBlobDecls: seq<Decl> := [
      Off("CodeBlobName", "CodeBlob", "_name"),
      Off("CodeBlobHeaderSize", "CodeBlob", "_header_size"),
      Off("CodeBlobContentBegin", "CodeBlob", "_content_begin"),
      Off("CodeBlobCodeBegin", "CodeBlob", "_code_begin"),
      Off("CodeBlobCodeEnd", "CodeBlob", "_code_end"),
      Off("CodeBlobDataOffset", "CodeBlob", "_data_offset"),
      Off("CodeBlobFrameSize", "CodeBlob", "_frame_size"),
      Sz("CodeBlobSize", "CodeBlob")]

  /** nmethod. */
  const NMethodDecls: seq<Decl> := [
      Off("NMethodMethod", "nmethod", "_method"),
      Off("NMethodDependenciesOffset", "nmethod", "_dependencies_offset"),
      Off("NMethodMetadataOffset", "nmethod", "_metadata_offset"),
      Off("NMethodScopesDataBegin", "nmethod", "_scopes_data_begin"),
      Off("NMethodScopesPCsOffset", "nmethod", "_scopes_pcs_offset"),
      Off("NMethodHandlerTableOffset", "nmethod", "_handler_table_offset"),
      Off("NMethodDeoptHandlerBegin", "nmethod", "_deopt_handler_begin"),
      Off("NMethodOrigPCOffset", "nmethod", "_orig_pc_offset"),
      Sz("NMethodSize", "nmethod")]

  /** PcDesc and NarrowPtrStruct. */
  const PcDescDecls: seq<Decl> := [
      Off("PCDescPCOffset", "PcDesc", "_pc_offset"),
      Off("PCDescScopeDecodeOffset", "PcDesc", "_scope_decode_offset"),
      Sz("PCDescSize", "PcDesc"),
      Off("NarrowPtrStructBase", "NarrowPtrStruct", "_base"),
      Off("NarrowPtrStructShift", "NarrowPtrStruct", "_shift")]

  /** The code cache bounds, the deopt handler, HeapBlock and ZLiveMap. */
  const CodeCacheDecls: seq<Decl> := [
      Off("CodeCacheStart", "CodeCache", "_low_bound"),
      Off("CodeCacheEnd", "CodeCache", "_high_bound"),
      Off("DeoptHandler", "CompiledMethod", "deopt_handler"),
      Sz("HeapBlockSize", "HeapBlock"),
      Off("SegmentShift", "ZLiveMap", "_segment_shift")]

  /** Every field but the last group, which java.Layout declares after its four blob sizes. */
  const MainDecls: seq<Decl> := HeapDecls + KlassDecls + MethodDecls + CodeHeapDecls + CodeBlobDecls + NMethodDecls + PcDescDecls

  const Decls: seq<Decl> := MainDecls + CodeCacheDecls

  const OpenJdkType: GoType := GoType("openjdk", "openjdk.openjdk", StructKind, seq(|Decls|, i requires 0 <= i < |Decls| => ToGoField(Decls[i])))

  // The fields of java.Layout, in declaration order, group by group.
  const HeapNames: seq<string> := ["CollectedHeapReserve", "MemRegionStart", "MemRegionEnd", "HeapWordSize", "VMStructEntryTypeName", "VMStructEntryFieldName", "VMStructEntryAddress", "VMStructEntrySize"]
  const KlassNames: seq<string> := ["KlassName", "ConstantPoolHolder", "ConstantPoolSize", "OOPDescMetadata", "OPPDescSize", "AccessFlags", "SymbolLengthAndRefcount", "SymbolBody"]
  const MethodNames: seq<string> := ["MethodConst", "MethodAccessFlags", "MethodSize", "ConstMethodConstants", "ConstMethodFlags", "ConstMethodCodeSize", "ConstMethodNameIndex", "ConstMethodSignatureIndex", "ConstMethodSize"]
  const CodeHeapNames: seq<string> := ["CodeHeapMemory", "CodeHeapSegmap", "CodeHeapLog2SegmentSize", "VirtualSpaceLowBoundary", "VirtualSpaceHighBoundary", "VirtualSpaceLow", "VirtualSpaceHigh"]
  const CodeBlobNames: seq<string> := ["CodeBlobName", "CodeBlobHeaderSize", "CodeBlobContentBegin", "CodeBlobCodeBegin", "CodeBlobCodeEnd", "CodeBlobDataOffset", "CodeBlobFrameSize", "CodeBlobSize"]
  const NMethodNames: seq<string> := ["NMethodMethod", "NMethodDependenciesOffset", "NMethodMetadataOffset", "NMethodScopesDataBegin", "NMethodScopesPCsOffset", "NMethodHandlerTableOffset", "NMethodDeoptHandlerBegin", "NMethodOrigPCOffset", "NMethodSize"]
  const PcDescNames: seq<string> := ["PCDescPCOffset", "PCDescScopeDecodeOffset", "PCDescSize", "NarrowPtrStructBase", "NarrowPtrStructShift"]
  const CodeCacheNames: seq<string> := ["CodeCacheStart", "CodeCacheEnd", "DeoptHandler", "HeapBlockSize", "SegmentShift"]

  /** The four blob sizes java.Layout declares and the mapper never sets. */
  const BlobSizes: seq<string> := ["BufferBlobSize", "SingletonBlobSize", "RuntimeStubSize", "SafepointBlobSize"]

  /** The names of the mapper fields before the blob sizes, in java.Layout order. */
  const MainNames: seq<string> := HeapNames + KlassNames + MethodNames + CodeHeapNames + CodeBlobNames + NMethodNames + PcDescNames

  /** The java.Layout field names, in declaration order. */
  const JavaLayoutNames: seq<string> := MainNames + BlobSizes + CodeCacheNames

  /** The java.Layout field names a list of declarations fills. */
  function GoNames(ds: seq<Decl>): (r: seq<string>)
    ensures |r| == |ds| && forall i :: 0 <= i < |ds| ==> r[i] == ds[i].goName
  {
    seq(|ds|, i requires 0 <= i < |ds| => ds[i].goName)
  }

  /** The java.Layout fields a list of declarations sets, each to the value extracted into the mapper field of that name. */
  function Filled(ds: seq<Decl>, vals: map<string, int>): map<string, int>
  {
    map d | d in ds :: d.goName := PythonDatamap.Get(vals, d.goName)
  }

  /** Layout(): java.Layout with every mapper field copied over by name, the blob sizes left zero. */
  function LayoutOf(vals: map<string, int>): map<string, int>
  {
    (map b | b in BlobSizes :: 0) + Filled(Decls, vals)
  }

  // ----- properties of Layout -----

  lemma GoNamesAppend(a: seq<Decl>, b: seq<Decl>)
    ensures GoNames(a + b) == GoNames(a) + GoNames(b)
  {
  }

  /** Filled sets exactly the fields its declarations name, each to its own extracted value. */
  lemma FilledSpec(ds: seq<Decl>, vals: map<string, int>)
    ensures forall n :: n in Filled(ds, vals) <==> n in GoNames(ds)
    ensures forall d :: d in ds ==> d.goName in Filled(ds, vals) && Filled(ds, vals)[d.goName] == PythonDatamap.Get(vals, d.goName)
  {
    forall n | n in GoNames(ds) ensures n in Filled(ds, vals) {
      var i :| 0 <= i < |ds| && GoNames(ds)[i] == n;
      assert ds[i] in ds;
    }
    forall n | n in Filled(ds, vals) ensures n in GoNames(ds) {
      var d :| d in ds && d.goName == n;
      var i :| 0 <= i < |ds| && ds[i] == d;
      assert GoNames(ds)[i] == n;
    }
  }

  /** The mapper's groups fill java.Layout's fields group by group, in the same order. */
  lemma GroupNames()
    ensures GoNames(HeapDecls) == HeapNames && GoNames(KlassDecls) == KlassNames
    ensures GoNames(MethodDecls) == MethodNames && GoNames(CodeHeapDecls) == CodeHeapNames
    ensures GoNames(CodeBlobDecls) == CodeBlobNames && GoNames(NMethodDecls) == NMethodNames
    ensures GoNames(PcDescDecls) == PcDescNames && GoNames(CodeCacheDecls) == CodeCacheNames
  {
  }

  /** The mapper fills every java.Layout field except the four blob sizes, in the same order. */
  lemma LayoutOrder()
    ensures GoNames(MainDecls) == MainNames
    ensures GoNames(Decls) == MainNames + CodeCacheNames
    ensures JavaLayoutNames == GoNames(MainDecls) + BlobSizes + GoNames(CodeCacheDecls)
  {
    GoNamesAppend(MainDecls, CodeCacheDecls);
    GroupNames();
    GoNamesAppend(HeapDecls, KlassDecls);
    GoNamesAppend(HeapDecls + KlassDecls, MethodDecls);
    GoNamesAppend(HeapDecls + KlassDecls + MethodDecls, CodeHeapDecls);
    GoNamesAppend(HeapDecls + KlassDecls + MethodDecls + CodeHeapDecls, CodeBlobDecls);
    GoNamesAppend(HeapDecls + KlassDecls + MethodDecls + CodeHeapDecls + CodeBlobDecls, NMethodDecls);
    GoNamesAppend(HeapDecls + KlassDecls + MethodDecls + CodeHeapDecls + CodeBlobDecls + NMethodDecls, PcDescDecls);
  }

  /** No java.Layout field outside the blob sizes is named like one of them. */
  lemma BlobsApart()
    ensures forall n :: n in MainNames + CodeCacheNames ==> n !in BlobSizes
  {
    BlobsApartFirst();
    BlobsApartSecond();
  }

  lemma BlobsApartFirst()
    ensures forall n :: n in HeapNames + KlassNames + MethodNames + CodeHeapNames ==> n !in BlobSizes
  {
  }

  lemma BlobsApartSecond()
    ensures forall n :: n in CodeBlobNames + NMethodNames + PcDescNames + CodeCacheNames ==> n !in BlobSizes
  {
  }

  /** Layout copies each extracted field, unchanged, into the java.Layout field of the same name. */
  lemma LayoutCopies(vals: map<string, int>, d: Decl)
    requires d in Decls
    ensures d.goName in LayoutOf(vals) && LayoutOf(vals)[d.goName] == PythonDatamap.Get(vals, d.goName)
  {
    FilledSpec(Decls, vals);
  }

  /** The four blob sizes are no mapper field, so they stay zero. */
  lemma BlobSizesZero(vals: map<string, int>, b: string)
    requires b in BlobSizes
    ensures b in LayoutOf(vals) && LayoutOf(vals)[b] == 0
  {
    FilledSpec(Decls, vals);
    LayoutOrder();
    BlobsApart();
  }

  /** Layout's result has exactly the fields java.Layout declares. */
  lemma LayoutFields(vals: map<string, int>)
    ensures forall n :: n in LayoutOf(vals) <==> n in JavaLayoutNames
  {
    FilledSpec(Decls, vals);
    LayoutOrder();
    GoNamesAppend(MainDecls, CodeCacheDecls);
  }

  /**
   * Every openjdk tag has at most one dot, as New's one-level rule requires:
   * an offset tag splits into exactly its struct and its member, a sizeof tag
   * does not split.
   */
  lemma TagsOneLevel(d: Decl)
    ensures d.Sz? ==> '.' !in TagValue(d)
    ensures d.Off? ==> '.' in TagValue(d) && Strs.Split(TagValue(d), '.') == [d.strct, d.member]
  {
    if d.Off? {
      var v := TagValue(d);
      assert v[..|d.strct|] == d.strct && v[|d.strct|] == '.' && v[|d.strct| + 1..] == d.member;
      OneDotParts(v, d.strct);
    }
  }

  /** An offsetof:"s.m" field with dot-free parts passes the one-level rule of New. */
  lemma OffStepOk(t: GoType, path: Path, i: nat, tbl: Table, d: Decl)
    requires i < |t.fields| && Valid(tbl) && t.fields[i] == ToGoField(d)
    requires d.Off?
    ensures Step(t, path, i, tbl).Ok?
  {
    var v := d.strct + "." + d.member;
    OffsetTag(v);
    assert v[..|d.strct|] == d.strct && v[|d.strct|] == '.' && v[|d.strct| + 1..] == d.member;
    StepOneDot(t, path, i, tbl, d.strct);
  }

  /** A sizeof field of kind uint64 is rejected by New's int64 rule. */
  lemma SizeStepRejected(t: GoType, path: Path, i: nat, tbl: Table, d: Decl)
    requires i < |t.fields| && Valid(tbl) && t.fields[i] == ToGoField(d)
    requires d.Sz? && d.strct != "-"
    ensures Step(t, path, i, tbl) == Err(SizeNotInt64(Uint64))
  {
    SizeTag(d.strct);
  }

  /**
   * A struct whose first three fields are one-level offsets and whose fourth
   * is a uint64 sizeof field is rejected by New at that fourth field.
   */
  lemma RejectedAtFourth(t: GoType, ds: seq<Decl>)
    requires t.kind == StructKind && |t.fields| >= 4 && |ds| >= 4
    requires forall i :: 0 <= i < 4 ==> t.fields[i] == ToGoField(ds[i])
    requires ds[0].Off? && ds[1].Off? && ds[2].Off? && ds[3].Sz? && ds[3].strct != "-"
    ensures Build(PointerTo(t)) == Err(GenerateFailed(SizeNotInt64(Uint64)))
  {
    var tbl0 := EmptyTable;
    OffStepOk(t, [], 0, tbl0, ds[0]);
    var tbl1 := Step(t, [], 0, tbl0).value;
    OffStepOk(t, [], 1, tbl1, ds[1]);
    var tbl2 := Step(t, [], 1, tbl1).value;
    OffStepOk(t, [], 2, tbl2, ds[2]);
    var tbl3 := Step(t, [], 2, tbl2).value;
    SizeStepRejected(t, [], 3, tbl3, ds[3]);
    GenFromErr(t, [], 3, tbl3);
    GenFromOk(t, [], 2, tbl2);
    GenFromOk(t, [], 1, tbl1);
    GenFromOk(t, [], 0, tbl0);
  }

  /**
   * New rejects the openjdk mapper: its first three fields pass, and the
   * fourth, HeapWordSize, is a sizeof field of kind uint64 where int64 is required.
   */
  lemma NewRejectsOpenJdk()
    ensures Build(PointerTo(OpenJdkType)) == Err(GenerateFailed(SizeNotInt64(Uint64)))
  {
    assert Decls[..4] == HeapDecls[..4];
    RejectedAtFourth(OpenJdkType, Decls);
  }
}
