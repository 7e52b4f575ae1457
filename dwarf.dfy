/**
 * DataMap.ReadFromDWARF: for every route, find the definition of the route's
 * type among the debugging information entries, walk down the route through
 * nested struct members adding up their byte offsets, and write the requested
 * sizes and offsets into the layout struct.
 *
 * The debugging information is abstract: a stream of entries in the order a
 * dwarf.Reader returns them (a sibling chain ends at a null entry, section
 * 2.3 of DWARF 5), a read error being a slot without an entry, plus the
 * struct types dwarf.Data.Type decodes (section 5.7.1 of DWARF 5). Symbol
 * lookup in the ELF file is a parameter. The route types (RouteNode,
 * Extractor) are not defined in the repository; they are reconstructed from
 * how dwarf.go uses them.
 */
module Dwarf {
  import opened Wrappers

  // ----- debugging information entries -----

  datatype Tag = TagNull | TagCompileUnit | TagBaseType | TagStructType | TagClassType | TagMember | TagTypedef | TagSubprogram | TagOther(code: nat)

  datatype Attr = AttrName | AttrType | AttrDeclaration | AttrLinkageName | AttrByteSize | AttrMemberLocation | AttrOther(code: nat)

  datatype Val = Str(s: string) | Ref(off: nat) | Flag(b: bool) | Num(n: int)

  datatype AttrField = AttrField(attr: Attr, val: Val)

  datatype Entry = Entry(offset: nat, tag: Tag, children: bool, field: seq<AttrField>)

  /** What dwarf.Reader.Next yields at one position: an entry, or an error with no entry. */
  datatype Slot = Good(e: Entry) | Bad

  /** A dwarf.Type: the size is Type.Size(). */
  datatype DType =
    | StructType(name: string, size: int, fields: seq<StructField>)
    | OtherType(name: string, size: int)

  datatype StructField = StructField(name: string, typ: DType, byteOffset: int)

  datatype Dwarf = Dwarf(stream: seq<Slot>, types: map<nat, DType>)

  // ----- routes -----

  datatype ExOp = OpSizeOf | OpOffsetOf

  /** An Extractor; Set writes into the layout field named target. */
  datatype Extractor = Extractor(source: string, op: ExOp, isStatic: bool, target: string)

  datatype RouteNode = RouteNode(typ: string, next: Option<RouteNode>, extractors: seq<Extractor>)

  predicate IsLeaf(rn: RouteNode) { rn.next.None? }

  // ----- results -----

  datatype PanicReason = DuplicateAttribute(attr: Attr) | AttrTypeMismatch(attr: Attr) | NotAStructType

  /** A returned error, or a panic (which ends the program rather than returning). */
  datatype Error =
    | Panic(reason: PanicReason)
    | NoDwarf
    | NoComposite
    | NoTypeAttr(name: string)
    | ReadFailed
    | TypeFailed
    | FieldNotFound(field: string, inType: string)
    | EntryNotFound

  datatype Write = Write(target: string, value: int)

  /** The writes done, in order, and the error that ended the run, if any. */
  datatype Outcome = Outcome(writes: seq<Write>, err: Option<Error>)

  function Prepend(w: Write, o: Outcome): Outcome { Outcome([w] + o.writes, o.err) }

  /** The routed field values after a sequence of Set calls. */
  function Apply(m: map<string, int>, ws: seq<Write>): map<string, int>
    decreases |ws|
  {
    if ws == [] then m else Apply(m[ws[0].target := ws[0].value], ws[1..])
  }

  lemma {:induction false} ApplyAppend(m: map<string, int>, a: seq<Write>, b: seq<Write>)
    ensures Apply(m, a + b) == Apply(Apply(m, a), b)
    decreases |a|
  {
    if a != [] {
      assert (a + b)[1..] == a[1..] + b;
      ApplyAppend(m[a[0].target := a[0].value], a[1..], b);
    } else {
      assert a + b == b;
    }
  }

  /** The layout struct being filled in. */
  class Target {
    var values: map<string, int>

    constructor(init: map<string, int>)
      ensures values == init
    {
      values := init;
    }

    /** Extractor.Set. */
    method Set(name: string, v: int)
      modifies this
      ensures values == old(values)[name := v]
    {
      values := values[name := v];
    }
  }

  // ----- attrs -----

  /** The attribute loop of attrs from field k on, with the map built so far. */
  function AttrsFrom(fs: seq<AttrField>, k: nat, m: map<Attr, Val>): Result<map<Attr, Val>, Error>
    requires k <= |fs|
    decreases |fs| - k
  {
    if k == |fs| then Ok(m)
    else if fs[k].attr in m then Err(Panic(DuplicateAttribute(fs[k].attr)))
    else AttrsFrom(fs, k + 1, m[fs[k].attr := fs[k].val])
  }

  function AttrMap(e: Entry): Result<map<Attr, Val>, Error> { AttrsFrom(e.field, 0, map[]) }

  predicate DistinctAttrs(fs: seq<AttrField>)
  {
    forall i, j :: 0 <= i < j < |fs| ==> fs[i].attr != fs[j].attr
  }

  lemma {:induction false} AttrsFromSpec(fs: seq<AttrField>, k: nat, m: map<Attr, Val>)
    requires k <= |fs|
    requires forall a :: a in m <==> exists i :: 0 <= i < k && fs[i].attr == a
    requires forall i :: 0 <= i < k ==> fs[i].attr in m && m[fs[i].attr] == fs[i].val
    requires forall i, j :: 0 <= i < j < k ==> fs[i].attr != fs[j].attr
    ensures AttrsFrom(fs, k, m).Ok? <==> DistinctAttrs(fs)
    ensures AttrsFrom(fs, k, m).Ok? ==>
      (forall i :: 0 <= i < |fs| ==> fs[i].attr in AttrsFrom(fs, k, m).value && AttrsFrom(fs, k, m).value[fs[i].attr] == fs[i].val) &&
      (forall a :: a in AttrsFrom(fs, k, m).value ==> exists i :: 0 <= i < |fs| && fs[i].attr == a)
    decreases |fs| - k
  {
    if k < |fs| {
      if fs[k].attr in m {
        var i :| 0 <= i < k && fs[i].attr == fs[k].attr;
        assert !DistinctAttrs(fs);
      } else {
        var m' := m[fs[k].attr := fs[k].val];
        forall a ensures a in m' <==> exists i :: 0 <= i < k + 1 && fs[i].attr == a {
          if a == fs[k].attr { assert fs[k].attr == a; }
        }
        AttrsFromSpec(fs, k + 1, m');
      }
    }
  }

  /** attrs panics exactly when an attribute occurs twice; otherwise it maps each attribute to its value. */
  lemma AttrMapSpec(e: Entry)
    ensures AttrMap(e).Ok? <==> DistinctAttrs(e.field)
    ensures AttrMap(e).Err? ==> AttrMap(e).error.Panic?
    ensures AttrMap(e).Ok? ==> forall i :: 0 <= i < |e.field| ==> e.field[i].attr in AttrMap(e).value && AttrMap(e).value[e.field[i].attr] == e.field[i].val
    ensures AttrMap(e).Ok? ==> forall a :: a in AttrMap(e).value ==> exists i :: 0 <= i < |e.field| && e.field[i].attr == a
  {
    AttrsFromSpec(e.field, 0, map[]);
    AttrsPanics(e.field, 0, map[]);
  }

  lemma {:induction false} AttrsPanics(fs: seq<AttrField>, k: nat, m: map<Attr, Val>)
    requires k <= |fs|
    ensures AttrsFrom(fs, k, m).Err? ==> AttrsFrom(fs, k, m).error.Panic?
    decreases |fs| - k
  {
    if k < |fs| && fs[k].attr !in m {
      AttrsPanics(fs, k + 1, m[fs[k].attr := fs[k].val]);
    }
  }

  /** attrs, as the loop it is. */
  method Attrs(e: Entry) returns (r: Result<map<Attr, Val>, Error>)
    ensures r == AttrMap(e)
  {
    var m: map<Attr, Val> := map[];
    var f := 0;
    while f < |e.field|
      invariant 0 <= f <= |e.field|
      invariant AttrsFrom(e.field, 0, map[]) == AttrsFrom(e.field, f, m)
    {
      if e.field[f].attr in m {
        return Err(Panic(DuplicateAttribute(e.field[f].attr)));
      }
      m := m[e.field[f].attr := e.field[f].val];
      f := f + 1;
    }
    r := Ok(m);
  }

  /** A string attribute: absent, present, or a failed .(string) assertion. */
  function StrAttr(m: map<Attr, Val>, a: Attr): Result<Option<string>, Error>
  {
    if a !in m then Ok(None)
    else if m[a].Str? then Ok(Some(m[a].s))
    else Err(Panic(AttrTypeMismatch(a)))
  }

  /** The name of an entry whose attributes decode: None when it has no DW_AT_name. */
  function NameOf(e: Entry): Result<Option<string>, Error>
  {
    match AttrMap(e)
    case Err(p) => Err(p)
    case Ok(m) => StrAttr(m, AttrName)
  }

  predicate IsComposite(e: Entry) { e.tag == TagStructType || e.tag == TagClassType }

  /** isDeclaration: the entry carries DW_AT_declaration (with any value). */
  function IsDeclaration(e: Entry): Result<bool, Error>
  {
    match AttrMap(e)
    case Err(p) => Err(p)
    case Ok(m) => Ok(AttrDeclaration in m)
  }

  // ----- reading the entry stream -----

  /** Reader.Seek: the position of the entry at offset off, or the end. */
  function SeekIndex(s: seq<Slot>, off: nat): (r: nat)
    ensures r <= |s|
    ensures r < |s| ==> s[r].Good? && s[r].e.offset == off
  {
    if s == [] then 0
    else if s[0].Good? && s[0].e.offset == off then 0
    else 1 + SeekIndex(s[1..], off)
  }

  function EntryAt(d: Dwarf, off: nat): Option<Entry>
  {
    var k := SeekIndex(d.stream, off);
    if k < |d.stream| then Some(d.stream[k].e) else None
  }

  /** The scan of findCompositeTypeEntries from position k, with the matches so far. */
  function CompositeFrom(s: seq<Slot>, name: string, k: nat, acc: seq<Entry>): Result<seq<Entry>, Error>
    requires k <= |s|
    decreases |s| - k
  {
    if k == |s| || s[k].Bad? then Ok(acc)
    else
      var e := s[k].e;
      if !IsComposite(e) && e.tag != TagTypedef then CompositeFrom(s, name, k + 1, acc)
      else
        match NameOf(e)
        case Err(p) => Err(p)
        case Ok(n) =>
          if n.None? || n.value != name then CompositeFrom(s, name, k + 1, acc)
          else CompositeFrom(s, name, k + 1, acc + [e])
  }

  /** A struct, class or typedef entry named name. */
  predicate NamedType(e: Entry, name: string)
  {
    (IsComposite(e) || e.tag == TagTypedef) && NameOf(e) == Ok(Some(name))
  }

  /** findCompositeTypeEntries. */
  method FindCompositeTypeEntries(d: Dwarf, name: string) returns (r: Result<seq<Entry>, Error>)
    ensures r == CompositeFrom(d.stream, name, 0, [])
  {
    var entries: seq<Entry> := [];
    var k := 0;
    while k < |d.stream|
      invariant 0 <= k <= |d.stream|
      invariant CompositeFrom(d.stream, name, 0, []) == CompositeFrom(d.stream, name, k, entries)
    {
      // Next returns no entry with its error, so the nil check ends the scan first.
      if d.stream[k].Bad? {
        break;
      }
      var entry := d.stream[k].e;
      if !IsComposite(entry) && entry.tag != TagTypedef {
        k := k + 1;
        continue;
      }
      var attributes := Attrs(entry);
      if attributes.Err? {
        return Err(attributes.error);
      }
      var m := attributes.value;
      if AttrName !in m {
        k := k + 1;
        continue;
      }
      if !m[AttrName].Str? {
        return Err(Panic(AttrTypeMismatch(AttrName)));
      }
      if m[AttrName].s != name {
        k := k + 1;
        continue;
      }
      entries := entries + [entry];
      k := k + 1;
    }
    r := Ok(entries);
  }

  lemma {:induction false} CompositeSound(s: seq<Slot>, name: string, k: nat, acc: seq<Entry>)
    requires k <= |s|
    requires forall e :: e in acc ==> NamedType(e, name)
    ensures CompositeFrom(s, name, k, acc).Ok? ==> forall e :: e in CompositeFrom(s, name, k, acc).value ==> NamedType(e, name)
    ensures CompositeFrom(s, name, k, acc).Err? ==> CompositeFrom(s, name, k, acc).error.Panic?
    decreases |s| - k
  {
    if k < |s| && s[k].Good? {
      var e := s[k].e;
      AttrMapSpec(e);
      if IsComposite(e) || e.tag == TagTypedef {
        if NameOf(e) == Ok(Some(name)) {
          CompositeSound(s, name, k + 1, acc + [e]);
        } else if NameOf(e).Ok? {
          CompositeSound(s, name, k + 1, acc);
        }
      } else {
        CompositeSound(s, name, k + 1, acc);
      }
    }
  }

  /** The entries the reader yields before its first read error, in stream order. */
  function Readable(s: seq<Slot>): seq<Entry>
  {
    if s == [] || s[0].Bad? then [] else [s[0].e] + Readable(s[1..])
  }

  /** Readable is the good slots up to the first bad one (or the end). */
  lemma {:induction false} ReadableIsPrefix(s: seq<Slot>)
    ensures |Readable(s)| <= |s|
    ensures forall i :: 0 <= i < |Readable(s)| ==> s[i] == Good(Readable(s)[i])
    ensures |Readable(s)| < |s| ==> s[|Readable(s)|].Bad?
  {
    if s != [] && s[0].Good? {
      ReadableIsPrefix(s[1..]);
    }
  }

  /** A struct, class or typedef entry, whatever its name. */
  predicate TypeEntry(e: Entry) { IsComposite(e) || e.tag == TagTypedef }

  /** The entries of es that are struct, class or typedef entries named name, in their order. */
  function NamedTypes(es: seq<Entry>, name: string): seq<Entry>
  {
    if es == [] then []
    else (if NamedType(es[0], name) then [es[0]] else []) + NamedTypes(es[1..], name)
  }

  /** NamedTypes keeps exactly the named struct, class and typedef entries. */
  lemma {:induction false} NamedTypesMembers(es: seq<Entry>, name: string)
    ensures forall e :: e in NamedTypes(es, name) <==> e in es && NamedType(e, name)
  {
    if es != [] {
      NamedTypesMembers(es[1..], name);
      assert forall e :: e in es <==> e == es[0] || e in es[1..];
    }
  }

  /** Reading on from a readable slot yields its entry, then the rest. */
  lemma ReadableStep(s: seq<Slot>, k: nat)
    requires k < |s| && s[k].Good?
    ensures Readable(s[k..]) == [s[k].e] + Readable(s[k + 1..])
  {
    assert s[k..][1..] == s[k + 1..];
  }

  lemma NamedTypesCons(e: Entry, rest: seq<Entry>, name: string)
    ensures NamedTypes([e] + rest, name) == (if NamedType(e, name) then [e] else []) + NamedTypes(rest, name)
  {
    assert ([e] + rest)[1..] == rest;
  }

  /** Some type entry of es has an attribute list that cannot be read. */
  predicate HasUnreadable(es: seq<Entry>)
  {
    exists e :: e in es && TypeEntry(e) && NameOf(e).Err?
  }

  /** The scan from k adds to acc every named type entry before the first read error, in stream order. */
  lemma {:induction false} CompositeValue(s: seq<Slot>, name: string, k: nat, acc: seq<Entry>)
    requires k <= |s|
    ensures CompositeFrom(s, name, k, acc).Ok? ==>
      CompositeFrom(s, name, k, acc).value == acc + NamedTypes(Readable(s[k..]), name)
    decreases |s| - k
  {
    if k == |s| || s[k].Bad? {
      assert Readable(s[k..]) == [];
    } else {
      var e := s[k].e;
      ReadableStep(s, k);
      var rest := Readable(s[k + 1..]);
      NamedTypesCons(e, rest, name);
      if !TypeEntry(e) {
        assert CompositeFrom(s, name, k, acc) == CompositeFrom(s, name, k + 1, acc);
        CompositeValue(s, name, k + 1, acc);
      } else if NameOf(e) == Ok(Some(name)) {
        assert CompositeFrom(s, name, k, acc) == CompositeFrom(s, name, k + 1, acc + [e]);
        CompositeValue(s, name, k + 1, acc + [e]);
        assert (acc + [e]) + NamedTypes(rest, name) == acc + ([e] + NamedTypes(rest, name));
      } else if NameOf(e).Ok? {
        assert CompositeFrom(s, name, k, acc) == CompositeFrom(s, name, k + 1, acc);
        CompositeValue(s, name, k + 1, acc);
      }
    }
  }

  /** The scan from k fails exactly when a type entry before the first read error has unreadable attributes. */
  lemma {:induction false} CompositeFails(s: seq<Slot>, name: string, k: nat, acc: seq<Entry>)
    requires k <= |s|
    ensures CompositeFrom(s, name, k, acc).Err? <==> HasUnreadable(Readable(s[k..]))
    decreases |s| - k
  {
    if k == |s| || s[k].Bad? {
      assert Readable(s[k..]) == [];
    } else {
      var e := s[k].e;
      ReadableStep(s, k);
      var rest := Readable(s[k + 1..]);
      assert HasUnreadable([e] + rest) <==> (TypeEntry(e) && NameOf(e).Err?) || HasUnreadable(rest) by {
        assert forall x :: x in [e] + rest <==> x == e || x in rest;
      }
      if !TypeEntry(e) {
        CompositeFails(s, name, k + 1, acc);
      } else if NameOf(e) == Ok(Some(name)) {
        CompositeFails(s, name, k + 1, acc + [e]);
      } else if NameOf(e).Ok? {
        CompositeFails(s, name, k + 1, acc);
      }
    }
  }

  /**
   * findCompositeTypeEntries collects exactly the struct, class and typedef
   * entries named name that precede the first read error, in stream order;
   * it fails only by a panic, and exactly when one of the type entries in
   * that stretch has an unreadable attribute list.
   */
  lemma CompositeEntries(d: Dwarf, name: string)
    ensures CompositeFrom(d.stream, name, 0, []).Ok? ==> forall e :: e in CompositeFrom(d.stream, name, 0, []).value ==> NamedType(e, name)
    ensures CompositeFrom(d.stream, name, 0, []).Err? ==> CompositeFrom(d.stream, name, 0, []).error.Panic?
    ensures CompositeFrom(d.stream, name, 0, []).Ok? ==>
      CompositeFrom(d.stream, name, 0, []).value == NamedTypes(Readable(d.stream), name)
    ensures CompositeFrom(d.stream, name, 0, []).Err? <==> HasUnreadable(Readable(d.stream))
    ensures forall e :: e in NamedTypes(Readable(d.stream), name) <==> e in Readable(d.stream) && NamedType(e, name)
  {
    NamedTypesMembers(Readable(d.stream), name);
    CompositeSound(d.stream, name, 0, []);
    CompositeValue(d.stream, name, 0, []);
    CompositeFails(d.stream, name, 0, []);
    assert d.stream[0..] == d.stream;
  }

  lemma {:induction false} TruncateFrom(s: seq<Slot>, name: string, j: nat, k: nat, acc: seq<Entry>)
    requires k <= j < |s| && s[j].Bad?
    ensures CompositeFrom(s, name, k, acc) == CompositeFrom(s[..j], name, k, acc)
    decreases j - k
  {
    if k < j {
      assert s[..j][k] == s[k];
      TruncateFrom(s, name, j, k + 1, acc);
      if s[k].Good? {
        TruncateFrom(s, name, j, k + 1, acc + [s[k].e]);
      }
    }
  }

  /** A read error ends the scan silently: nothing after it is seen and no error is reported for it. */
  lemma ReadErrorTruncates(d: Dwarf, name: string, j: nat)
    requires j < |d.stream| && d.stream[j].Bad?
    ensures CompositeFrom(d.stream, name, 0, []) == CompositeFrom(d.stream[..j], name, 0, [])
  {
    TruncateFrom(d.stream, name, j, 0, []);
  }

  // ----- findActionableEntry -----

  /** typeOf: the entry a typedef's DW_AT_type refers to. */
  function TypeOf(d: Dwarf, e: Entry): Result<Entry, Error>
  {
    match AttrMap(e)
    case Err(p) => Err(p)
    case Ok(m) =>
      if AttrType !in m then
        match StrAttr(m, AttrName)
        case Err(p) => Err(p)
        case Ok(n) => Err(NoTypeAttr(if n.Some? then n.value else ""))
      else if !m[AttrType].Ref? then Err(Panic(AttrTypeMismatch(AttrType)))
      else
        match EntryAt(d, m[AttrType].off)
        case None => Err(ReadFailed)
        case Some(te) => Ok(te)
  }

  /** What one candidate entry yields: a usable definition, nothing, or an error. */
  function Candidate(d: Dwarf, e: Entry): Result<Option<Entry>, Error>
  {
    if IsComposite(e) then
      if !e.children then Ok(None)
      else
        match IsDeclaration(e)
        case Err(p) => Err(p)
        case Ok(decl) => if decl then Ok(None) else Ok(Some(e))
    else
      match TypeOf(d, e)
      case Err(x) => Err(x)
      case Ok(te) =>
        if !IsComposite(te) || !te.children then Ok(None)
        else
          match IsDeclaration(te)
          case Err(p) => Err(p)
          case Ok(decl) => if decl then Ok(None) else Ok(Some(te))
  }

  /** A definition: a struct or class entry with children and without DW_AT_declaration. */
  predicate Definition(e: Entry)
  {
    IsComposite(e) && e.children && IsDeclaration(e) == Ok(false)
  }

  /** A candidate yields itself when it is a definition, or the definition its DW_AT_type refers to. */
  lemma CandidateSpec(d: Dwarf, e: Entry)
    ensures Candidate(d, e).Ok? && Candidate(d, e).value.Some? ==>
      Definition(Candidate(d, e).value.value) &&
      (if IsComposite(e) then Candidate(d, e).value.value == e else TypeOf(d, e) == Ok(Candidate(d, e).value.value))
    ensures IsComposite(e) && Definition(e) ==> Candidate(d, e) == Ok(Some(e))
    ensures Candidate(d, e) != Err(NoComposite)
  {
    AttrMapSpec(e);
    if !IsComposite(e) && TypeOf(d, e).Ok? {
      AttrMapSpec(TypeOf(d, e).value);
    }
  }

  function ActionableFrom(d: Dwarf, es: seq<Entry>, k: nat): Result<Entry, Error>
    requires k <= |es|
    decreases |es| - k
  {
    if k == |es| then Err(NoComposite)
    else
      match Candidate(d, es[k])
      case Err(x) => Err(x)
      case Ok(c) => if c.None? then ActionableFrom(d, es, k + 1) else Ok(c.value)
  }

  /** findActionableEntry. */
  function FindActionableEntry(d: Dwarf, es: seq<Entry>): Result<Entry, Error> { ActionableFrom(d, es, 0) }

  lemma {:induction false} ActionableFromSpec(d: Dwarf, es: seq<Entry>, k: nat)
    requires k <= |es|
    ensures ActionableFrom(d, es, k).Ok? ==> exists i :: (k <= i < |es| &&
      Candidate(d, es[i]) == Ok(Some(ActionableFrom(d, es, k).value)) &&
      forall j :: k <= j < i ==> Candidate(d, es[j]) == Ok(None))
    ensures ActionableFrom(d, es, k) == Err(NoComposite) <==>
      forall j :: k <= j < |es| ==> Candidate(d, es[j]) == Ok(None)
    decreases |es| - k
  {
    if k < |es| {
      CandidateSpec(d, es[k]);
      ActionableFromSpec(d, es, k + 1);
    }
  }

  /**
   * findActionableEntry returns the yield of the first candidate that yields
   * a definition, every earlier one yielding nothing; it reports "no
   * composite type" exactly when every candidate yields nothing.
   */
  lemma ActionableIsFirst(d: Dwarf, es: seq<Entry>)
    ensures FindActionableEntry(d, es).Ok? ==> exists i :: (0 <= i < |es| &&
      Candidate(d, es[i]) == Ok(Some(FindActionableEntry(d, es).value)) &&
      Definition(FindActionableEntry(d, es).value) &&
      forall j :: 0 <= j < i ==> Candidate(d, es[j]) == Ok(None))
    ensures FindActionableEntry(d, es) == Err(NoComposite) <==>
      forall j :: 0 <= j < |es| ==> Candidate(d, es[j]) == Ok(None)
  {
    ActionableFromSpec(d, es, 0);
    if FindActionableEntry(d, es).Ok? {
      var i :| 0 <= i < |es| && Candidate(d, es[i]) == Ok(Some(FindActionableEntry(d, es).value));
      CandidateSpec(d, es[i]);
    }
  }

  // ----- findFieldEntry -----

  /** The scan of findFieldEntry from position k. */
  function FieldEntryFrom(s: seq<Slot>, name: string, k: nat): Result<Entry, Error>
    requires k <= |s|
    decreases |s| - k
  {
    if k == |s| then Err(EntryNotFound)
    else if s[k].Bad? then Err(ReadFailed)
    else
      var e := s[k].e;
      if e.tag == TagNull then Err(EntryNotFound)
      else
        match NameOf(e)
        case Err(p) => Err(p)
        case Ok(n) =>
          if n.None? || n.value == "" || n.value != name then FieldEntryFrom(s, name, k + 1)
          else Ok(e)
  }

  /** findFieldEntry: the scan starts at the given entry itself. */
  function FieldEntry(d: Dwarf, entry: Entry, name: string): Result<Entry, Error>
  {
    FieldEntryFrom(d.stream, name, SeekIndex(d.stream, entry.offset))
  }

  method FindFieldEntry(d: Dwarf, entry: Entry, name: string) returns (r: Result<Entry, Error>)
    ensures r == FieldEntry(d, entry, name)
  {
    var k := SeekIndex(d.stream, entry.offset);
    while k < |d.stream|
      invariant k <= |d.stream|
      invariant FieldEntry(d, entry, name) == FieldEntryFrom(d.stream, name, k)
      decreases |d.stream| - k
    {
      if d.stream[k].Bad? {
        return Err(ReadFailed);
      }
      var e := d.stream[k].e;
      if e.tag == TagNull {
        // End of children.
        break;
      }
      var attributes := Attrs(e);
      if attributes.Err? {
        return Err(attributes.error);
      }
      var m := attributes.value;
      if AttrName !in m {
        k := k + 1;
        continue;
      }
      if !m[AttrName].Str? {
        return Err(Panic(AttrTypeMismatch(AttrName)));
      }
      var fieldName := m[AttrName].s;
      if |fieldName| == 0 || fieldName != name {
        k := k + 1;
        continue;
      }
      return Ok(e);
    }
    r := Err(EntryNotFound);
  }

  /** A readable entry that is not null and not named name: the scan walks past it. */
  predicate PassedBy(s: Slot, name: string)
  {
    s.Good? && s.e.tag != TagNull && NameOf(s.e).Ok? && NameOf(s.e) != Ok(Some(name))
  }

  lemma {:induction false} FieldEntryFromSpec(s: seq<Slot>, name: string, k: nat)
    requires k <= |s|
    ensures FieldEntryFrom(s, name, k).Ok? ==> exists j :: (k <= j < |s| &&
      s[j] == Good(FieldEntryFrom(s, name, k).value) && s[j].e.tag != TagNull && NameOf(s[j].e) == Ok(Some(name)) &&
      forall i :: k <= i < j ==> PassedBy(s[i], name))
    ensures name == "" ==> FieldEntryFrom(s, name, k).Err?
    decreases |s| - k
  {
    if k < |s| {
      FieldEntryFromSpec(s, name, k + 1);
    }
  }

  /**
   * findFieldEntry returns the first entry from the given one on that is
   * named name, every entry before it being readable, not null and named
   * otherwise; an empty name is never found.
   */
  lemma FieldEntryIsFirst(d: Dwarf, entry: Entry, name: string)
    ensures FieldEntry(d, entry, name).Ok? ==> exists j :: (SeekIndex(d.stream, entry.offset) <= j < |d.stream| &&
      d.stream[j] == Good(FieldEntry(d, entry, name).value) && NameOf(d.stream[j].e) == Ok(Some(name)) &&
      forall i :: SeekIndex(d.stream, entry.offset) <= i < j ==> PassedBy(d.stream[i], name))
    ensures name == "" ==> FieldEntry(d, entry, name).Err?
  {
    FieldEntryFromSpec(d.stream, name, SeekIndex(d.stream, entry.offset));
  }

  /** A null entry reached before any entry named name ends the search with "not found". */
  lemma {:induction false} NullStopsSearch(s: seq<Slot>, name: string, k: nat, j: nat)
    requires k <= j < |s| && s[j].Good? && s[j].e.tag == TagNull
    requires forall i :: k <= i < j ==> PassedBy(s[i], name)
    ensures FieldEntryFrom(s, name, k) == Err(EntryNotFound)
    decreases j - k
  {
    if k < j {
      NullStopsSearch(s, name, k + 1, j);
    }
  }

  // ----- process -----

  /** The fields map of process and extract: a later field with the same name replaces an earlier one. */
  function FieldMap(fs: seq<StructField>): map<string, StructField>
    decreases |fs|
  {
    if fs == [] then map[] else FieldMap(fs[..|fs| - 1])[fs[|fs| - 1].name := fs[|fs| - 1]]
  }

  lemma {:induction false} FieldMapLast(fs: seq<StructField>, n: string)
    ensures n in FieldMap(fs) ==> exists j :: (0 <= j < |fs| && FieldMap(fs)[n] == fs[j] && fs[j].name == n &&
      forall i :: j < i < |fs| ==> fs[i].name != n)
    ensures n !in FieldMap(fs) <==> forall i :: 0 <= i < |fs| ==> fs[i].name != n
    decreases |fs|
  {
    if fs != [] {
      var init := fs[..|fs| - 1];
      FieldMapLast(init, n);
      if fs[|fs| - 1].name != n && n in FieldMap(init) {
        var j :| 0 <= j < |init| && FieldMap(init)[n] == init[j] && init[j].name == n && forall i :: j < i < |init| ==> init[i].name != n;
        assert fs[j] == init[j];
      }
      if n !in FieldMap(fs) {
        forall i | 0 <= i < |fs| ensures fs[i].name != n {
          if i < |fs| - 1 { assert fs[i] == init[i]; }
        }
      }
    }
  }

  /** Where the walk down a route ends: the leaf node, its entry, its struct type and the summed offset. */
  datatype Leaf = Leaf(rn: RouteNode, entry: Entry, st: DType, offset: int)

  /** process up to its call of extract: follow rn.Next through the struct members. */
  function Walk(d: Dwarf, rn: RouteNode, entry: Entry, typ: DType, offset: int): (r: Result<Leaf, Error>)
    ensures r.Ok? ==> r.value.st.StructType? && IsLeaf(r.value.rn)
    decreases rn
  {
    if !typ.StructType? then Err(Panic(NotAStructType))
    else if IsLeaf(rn) then Ok(Leaf(rn, entry, typ, offset))
    else
      var next := rn.next.value;
      var fields := FieldMap(typ.fields);
      if next.typ !in fields then Err(FieldNotFound(next.typ, rn.typ))
      else
        var field := fields[next.typ];
        match FieldEntry(d, entry, field.name)
        case Err(e) => Err(e)
        case Ok(fieldEntry) => Walk(d, next, fieldEntry, field.typ, offset + field.byteOffset)
  }

  /**
   * The byte offset of the leaf's struct inside typ along the route, summing
   * the member offsets named by each hop: a reference that looks at types
   * only, not at the entries.
   */
  function RouteOffset(typ: DType, rn: RouteNode): Option<int>
    decreases rn
  {
    if !typ.StructType? then None
    else if IsLeaf(rn) then Some(0)
    else
      var fields := FieldMap(typ.fields);
      if rn.next.value.typ !in fields then None
      else
        match RouteOffset(fields[rn.next.value.typ].typ, rn.next.value)
        case None => None
        case Some(o) => Some(fields[rn.next.value.typ].byteOffset + o)
  }

  /** The last node of a route. */
  function LeafOf(rn: RouteNode): (l: RouteNode)
    ensures IsLeaf(l)
    decreases rn
  {
    if IsLeaf(rn) then rn else LeafOf(rn.next.value)
  }

  /**
   * A successful walk ends at the route's last node, at the starting offset
   * plus the member offsets along the route; when the route names a missing
   * member (or a hop is not a struct) the walk fails.
   */
  lemma {:induction false} WalkOffset(d: Dwarf, rn: RouteNode, entry: Entry, typ: DType, offset: int)
    ensures Walk(d, rn, entry, typ, offset).Ok? ==>
      RouteOffset(typ, rn).Some? && Walk(d, rn, entry, typ, offset).value.offset == offset + RouteOffset(typ, rn).value &&
      Walk(d, rn, entry, typ, offset).value.rn == LeafOf(rn)
    ensures RouteOffset(typ, rn).None? ==> Walk(d, rn, entry, typ, offset).Err?
    decreases rn
  {
    if typ.StructType? && !IsLeaf(rn) {
      var next := rn.next.value;
      var fields := FieldMap(typ.fields);
      if next.typ in fields {
        var field := fields[next.typ];
        var fe := FieldEntry(d, entry, field.name);
        if fe.Ok? {
          WalkOffset(d, next, fe.value, field.typ, offset + field.byteOffset);
        }
      }
    }
  }

  // ----- extract -----

  /** extractStatic, with symbols.FindSymbol as sym: a value to set, nothing, or a panic. */
  function StaticValue(d: Dwarf, sym: string -> Option<int>, entry: Entry, ex: Extractor): Result<Option<int>, Error>
  {
    match FieldEntry(d, entry, ex.source)
    case Err(e) => if e.Panic? then Err(e) else Ok(None)
    case Ok(fe) =>
      match AttrMap(fe)
      case Err(p) => Err(p)
      case Ok(m) =>
        if AttrLinkageName !in m then Ok(None)
        else if !m[AttrLinkageName].Str? then Err(Panic(AttrTypeMismatch(AttrLinkageName)))
        else
          match sym(m[AttrLinkageName].s)
          case None => Ok(None)
          case Some(v) => Ok(Some(v))
  }

  lemma StaticValuePanics(d: Dwarf, sym: string -> Option<int>, entry: Entry, ex: Extractor)
    ensures StaticValue(d, sym, entry, ex).Err? ==> StaticValue(d, sym, entry, ex).error.Panic?
  {
    var fe := FieldEntry(d, entry, ex.source);
    if fe.Ok? {
      AttrMapSpec(fe.value);
    }
  }

  /** One iteration of the extractor loop of extract: the writes it does, or the error that ends extract. */
  function ExtractorStep(d: Dwarf, sym: string -> Option<int>, leaf: Leaf, ex: Extractor): Result<seq<Write>, Error>
    requires leaf.st.StructType?
  {
    var fields := FieldMap(leaf.st.fields);
    if ex.op == OpSizeOf then
      if ex.source == leaf.rn.typ then Ok([Write(ex.target, leaf.st.size)])
      else if ex.source !in fields then Err(FieldNotFound(ex.source, leaf.rn.typ))
      else Ok([Write(ex.target, fields[ex.source].typ.size)])
    else if ex.isStatic then
      match StaticValue(d, sym, leaf.entry, ex)
      case Err(p) => Err(p)
      case Ok(v) => if v.None? then Ok([]) else Ok([Write(ex.target, v.value)])
    else if ex.source !in fields then Err(FieldNotFound(ex.source, leaf.rn.typ))
    else Ok([Write(ex.target, leaf.offset + fields[ex.source].byteOffset)])
  }

  /** The extractor loop of extract from extractor k on. */
  function ExtractFrom(d: Dwarf, sym: string -> Option<int>, leaf: Leaf, k: nat): Outcome
    requires leaf.st.StructType? && k <= |leaf.rn.extractors|
    decreases |leaf.rn.extractors| - k
  {
    if k == |leaf.rn.extractors| then Outcome([], None)
    else
      match ExtractorStep(d, sym, leaf, leaf.rn.extractors[k])
      case Err(e) => Outcome([], Some(e))
      case Ok(w) =>
        var rest := ExtractFrom(d, sym, leaf, k + 1);
        Outcome(w + rest.writes, rest.err)
  }

  /** The outcome of each extractor of a leaf, in order. */
  function Steps(d: Dwarf, sym: string -> Option<int>, leaf: Leaf): (r: seq<Result<seq<Write>, Error>>)
    requires leaf.st.StructType?
    ensures |r| == |leaf.rn.extractors|
  {
    seq(|leaf.rn.extractors|, j requires 0 <= j < |leaf.rn.extractors| => ExtractorStep(d, sym, leaf, leaf.rn.extractors[j]))
  }

  /** A loop over step outcomes: writes accumulate until the first error, which ends it. */
  function Run(steps: seq<Result<seq<Write>, Error>>): Outcome
    decreases |steps|
  {
    if steps == [] then Outcome([], None)
    else
      match steps[0]
      case Err(e) => Outcome([], Some(e))
      case Ok(w) =>
        var rest := Run(steps[1..]);
        Outcome(w + rest.writes, rest.err)
  }

  /** The extractor loop from k on is the run of the remaining steps. */
  lemma {:induction false} ExtractFromRun(d: Dwarf, sym: string -> Option<int>, leaf: Leaf, k: nat)
    requires leaf.st.StructType? && k <= |leaf.rn.extractors|
    ensures ExtractFrom(d, sym, leaf, k) == Run(Steps(d, sym, leaf)[k..])
    decreases |leaf.rn.extractors| - k
  {
    var steps := Steps(d, sym, leaf);
    if k < |leaf.rn.extractors| {
      ExtractFromRun(d, sym, leaf, k + 1);
      assert steps[k..][0] == steps[k] && steps[k..][1..] == steps[k + 1..];
    }
  }

  /** extractStatic, writing through Set; its own errors are returned for the caller to drop. */
  method ExtractStatic(target: Target, d: Dwarf, sym: string -> Option<int>, entry: Entry, ex: Extractor) returns (err: Option<Error>)
    modifies target
    ensures StaticValue(d, sym, entry, ex).Err? ==> err == Some(StaticValue(d, sym, entry, ex).error) && target.values == old(target.values)
    ensures StaticValue(d, sym, entry, ex).Ok? ==> err.None? || !err.value.Panic?
    ensures StaticValue(d, sym, entry, ex).Ok? && StaticValue(d, sym, entry, ex).value.Some? ==>
      target.values == old(target.values)[ex.target := StaticValue(d, sym, entry, ex).value.value]
    ensures StaticValue(d, sym, entry, ex).Ok? && StaticValue(d, sym, entry, ex).value.None? ==>
      target.values == old(target.values)
  {
    var fieldEntry := FindFieldEntry(d, entry, ex.source);
    if fieldEntry.Err? {
      return Some(fieldEntry.error);
    }
    var attributes := Attrs(fieldEntry.value);
    if attributes.Err? {
      return Some(attributes.error);
    }
    var m := attributes.value;
    if AttrLinkageName !in m {
      return Some(NoTypeAttr(ex.source));
    }
    if !m[AttrLinkageName].Str? {
      return Some(Panic(AttrTypeMismatch(AttrLinkageName)));
    }
    var s := sym(m[AttrLinkageName].s);
    if s.None? {
      return Some(EntryNotFound);
    }
    target.Set(ex.target, s.value);
    err := None;
  }

  /** One extractor of extract. */
  method ExtractOne(target: Target, d: Dwarf, sym: string -> Option<int>, leaf: Leaf, ex: Extractor) returns (err: Option<Error>)
    requires leaf.st.StructType?
    modifies target
    ensures ExtractorStep(d, sym, leaf, ex).Err? ==> err == Some(ExtractorStep(d, sym, leaf, ex).error) && target.values == old(target.values)
    ensures ExtractorStep(d, sym, leaf, ex).Ok? ==>
      err.None? && target.values == Apply(old(target.values), ExtractorStep(d, sym, leaf, ex).value)
  {
    var fields := FieldMap(leaf.st.fields);
    if ex.op == OpSizeOf {
      if ex.source == leaf.rn.typ {
        target.Set(ex.target, leaf.st.size);
      } else {
        if ex.source !in fields {
          return Some(FieldNotFound(ex.source, leaf.rn.typ));
        }
        target.Set(ex.target, fields[ex.source].typ.size);
      }
    } else if ex.isStatic {
      StaticValuePanics(d, sym, leaf.entry, ex);
      var e := ExtractStatic(target, d, sym, leaf.entry, ex);
      if e.Some? && e.value.Panic? {
        return e;
      }
    } else {
      if ex.source !in fields {
        return Some(FieldNotFound(ex.source, leaf.rn.typ));
      }
      target.Set(ex.target, leaf.offset + fields[ex.source].byteOffset);
    }
    err := None;
  }

  /** extract: the extractors of a leaf, in order, each writing through Set. */
  method Extract(target: Target, d: Dwarf, sym: string -> Option<int>, leaf: Leaf) returns (err: Option<Error>)
    requires leaf.st.StructType?
    modifies target
    ensures target.values == Apply(old(target.values), Run(Steps(d, sym, leaf)).writes)
    ensures err == Run(Steps(d, sym, leaf)).err
  {
    ghost var steps := Steps(d, sym, leaf);
    RunStart(steps);
    ghost var done: seq<Write> := [];
    var k := 0;
    while k < |leaf.rn.extractors|
      invariant 0 <= k <= |leaf.rn.extractors|
      invariant target.values == Apply(old(target.values), done)
      invariant Run(steps) == Outcome(done + Run(steps[k..]).writes, Run(steps[k..]).err)
    {
      var e := ExtractOne(target, d, sym, leaf, leaf.rn.extractors[k]);
      if e.Some? {
        RunStops(steps, k, done);
        return e;
      }
      RunGoesOn(old(target.values), steps, k, done);
      done := done + steps[k].value;
      k := k + 1;
    }
    RunEnds(steps, done);
    err := None;
  }

  lemma RunStart(steps: seq<Result<seq<Write>, Error>>)
    ensures Run(steps) == Outcome([] + Run(steps[0..]).writes, Run(steps[0..]).err)
  {
    assert steps[0..] == steps;
  }

  /** A failing step ends the run with its error and the writes so far. */
  lemma RunStops(steps: seq<Result<seq<Write>, Error>>, k: nat, done: seq<Write>)
    requires k < |steps| && steps[k].Err?
    requires Run(steps) == Outcome(done + Run(steps[k..]).writes, Run(steps[k..]).err)
    ensures Run(steps) == Outcome(done, Some(steps[k].error))
  {
    assert steps[k..][0] == steps[k];
    assert done + [] == done;
  }

  /** A succeeding step adds its writes, applied after those so far. */
  lemma RunGoesOn(m: map<string, int>, steps: seq<Result<seq<Write>, Error>>, k: nat, done: seq<Write>)
    requires k < |steps| && steps[k].Ok?
    requires Run(steps) == Outcome(done + Run(steps[k..]).writes, Run(steps[k..]).err)
    ensures Run(steps) == Outcome((done + steps[k].value) + Run(steps[k + 1..]).writes, Run(steps[k + 1..]).err)
    ensures Apply(m, done + steps[k].value) == Apply(Apply(m, done), steps[k].value)
  {
    assert steps[k..][0] == steps[k] && steps[k..][1..] == steps[k + 1..];
    var w := steps[k].value;
    var rest := Run(steps[k + 1..]);
    assert done + (w + rest.writes) == (done + w) + rest.writes;
    ApplyAppend(m, done, w);
  }

  lemma RunEnds(steps: seq<Result<seq<Write>, Error>>, done: seq<Write>)
    requires Run(steps) == Outcome(done + Run(steps[|steps|..]).writes, Run(steps[|steps|..]).err)
    ensures Run(steps) == Outcome(done, None)
  {
    assert steps[|steps|..] == [];
    assert done + [] == done;
  }

  /** What extractor ex yields without static lookup: a size or offset, or None for a missing field. */
  function Expected(leaf: Leaf, ex: Extractor): Option<int>
    requires leaf.st.StructType?
  {
    var fields := FieldMap(leaf.st.fields);
    if ex.op == OpSizeOf && ex.source == leaf.rn.typ then Some(leaf.st.size)
    else if ex.source !in fields then None
    else if ex.op == OpSizeOf then Some(fields[ex.source].typ.size)
    else Some(leaf.offset + fields[ex.source].byteOffset)
  }

  /** A non-static extractor writes its Expected value, or fails when there is none. */
  lemma ExtractorStepPlain(d: Dwarf, sym: string -> Option<int>, leaf: Leaf, ex: Extractor)
    requires leaf.st.StructType? && !ex.isStatic
    ensures ExtractorStep(d, sym, leaf, ex).Ok? <==> Expected(leaf, ex).Some?
    ensures ExtractorStep(d, sym, leaf, ex).Ok? ==> ExtractorStep(d, sym, leaf, ex).value == [Write(ex.target, Expected(leaf, ex).value)]
  {
  }

  lemma {:induction false} ExtractPlain(d: Dwarf, sym: string -> Option<int>, leaf: Leaf, k: nat)
    requires leaf.st.StructType? && k <= |leaf.rn.extractors|
    requires forall j :: k <= j < |leaf.rn.extractors| ==> !leaf.rn.extractors[j].isStatic
    ensures ExtractFrom(d, sym, leaf, k).err.None? <==>
      forall j :: k <= j < |leaf.rn.extractors| ==> Expected(leaf, leaf.rn.extractors[j]).Some?
    ensures ExtractFrom(d, sym, leaf, k).err.None? ==>
      |ExtractFrom(d, sym, leaf, k).writes| == |leaf.rn.extractors| - k &&
      forall j :: k <= j < |leaf.rn.extractors| ==>
        ExtractFrom(d, sym, leaf, k).writes[j - k] == Write(leaf.rn.extractors[j].target, Expected(leaf, leaf.rn.extractors[j]).value)
    decreases |leaf.rn.extractors| - k
  {
    if k < |leaf.rn.extractors| {
      var ex := leaf.rn.extractors[k];
      ExtractPlain(d, sym, leaf, k + 1);
      ExtractorStepPlain(d, sym, leaf, ex);
      var r := ExtractFrom(d, sym, leaf, k);
      if r.err.None? {
        var rest := ExtractFrom(d, sym, leaf, k + 1).writes;
        assert r.writes == [Write(ex.target, Expected(leaf, ex).value)] + rest;
      }
    }
  }

  /**
   * Without static extractors, extract succeeds exactly when every source
   * names the route's type or one of its fields, and then writes, in order,
   * the struct size, a field's type size, or the summed offset plus the
   * field's byte offset.
   */
  lemma ExtractWrites(d: Dwarf, sym: string -> Option<int>, leaf: Leaf)
    requires leaf.st.StructType?
    requires forall j :: 0 <= j < |leaf.rn.extractors| ==> !leaf.rn.extractors[j].isStatic
    ensures ExtractFrom(d, sym, leaf, 0).err.None? <==>
      forall j :: 0 <= j < |leaf.rn.extractors| ==> Expected(leaf, leaf.rn.extractors[j]).Some?
    ensures ExtractFrom(d, sym, leaf, 0).err.None? ==>
      |ExtractFrom(d, sym, leaf, 0).writes| == |leaf.rn.extractors| &&
      forall j :: 0 <= j < |leaf.rn.extractors| ==>
        ExtractFrom(d, sym, leaf, 0).writes[j] == Write(leaf.rn.extractors[j].target, Expected(leaf, leaf.rn.extractors[j]).value)
  {
    ExtractPlain(d, sym, leaf, 0);
  }

  /** Static extractors never make extract fail, except by a panic. */
  lemma {:induction false} StaticNeverFails(d: Dwarf, sym: string -> Option<int>, leaf: Leaf, k: nat)
    requires leaf.st.StructType? && k <= |leaf.rn.extractors|
    requires forall j :: k <= j < |leaf.rn.extractors| ==> leaf.rn.extractors[j].op == OpOffsetOf && leaf.rn.extractors[j].isStatic
    ensures ExtractFrom(d, sym, leaf, k).err.None? || ExtractFrom(d, sym, leaf, k).err.value.Panic?
    decreases |leaf.rn.extractors| - k
  {
    if k < |leaf.rn.extractors| {
      StaticValuePanics(d, sym, leaf.entry, leaf.rn.extractors[k]);
      StaticNeverFails(d, sym, leaf, k + 1);
    }
  }

  // ----- ReadFromDWARF -----

  /** Type: the decoded type at an offset. */
  function TypeAt(d: Dwarf, off: nat): Result<DType, Error>
  {
    if off in d.types then Ok(d.types[off]) else Err(TypeFailed)
  }

  /** One iteration of the route loop. */
  function RouteOutcome(d: Dwarf, sym: string -> Option<int>, rn: RouteNode): Outcome
  {
    match CompositeFrom(d.stream, rn.typ, 0, [])
    case Err(e) => if e.Panic? then Outcome([], Some(e)) else Outcome([], None)
    case Ok(entries) =>
      match FindActionableEntry(d, entries)
      case Err(e) => Outcome([], Some(e))
      case Ok(entry) =>
        match TypeAt(d, entry.offset)
        case Err(e) => Outcome([], Some(e))
        case Ok(typ) =>
          match Walk(d, rn, entry, typ, 0)
          case Err(e) => Outcome([], Some(e))
          case Ok(leaf) => ExtractFrom(d, sym, leaf, 0)
  }

  /** The route loop from route i on: the first failing route ends it. */
  function RoutesFrom(d: Dwarf, sym: string -> Option<int>, routes: seq<RouteNode>, i: nat): Outcome
    requires i <= |routes|
    decreases |routes| - i
  {
    if i == |routes| then Outcome([], None)
    else
      var o := RouteOutcome(d, sym, routes[i]);
      if o.err.Some? then o
      else
        var rest := RoutesFrom(d, sym, routes, i + 1);
        Outcome(o.writes + rest.writes, rest.err)
  }

  function ReadSpec(dwarfData: Option<Dwarf>, sym: string -> Option<int>, routes: seq<RouteNode>): Outcome
  {
    if dwarfData.None? then Outcome([], Some(NoDwarf)) else RoutesFrom(dwarfData.value, sym, routes, 0)
  }

  /** One iteration of the route loop of ReadFromDWARF; err.None? means go on with the next route. */
  method ProcessRoute(target: Target, d: Dwarf, sym: string -> Option<int>, rn: RouteNode) returns (err: Option<Error>)
    modifies target
    ensures target.values == Apply(old(target.values), RouteOutcome(d, sym, rn).writes)
    ensures err == RouteOutcome(d, sym, rn).err
  {
    var entries := FindCompositeTypeEntries(d, rn.typ);
    if entries.Err? {
      if entries.error.Panic? {
        return Some(entries.error);
      }
      // A failed scan skips the route.
      return None;
    }
    var entry := FindActionableEntry(d, entries.value);
    if entry.Err? {
      return Some(entry.error);
    }
    var typ := TypeAt(d, entry.value.offset);
    if typ.Err? {
      return Some(typ.error);
    }
    var leaf := Walk(d, rn, entry.value, typ.value, 0);
    if leaf.Err? {
      return Some(leaf.error);
    }
    ExtractFromRun(d, sym, leaf.value, 0);
    assert Steps(d, sym, leaf.value)[0..] == Steps(d, sym, leaf.value);
    err := Extract(target, d, sym, leaf.value);
  }

  lemma RoutesStep(d: Dwarf, sym: string -> Option<int>, routes: seq<RouteNode>, i: nat, done: seq<Write>)
    requires i < |routes|
    requires RoutesFrom(d, sym, routes, 0) == Outcome(done + RoutesFrom(d, sym, routes, i).writes, RoutesFrom(d, sym, routes, i).err)
    ensures RouteOutcome(d, sym, routes[i]).err.Some? ==>
      RoutesFrom(d, sym, routes, 0) == Outcome(done + RouteOutcome(d, sym, routes[i]).writes, RouteOutcome(d, sym, routes[i]).err)
    ensures RouteOutcome(d, sym, routes[i]).err.None? ==>
      RoutesFrom(d, sym, routes, 0) ==
      Outcome((done + RouteOutcome(d, sym, routes[i]).writes) + RoutesFrom(d, sym, routes, i + 1).writes, RoutesFrom(d, sym, routes, i + 1).err)
  {
    var o := RouteOutcome(d, sym, routes[i]);
    if o.err.None? {
      assert done + (o.writes + RoutesFrom(d, sym, routes, i + 1).writes) == (done + o.writes) + RoutesFrom(d, sym, routes, i + 1).writes;
    }
  }

  /** ReadFromDWARF: dwarfData is None when the ELF file has no readable DWARF. */
  method ReadFromDWARF(target: Target, dwarfData: Option<Dwarf>, sym: string -> Option<int>, routes: seq<RouteNode>) returns (err: Option<Error>)
    modifies target
    ensures target.values == Apply(old(target.values), ReadSpec(dwarfData, sym, routes).writes)
    ensures err == ReadSpec(dwarfData, sym, routes).err
  {
    if dwarfData.None? {
      return Some(NoDwarf);
    }
    var d := dwarfData.value;
    ghost var done: seq<Write> := [];
    var i := 0;
    while i < |routes|
      invariant 0 <= i <= |routes|
      invariant target.values == Apply(old(target.values), done)
      invariant RoutesFrom(d, sym, routes, 0) == Outcome(done + RoutesFrom(d, sym, routes, i).writes, RoutesFrom(d, sym, routes, i).err)
    {
      ghost var w := RouteOutcome(d, sym, routes[i]).writes;
      var e := ProcessRoute(target, d, sym, routes[i]);
      ApplyAppend(old(target.values), done, w);
      RoutesStep(d, sym, routes, i, done);
      if e.Some? {
        return e;
      }
      done := done + w;
      i := i + 1;
    }
    assert done + [] == done;
    err := None;
  }
}
