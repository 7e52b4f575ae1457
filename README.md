# runtime-data, modelled in Dafny

runtime-data produces, for the language runtimes a profiler unwinds (CPython,
Ruby, the JVM, glibc and musl), the byte offsets and sizes of the runtime's
internal structs. A Go *layout struct* names each wanted value in a struct
tag (`offsetof:"S.f"`, `sizeof:"S"`). `datamap.New` turns those tags into a
plan of DWARF queries, and `ReadFromDWARF` answers the plan from an ELF
file's debugging information. Each runtime's mapper builds a published
*layout* record from the answers. `cmd/structlayout` writes that record to a
YAML file named after the version, `cmd/mergelayout` merges files of
consecutive versions with equal layouts into version ranges, and the
packages embed the merged tables and look a version up in them. Two
downloader commands fetch Debian and Alpine packages to extract the
binaries from, and `cmd/debuginfofind` locates the separate debug file of
an executable.

The model has one module per source file:

- `Datamap` (pkg/datamap/datamap.go): tag selection, `New` and its grouping
  of requests by (struct name, operation). `DatamapExamples` holds concrete
  layout structs, including the cases of pkg/datamap/datamap_test.go.
- `Dwarf` (pkg/datamap/dwarf.go): the search for composite type entries, the
  walk down a route through nested members, and the writes into the layout
  struct, which is the class `Dwarf.Target`. `DwarfExamples` reads back the
  layout of pkg/datamap/testdata/test.c.
- `LayoutTable`: the embedded-table logic that pkg/python/python.go,
  pkg/ruby/ruby.go, pkg/libc/glibc/glibc.go and pkg/libc/musl/musl.go share.
  The per-package modules `PythonTables`, `RubyTables`, `GlibcTables` and
  `MuslTables` instantiate it with each package's own differences.
- `PythonDatamap` (pkg/python/datamap.go) and `PythonInitialState`
  (pkg/python/initialstate.go): version dispatch and the record-building
  `Layout`/`InitialState` of each mapper. `OpenJdk` covers
  pkg/java/openjdk/datamap.go.
- `StructLayout`, `MergeLayout`, `DebDownload`, `ApkDownload` and
  `DebugInfoFind`: the commands. `Packages` holds the package record and the
  download loop that both downloaders define.
- `Semver`, `Strs`, `Decimal`, `RuntimeData` and `Wrappers` model the library
  calls the core relies on. These are Masterminds semver's version parsing,
  precedence and the constraint forms the core writes, a few functions of
  Go's strings, bytes and path/filepath, and %d formatting. Their lemmas
  support the rest and have no rows of their own.

## How the code behaves where it differs from its description

The model follows the code as written, except where a row under "## Findings"
corrects it; "## Left out" names the members that use such a correction. The
following behaviours are proved, and the lemmas named here have rows below.

- `datamap.New` accepts only int64 `sizeof` fields (pkg/datamap/datamap.go:178-181).
  The OpenJDK mapper declares its fields as uint64, so New rejects it at
  HeapWordSize (`OpenJdk.NewRejectsOpenJdk`).
  It also rejects an offset tag with two dots, and the Python initial-state
  mappers use such tags (`PythonInitialState.NewRejectsState`). As a result
  `cmd/structlayout` never writes an initial-state file
  (`StructLayout.WrittenIsLayoutOnly`).
- pkg/datamap/datamap_test.go does not match datamap.go. A struct without
  tags yields an empty plan, not an error, and a `sizeof` field of kind int is
  rejected. The cases are in `DatamapExamples`.
- A nested struct's own `sizeof` groups are re-filed as empty offset groups of
  the outer table (`Datamap.Refile`).
- ReadFromDWARF calls `Routes` and `Extractor.Set`, which pkg/datamap/datamap.go
  does not define. The route type is reconstructed from its uses, and the layout
  struct being written is the class `Dwarf.Target`.
- A read error from the DWARF reader ends the search for type entries silently.
  The reader returns a nil entry together with the error, and the nil check
  comes first (`Dwarf.ReadErrorTruncates`).
- `loadLayouts` in the table packages assigns its errors to a shadowing
  variable, so it always returns a nil error. Its caller's panic never fires
  (`LayoutTable.Registry.LoadLayouts`).
- Go map iteration order is unspecified.
  - Where a result depends on it, the model makes a nondeterministic choice:
    `GetLayout`'s search of the loaded table and the order of `maps.Values`
    in apkdownload.
  - Elsewhere one admissible order is fixed, such as the group order of `New`.
- `find` in cmd/debuginfofind takes the outcome of `readDebuglink` as a parameter.
  The DWARF data and symbol lookup of ReadFromDWARF are parameters too, as are
  HTTP responses, file contents and whether a path exists.
- debdownload's list keeps every matching link, and the archive name and the
  extraction directory use only maj.min.patch. Two revisions of one triple
  therefore share both. Download fetches only the first and succeeds even if
  the second link fails (`DebDownload.SameTripleDownloadedOnce`). Extract
  unpacks only the first (`DebDownload.UnpackedOnce`).
- ruby.DataMapForLayout (pkg/ruby/datamap.go) is not part of this model.
  `cmd/structlayout` receives whether Ruby has a mapper for a version as a
  parameter.

## Model

| member | source | states |
|---|---|---|
| Datamap.Lookup | pkg/datamap/datamap.go:133 | a tag lookup returns the value of an entry with that key, and None only when no entry has the key |
| Datamap.LookupPrefix | pkg/datamap/datamap.go:133 | entries after the first one with the key do not change what the lookup returns |
| Datamap.Select | pkg/datamap/datamap.go:128-142 | a non-empty offsetof value is selected as an offset; sizeof is selected only when offsetof is absent or empty |
| Datamap.OffsetTag | pkg/datamap/datamap.go:133-136 | a lone non-empty offsetof entry selects its value as an offset |
| Datamap.EmptyOffsetTag | pkg/datamap/datamap.go:137-142 | a lone empty offsetof entry selects the empty value, which the loop then skips |
| Datamap.SizeTag | pkg/datamap/datamap.go:137-142 | a lone sizeof entry selects its value as a size |
| Datamap.OffsetofPrecedence | pkg/datamap/datamap.go:133-142 | a non-empty offsetof wins over any sizeof entry in the same tag |
| Datamap.GroupKeyInjective | pkg/datamap/datamap.go:93-95 | different (struct name, operation) pairs get different group keys |
| Datamap.GroupOfKey | pkg/datamap/datamap.go:92-95 | every stored group is found again under its own name and operation |
| Datamap.Values | pkg/datamap/datamap.go:186 | the result lists every group of the table once, and each listed group is the table's group for its name and operation |
| Datamap.OneGroupPerKey | pkg/datamap/datamap.go:92-120 | no two returned groups share a struct name and an operation |
| Datamap.AddByField | pkg/datamap/datamap.go:96-108 | the fields are appended to the existing (name, op) group, or a new group is created with them; every other group is unchanged |
| Datamap.AddByStruct | pkg/datamap/datamap.go:109-120 | a new (name, op) size group is created with the value unless one exists, in which case nothing changes; every other group is unchanged |
| Datamap.Refile | pkg/datamap/datamap.go:165-172 | filing a nested struct's groups as offset groups keeps every existing group and leaves the size groups unchanged |
| Datamap.RefileAll | pkg/datamap/datamap.go:165-172 | the loop over the nested groups computes Refile |
| Datamap.Step | pkg/datamap/datamap.go:124-183 | one field iteration keeps the table well formed and never removes a group; an offset field leaves the size groups unchanged |
| Datamap.FieldStep | pkg/datamap/datamap.go:125-183 | the body of the field loop, with its skip, one-dot, nested-struct, plain-offset and int64-size branches, computes Step |
| Datamap.GenFromErr | pkg/datamap/datamap.go:152-154 | the first field whose iteration fails ends the loop with that field's error |
| Datamap.GenFromOk | pkg/datamap/datamap.go:124-184 | a field whose iteration succeeds hands its table to the next field |
| Datamap.Gen | pkg/datamap/datamap.go:82-187 | generateFromStructType returns at most one group per (struct name, operation) |
| Datamap.GenerateFromStructType | pkg/datamap/datamap.go:82-187 | the field loop, recursing into nested structs, returns Gen's result or error |
| Datamap.StepSame | pkg/datamap/datamap.go:124-183 | a field's contribution depends only on the field itself and the enclosing struct's name |
| Datamap.SkippedFieldIgnored | pkg/datamap/datamap.go:144-146 | removing a field whose selected value is empty or "-" does not change the result |
| Datamap.StepSize | pkg/datamap/datamap.go:178-182 | after each field, every size group comes from the first int64 field asking for that size |
| Datamap.GenFromSize | pkg/datamap/datamap.go:178-182 | that size invariant holds at the end of the field loop |
| Datamap.SizeGroups | pkg/datamap/datamap.go:109-182 | every returned size group comes from the first int64 sizeof field with its name; every sizeof field is int64 and has its group |
| Datamap.StepOneDot | pkg/datamap/datamap.go:150-156 | offsetof:"S.x" appends field x, pointing at this field, to the (S, offset) group |
| Datamap.OneDotParts | pkg/datamap/datamap.go:150-152 | a value with a single dot splits into exactly two parts |
| Datamap.StepTwoDots | pkg/datamap/datamap.go:150-154 | an offset tag with two dots is rejected with the invalid-offset-tag error |
| Datamap.StepNoDot | pkg/datamap/datamap.go:159-177 | a dotless offset tag on a struct-typed field recurses and re-files the nested groups (or wraps the nested error); on any other field it adds the field to the enclosing struct's group |
| Datamap.AllDotted | pkg/datamap/datamap.go:150-186 | a struct whose every field is tagged "S.x" gives one offset group for S with the fields in declaration order |
| Datamap.New | pkg/datamap/datamap.go:57-80 | nil, a non-pointer and a pointer to a non-struct are rejected with their own errors; otherwise the groups of generateFromStructType are returned, or its error wrapped |
| DatamapExamples.DottedTag | pkg/datamap/datamap.go:133-136 | offsetof:"S.x" with no other dot is a one-dot tag naming member x of S |
| DatamapExamples.StepSizeField | pkg/datamap/datamap.go:178-182 | sizeof on an int64 field creates the size group pointing at that field |
| DatamapExamples.TwoFieldGroups | pkg/datamap/datamap.go:96-108 | two offset groups created one after the other come out in the order the model fixes for maps.Values (first insertion) |
| DatamapExamples.FieldThenSizeGroups | pkg/datamap/datamap.go:96-120 | an offset group and then a size group come out in the order the model fixes for maps.Values (first insertion) |
| DatamapExamples.SimpleCase | pkg/datamap/datamap_test.go:62-83 | the "simple" struct gives one group "simple" with fields a and b |
| DatamapExamples.NoTagsCase | pkg/datamap/datamap_test.go:19-26 | an untagged struct gives no groups and no error (the test expects an error) |
| DatamapExamples.SizeofOnIntCase | pkg/datamap/datamap_test.go:27-53 | sizeof on int fields is rejected (the test expects two size groups) |
| DatamapExamples.IgnoreFirst | pkg/datamap/datamap_test.go:87 | a field tagged offsetof:"-" adds nothing |
| DatamapExamples.IgnoreSecond | pkg/datamap/datamap_test.go:88 | offsetof:"_MyStruct.b" creates the _MyStruct group with field b |
| DatamapExamples.IgnoreThird | pkg/datamap/datamap_test.go:89 | a field tagged offsetof:"" adds nothing |
| DatamapExamples.IgnoreFields | pkg/datamap/datamap_test.go:84-102 | the field loop over the "ignore" struct leaves only the _MyStruct group |
| DatamapExamples.IgnoreCase | pkg/datamap/datamap_test.go:84-102 | the "ignore" struct gives the single group _MyStruct with field b |
| DatamapExamples.NestedTargetFirst | pkg/datamap/datamap_test.go:143 | the one-dot first field of the "nested target" case succeeds |
| DatamapExamples.NestedTargetSecond | pkg/datamap/datamap_test.go:144 | the two-dot second field is rejected |
| DatamapExamples.NestedTargetFields | pkg/datamap/datamap_test.go:140-175 | the field loop stops at the two-dot tag with its error |
| DatamapExamples.NestedTargetCase | pkg/datamap/datamap_test.go:140-175 | New rejects the "nested target" struct (the test expects a two-level route) |
| DatamapExamples.InnerFirst | pkg/datamap/datamap.go:177 | a plain offset tag in an anonymous struct files the field under the struct's String() name |
| DatamapExamples.InnerSecond | pkg/datamap/datamap.go:178-182 | the inner struct's sizeof field creates its size group |
| DatamapExamples.InnerGen | pkg/datamap/datamap.go:82-187 | the inner anonymous struct gives its offset group and its size group, in the order the model fixes for maps.Values |
| DatamapExamples.OuterRefile | pkg/datamap/datamap.go:165-172 | the anonymous offset group is re-filed under the outer tag value, and the size group becomes an empty offset group under its own name |
| DatamapExamples.OuterField | pkg/datamap/datamap.go:159 | the outer field is struct-typed and tagged with a dotless offset |
| DatamapExamples.OuterStep | pkg/datamap/datamap.go:159-174 | the outer struct-typed field recurses and re-files the inner groups |
| DatamapExamples.OuterValues | pkg/datamap/datamap.go:186 | the outer table lists the re-filed groups in insertion order |
| DatamapExamples.NestedAnonymousCase | pkg/datamap/datamap.go:159-174 | a nested struct's sizeof request survives only as an empty offset group |
| Dwarf.ApplyAppend | pkg/datamap/dwarf.go:84-117 | setting the writes of two runs one after the other gives the same fields as setting their concatenation |
| Dwarf.Target.Set | pkg/datamap/dwarf.go:87-138 | Set stores the value in the named field and changes no other field |
| Dwarf.Target.constructor | pkg/datamap/dwarf_test.go:52 | the layout struct that the extractors write into starts with the given field values |
| Dwarf.AttrsFromSpec | pkg/datamap/dwarf.go:268-277 | the attribute loop succeeds exactly when no attribute occurs twice, and then maps every attribute to its value and nothing else |
| Dwarf.AttrMapSpec | pkg/datamap/dwarf.go:268-277 | attrs panics exactly on a duplicate attribute; otherwise its map holds exactly the entry's attributes with their values |
| Dwarf.AttrsPanics | pkg/datamap/dwarf.go:271-273 | the only way the attribute loop fails is the duplicate-attribute panic |
| Dwarf.Attrs | pkg/datamap/dwarf.go:268-277 | the attribute loop computes AttrMap |
| Dwarf.SeekIndex | pkg/datamap/dwarf.go:230 | seeking stops at the entry with the requested offset, or at the end of the stream |
| Dwarf.FindCompositeTypeEntries | pkg/datamap/dwarf.go:160-190 | the entry scan, stopping at the first entry the reader cannot give, computes CompositeFrom |
| Dwarf.CompositeSound | pkg/datamap/dwarf.go:163-188 | every collected entry is a struct, class or typedef with the wanted name; a failure is a panic |
| Dwarf.CompositeEntries | pkg/datamap/dwarf.go:160-190 | findCompositeTypeEntries returns exactly the struct, class and typedef entries with the wanted name that precede the first read error, in stream order; it fails only by a panic, and exactly when one of the type entries in that stretch has unreadable attributes |
| Dwarf.ReadableIsPrefix | pkg/datamap/dwarf.go:163-168 | the entries the reader yields are the good slots up to the first read error or the end of the stream |
| Dwarf.NamedTypesMembers | pkg/datamap/dwarf.go:173-187 | the named-type filter keeps exactly the struct, class and typedef entries with the wanted name |
| Dwarf.CompositeValue | pkg/datamap/dwarf.go:163-189 | the scan from any position appends every named type entry before the first read error, in stream order |
| Dwarf.CompositeFails | pkg/datamap/dwarf.go:163-184 | the scan from any position fails exactly when a type entry before the first read error has unreadable attributes |
| Dwarf.TruncateFrom | pkg/datamap/dwarf.go:164-171 | the scan from any position ignores everything at and after the first read error |
| Dwarf.ReadErrorTruncates | pkg/datamap/dwarf.go:164-171 | a read error ends the scan silently: the result is that of the stream cut before the error |
| Dwarf.CandidateSpec | pkg/datamap/dwarf.go:194-223 | a candidate yields a definition, either itself when it is a struct or class, or the entry its DW_AT_type refers to; a struct or class definition yields itself; no candidate yields "no composite type" |
| Dwarf.ActionableFromSpec | pkg/datamap/dwarf.go:194-225 | the loop from k returns the yield of the first candidate that yields one, every earlier one yielding nothing; "no composite type" exactly when none yields |
| Dwarf.ActionableIsFirst | pkg/datamap/dwarf.go:193-226 | the entry returned is a definition yielded by the first candidate that yields one; "no composite type" exactly when every candidate yields nothing |
| Dwarf.FindFieldEntry | pkg/datamap/dwarf.go:228-264 | the loop from the seeked entry computes FieldEntry, stopping at a read error, a null entry or the first entry with the name |
| Dwarf.FieldEntryFromSpec | pkg/datamap/dwarf.go:231-263 | a found entry has the name and every entry before it is readable, not null and named otherwise; an empty name is never found |
| Dwarf.FieldEntryIsFirst | pkg/datamap/dwarf.go:228-264 | findFieldEntry returns the first entry from the starting one on that has the name; an empty name is never found |
| Dwarf.NullStopsSearch | pkg/datamap/dwarf.go:241-244 | a null entry reached before the name ends the search with "not found" |
| Dwarf.FieldMapLast | pkg/datamap/dwarf.go:61-64 | the fields map holds, for each name, the last field with that name, and no name that no field has |
| Dwarf.Walk | pkg/datamap/dwarf.go:48-77 | a successful walk ends at a leaf node with a struct type |
| Dwarf.LeafOf | pkg/datamap/dwarf.go:54 | the last node of a route is a leaf |
| Dwarf.WalkOffset | pkg/datamap/dwarf.go:66-76 | a successful walk ends at the route's last node, at the starting offset plus the byte offsets of the members named along the route; a route naming a missing member fails |
| Dwarf.StaticValuePanics | pkg/datamap/dwarf.go:121-142 | extractStatic fails only by a panic; its returned errors are dropped |
| Dwarf.ExtractFromRun | pkg/datamap/dwarf.go:84-117 | the extractor loop from k is the run of the outcomes of extractors k and after |
| Dwarf.ExtractStatic | pkg/datamap/dwarf.go:121-142 | the symbol value is set when the field entry, its linkage name and the symbol are all found; otherwise nothing is set |
| Dwarf.ExtractOne | pkg/datamap/dwarf.go:85-116 | one extractor sets exactly the writes of its outcome, or returns its error and sets nothing |
| Dwarf.Extract | pkg/datamap/dwarf.go:79-119 | the extractor loop sets the writes of every extractor up to the first failing one, in order, and returns that one's error |
| Dwarf.RunStops | pkg/datamap/dwarf.go:94-96 | a failing extractor ends the run with its error and the writes done so far |
| Dwarf.RunGoesOn | pkg/datamap/dwarf.go:84-117 | a succeeding extractor adds its writes after those done so far |
| Dwarf.ExtractorStepPlain | pkg/datamap/dwarf.go:85-116 | a non-static extractor writes its expected size or offset, and fails exactly when the field is missing |
| Dwarf.ExtractPlain | pkg/datamap/dwarf.go:84-117 | without static extractors, the loop from k succeeds exactly when every source is found, and then writes one expected value per extractor in order |
| Dwarf.ExtractWrites | pkg/datamap/dwarf.go:79-119 | without static extractors, extract succeeds exactly when every source names the route's type or one of its fields, and writes the struct size, the field's type size or the summed offset plus the field's byte offset, in order |
| Dwarf.StaticNeverFails | pkg/datamap/dwarf.go:102-106 | static extractors never make extract fail, except by a panic |
| Dwarf.ProcessRoute | pkg/datamap/dwarf.go:26-43 | one route iteration sets the writes of its outcome and returns its error; a failed type scan skips the route |
| Dwarf.RoutesStep | pkg/datamap/dwarf.go:25-44 | a failing route ends the loop with its error; otherwise its writes come before those of the later routes |
| Dwarf.ReadFromDWARF | pkg/datamap/dwarf.go:13-46 | missing DWARF data is an error; otherwise the routes are processed in order, the first failure ending the loop, and the layout struct holds the writes done |
| DwarfExamples.MemberName | pkg/datamap/testdata/test.c:3-14 | a member entry of the test program is named by its DW_AT_name |
| DwarfExamples.AnonStructFacts | pkg/datamap/testdata/test.c:3 | the anonymous struct entry has children, no name and no declaration attribute |
| DwarfExamples.SkipComposite | pkg/datamap/dwarf.go:173-185 | the type scan passes over entries that are not struct, class or typedef entries with the wanted name |
| DwarfExamples.SkipField | pkg/datamap/dwarf.go:246-259 | the field scan passes over readable, non-null entries with another name |
| DwarfExamples.SeekAt | pkg/datamap/dwarf.go:230 | seeking finds the first entry at the requested offset |
| DwarfExamples.FoundAt | pkg/datamap/dwarf.go:257-261 | the field scan stops at a non-null entry with the wanted, non-empty name |
| DwarfExamples.TypedefName | pkg/datamap/testdata/test.c:14 | the typedef entry is named test_t |
| DwarfExamples.ScanPrefix | pkg/datamap/testdata/test.c:3-13 | no entry before the typedef is a struct, class or typedef named test_t |
| DwarfExamples.ScanTail | pkg/datamap/testdata/test.c:14 | from the typedef on, the scan collects only the typedef |
| DwarfExamples.ScanTestT | pkg/datamap/dwarf.go:160-190 | the scan for test_t over the test program collects only its typedef |
| DwarfExamples.SeekOuter | pkg/datamap/dwarf.go:294 | the typedef's DW_AT_type leads to the outer anonymous struct |
| DwarfExamples.TypedefType | pkg/datamap/dwarf.go:287-300 | typeOf of the typedef is the outer anonymous struct |
| DwarfExamples.ActionableTestT | pkg/datamap/dwarf.go:193-226 | the typedef yields the outer anonymous struct as test_t's definition |
| DwarfExamples.FieldMapSnoc | pkg/datamap/dwarf.go:61-64 | one more field adds or replaces its name in the fields map |
| DwarfExamples.FieldMap3 | pkg/datamap/dwarf.go:61-64 | the fields map of three fields |
| DwarfExamples.OuterFields | pkg/datamap/testdata/test.c:3-14 | test_t has a at 0, b at 4 and nested at 8 |
| DwarfExamples.NestedFields | pkg/datamap/testdata/test.c:6-13 | nested has nested_a at 0, nested_b at 4 and deeply_nested at 8 |
| DwarfExamples.DeeplyFields | pkg/datamap/testdata/test.c:9-12 | deeply_nested has deeply_nested_a at 0 and deeply_nested_b at 4 |
| DwarfExamples.NestedPassed | pkg/datamap/dwarf.go:246-259 | the search for member nested passes the struct and members a and b |
| DwarfExamples.FindNested | pkg/datamap/dwarf.go:228-264 | from the outer struct, findFieldEntry finds member nested |
| DwarfExamples.SeekNested | pkg/datamap/dwarf.go:230 | seeking member nested's offset reaches it |
| DwarfExamples.DeeplyPassedFirst | pkg/datamap/dwarf.go:246-259 | the search for deeply_nested passes member nested and the nested struct type |
| DwarfExamples.DeeplyPassedSecond | pkg/datamap/dwarf.go:246-259 | the search for deeply_nested passes members nested_a and nested_b |
| DwarfExamples.DeeplyPassed | pkg/datamap/dwarf.go:246-259 | the search for deeply_nested passes the four entries before it |
| DwarfExamples.FindDeeplyNested | pkg/datamap/dwarf.go:228-264 | from member nested, findFieldEntry finds member deeply_nested |
| DwarfExamples.Extract1 | pkg/datamap/dwarf_test.go:55-58 | the test_t leaf writes Size 24, A 0, B 4 and NestedSize 16 |
| DwarfExamples.Extract2 | pkg/datamap/dwarf_test.go:60-62 | the nested leaf writes NestedA 8, NestedB 12 and DeeplyNestedSize 8 |
| DwarfExamples.Extract3 | pkg/datamap/dwarf_test.go:64-65 | the deeply_nested leaf writes DeeplyNestedA 16 and DeeplyNestedB 20 |
| DwarfExamples.FindOuter | pkg/datamap/dwarf.go:26-39 | the route loop finds test_t's typedef, its definition and its struct type |
| DwarfExamples.Route1Writes | pkg/datamap/dwarf_test.go:24-27 | the test_t route writes its four values without error |
| DwarfExamples.Route2Walk | pkg/datamap/dwarf.go:48-77 | the nested route walks to member nested at offset 8 |
| DwarfExamples.Route2Writes | pkg/datamap/dwarf_test.go:29-31 | the nested route writes its three values without error |
| DwarfExamples.Route3Walk | pkg/datamap/dwarf.go:48-77 | the deeply_nested route walks to member deeply_nested at offset 16 |
| DwarfExamples.Route3Writes | pkg/datamap/dwarf_test.go:33-34 | the deeply_nested route writes its two values without error |
| DwarfExamples.ThreeRoutes | pkg/datamap/dwarf.go:25-45 | three routes that succeed write their values one after the other |
| DwarfExamples.AllWrites | pkg/datamap/dwarf_test.go:54-66 | the three routes' writes are the test's nine expected values in order |
| DwarfExamples.TestLayout | pkg/datamap/dwarf_test.go:48-68 | reading the test program's DWARF fills Size 24, A 0, B 4, NestedSize 16, NestedA 8, NestedB 12, DeeplyNestedSize 8, DeeplyNestedA 16, DeeplyNestedB 20 |
| LayoutTable.GetLayoutForArch | pkg/python/python.go:90-126 | the search loop with its counter computes ForArch: an unreadable directory is an error, directories and non-YAML files are skipped, the first read, decode or constraint error is returned, and the first matching file is returned with its key; a search without the counter (initial states, ruby, libc) always gives index 0 |
| LayoutTable.FirstStop | pkg/python/python.go:96-124 | the first entry from k on that the search does not walk past: every entry before it is walked past, and it is not |
| LayoutTable.ScanIsFirstStop | pkg/python/python.go:96-125 | the search result is decided by the first entry it does not walk past: "not found" when there is none, else that entry's error or match, with the number of YAML files before it as python's index |
| LayoutTable.PassCase | pkg/python/python.go:97-123 | walking past an entry leaves the deciding entry and the result unchanged, the YAML count moving by one for a YAML file |
| LayoutTable.StopResultPass | pkg/python/python.go:105-123 | when entry k does not decide the search, its result from k equals its result from k+1 with the YAML count advanced |
| LayoutTable.FirstStopPass | pkg/python/python.go:97-109 | an entry the search walks past is never the deciding entry |
| LayoutTable.PassStep | pkg/python/python.go:97-123 | a directory, a non-YAML file or a non-matching layout moves the search on, counting only the YAML files |
| LayoutTable.StopStep | pkg/python/python.go:101-121 | an entry the search does not walk past ends it with that entry's error or match |
| LayoutTable.YamlCountStep | pkg/python/python.go:105-123 | the counter grows by one per regular YAML file walked past |
| LayoutTable.FoundIsFirstMatch | pkg/python/python.go:119-121 | a found layout is the first entry not walked past, it matches the version, the layout is that file's decoded content, and python's index is the number of YAML files before it |
| LayoutTable.NotFoundIffAllPass | pkg/python/python.go:125 | "not found" exactly when every entry is walked past: a directory, a non-YAML file, or a usable layout whose constraint rejects the version |
| LayoutTable.LoadEntries | pkg/python/python.go:58-85 | the loading loop computes LoadAt, stopping silently at the first unreadable, undecodable or unparsable YAML file |
| LayoutTable.LoadAddsDistinctKeys | pkg/python/python.go:58-85 | every stored file gets a fresh index, so the table keeps its old keys and grows by exactly the number of stored files, the new keys carrying indices seen, seen+1, and so on |
| LayoutTable.LoadSkip | pkg/python/python.go:60-72 | directories and non-YAML files add nothing to the table |
| LayoutTable.LoadStore | pkg/python/python.go:73-84 | a usable YAML file is stored under the next index and its rendered constraint |
| LayoutTable.LoadStop | pkg/python/python.go:64-81 | an unreadable, undecodable or unparsable YAML file ends the load, keeping the table so far |
| LayoutTable.AddFreshKey | pkg/python/python.go:82-84 | a key whose index is above every stored one is new, so the table grows by one |
| LayoutTable.Registry.constructor | pkg/python/python.go:39-40 | the table starts empty and not yet loaded |
| LayoutTable.Registry.LoadLayouts | pkg/python/python.go:51-88 | only the first call loads the directory (nothing when it cannot be read); every call returns the table and no error, because the closure's errors go to a shadowing variable |
| LayoutTable.Init | pkg/python/python.go:43-49 | init loads the table once, and its panic never fires |
| LayoutTable.Pick | pkg/python/python.go:129-144 | GetLayout returns a table entry whose constraint parses and accepts the version, or the key of an unparsable constraint; "not found" exactly when every constraint parses and rejects the version, whatever the map order |
| LayoutTable.LoadInitialState | pkg/python/python.go:156-188 | the loop computes LoadStates: errors are returned, and every key has index 0 |
| LayoutTable.LastStateWins | pkg/python/python.go:184-185 | with index 0 in every key, the last usable file whose constraint renders alike wins its key |
| LayoutTable.StatesKeep | pkg/python/python.go:162-186 | with no usable file left, a successful load keeps every stored entry |
| PythonTables.GetLayoutForArch | pkg/python/python.go:90-126 | the search with keys numbered by the YAML files walked past before the match |
| PythonTables.GetLayout | pkg/python/python.go:129-144 | GetLayout loads the table once, then returns an entry whose constraint accepts the version, the key of an unparsable constraint, or "not found" exactly when no constraint accepts it |
| PythonTables.GetLayouts | pkg/python/python.go:147-153 | GetLayouts loads the table once and returns it, never with an error |
| PythonTables.GetInitialStateForArch | pkg/python/python.go:190-223 | the initial-state search: the first matching file, with a key of index 0 |
| PythonTables.GetInitialState | pkg/python/python.go:226-241 | a loading error is passed on; a found state is in the loaded table with index 0 and a constraint that accepts the version |
| PythonTables.GetInitialStates | pkg/python/python.go:244-246 | every initial state, keyed with index 0, or the first loading error |
| RubyTables.GetLayout | pkg/ruby/ruby.go:86-97 | the lookup in the table init loaded: a matching entry, an unparsable key, or "not found" exactly when every constraint parses and rejects the version |
| RubyTables.GetLayouts | pkg/ruby/ruby.go:100-102 | the loaded table and never an error |
| GlibcTables.GetLayoutForArch | pkg/libc/glibc/glibc.go:77-111 | the first matching YAML file, with a key of index 0 |
| GlibcTables.GetLayout | pkg/libc/glibc/glibc.go:114-125 | the lookup in the table init loaded: a matching entry, an unparsable key, or "not found" exactly when every constraint parses and rejects the version |
| GlibcTables.GetLayouts | pkg/libc/glibc/glibc.go:128-130 | the loaded table and never an error |
| MuslTables.GetLayoutForArch | pkg/libc/musl/musl.go:74-108 | the first matching YAML file, with a key of index 0 |
| MuslTables.GetLayout | pkg/libc/musl/musl.go:111-122 | the lookup in the table init loaded: a matching entry, an unparsable key, or "not found" exactly when every constraint parses and rejects the version |
| MuslTables.GetLayouts | pkg/libc/musl/musl.go:125-127 | the loaded table and never an error |
| PythonInitialState.StateForMeaning | pkg/python/initialstate.go:17-31 | 3.7 to 3.11 releases get the 3.8 mapper; 3.12 and later, pre-releases included, get the 3.12 mapper; older versions and 3.7 to 3.11 pre-releases get none |
| PythonInitialState.NoStateWitnesses | pkg/python/initialstate.go:29-31 | 2.7.15, 3.3.7, 3.6.6 and 3.11.0-rc1 get no initial-state mapper |
| PythonInitialState.PreReleaseState | pkg/python/initialstate.go:18 | a 3.13 pre-release gets the 3.12 mapper, since ">=3.12.0-0" admits pre-releases |
| PythonInitialState.DataMapForInitialState | pkg/python/initialstate.go:21-32 | an unparsable version is the MustParse panic; otherwise the mapper, or nil, is the one the version's range selects |
| PythonInitialState.State312NoCurrent | pkg/python/initialstate.go:81-99 | the 3.12 mapper has no current-thread-state field, and its record says -1 there |
| PythonInitialState.CopiedState | pkg/python/initialstate.go:81-121 | both mappers copy the interpreter head and the auto TSS key from the fields their tags name; the 3.8 mapper also copies the current thread state |
| PythonInitialState.TSSFields | pkg/python/initialstate.go:84-85 | the TSS key is the offset of _Py_tss_t._key and its size is sizeof(_Py_tss_t), in both mappers |
| PythonInitialState.TwoLevelFirstRejected | pkg/datamap/datamap.go:148-154 | New rejects a struct whose first offsetof tag names a member two levels deep |
| PythonInitialState.NewRejectsState | pkg/python/initialstate.go:82 | both initial-state mappers are rejected by datamap.New, because their first tag "_PyRuntimeState.interpreters.head" has two dots |
| PythonInitialState.WithVersion | pkg/python/initialstate.go:39-53 | an unparsable version is an error naming it; otherwise the state is kept and the version is the parsed major, minor and patch |
| PythonInitialState.WithVersionOfFormat | pkg/python/initialstate.go:39-53 | a rendered version comes back as its own major, minor and patch |
| PythonDatamap.ConstraintMeaning | pkg/python/datamap.go:15-22 | what each mapper's constraint admits: 2.7, 3.3 to 3.9, 3.10, 3.11 and 3.12 releases, and for ">=3.13.x-0" every version from 3.13 on, pre-releases included |
| PythonDatamap.ConstraintsDisjoint | pkg/python/datamap.go:15-22 | no version satisfies two of the six constraints, so Go's map iteration order cannot change the mapper |
| PythonDatamap.FirstMatch | pkg/python/datamap.go:25-30 | the loop returns a mapper whose constraint admits the version, and nil only when none does |
| PythonDatamap.DispatchUnique | pkg/python/datamap.go:12-31 | a parsable version gets mapper m exactly when m's constraint admits it, and nil exactly when no constraint does |
| PythonDatamap.DispatchGaps | pkg/python/datamap.go:15-30 | 3.0 to 3.2 get no mapper; 3.13 and later, and later majors, get the 3.13 mapper |
| PythonDatamap.OldSentinels | pkg/python/datamap.go:54-235 | up to 3.10 the native thread id, the cframe and the main interpreter are -1 and the current frame is 0, while the frame, line number, thread list head and code are copied from their tags' offsets |
| PythonDatamap.StringSize | pkg/python/datamap.go:33-235 | the string size is extracted for 2.7 (PyStringObject.ob_size) and 3.3 to 3.9 (PyVarObject.ob_size) and is -1 afterwards; the string data is ob_sval's offset in 2.7 and sizeof(PyASCIIObject) later |
| PythonDatamap.ModernSums | pkg/python/datamap.go:261-306 | from 3.11 the thread list head and the main interpreter are each the sum of two extracted offsets, and the native thread id is extracted |
| PythonDatamap.ModernNoFrame | pkg/python/datamap.go:276-293 | from 3.11 the thread state's frame and the frame's line number are -1 |
| PythonDatamap.CFrameRules | pkg/python/datamap.go:237-446 | 3.11 extracts the cframe and its current frame; 3.12 extracts the cframe and sets the current frame to 0; 3.13 has no cframe, reads the current frame from the thread state and the code from f_executable |
| PythonDatamap.CopiedFields | pkg/python/datamap.go:33-446 | every mapper copies ob_type and tp_name from the offsets its tags name |
| PythonDatamap.CopiedThreadFields | pkg/python/datamap.go:33-446 | every mapper copies the thread state's interp, next and thread_id from the offsets its tags name |
| PythonDatamap.CopiedFrameFields | pkg/python/datamap.go:33-446 | every mapper copies the frame's back link and locals, from PyFrameObject up to 3.10 and from _PyInterpreterFrame afterwards |
| PythonDatamap.CopiedCodeFields | pkg/python/datamap.go:33-446 | every mapper copies the code object's file name, name, variable names and first line, and the tuple items; 3.11 reads co_localsplusnames for the variable names |
| PythonDatamap.DataMapForLayout | pkg/python/datamap.go:12-31 | an unparsable version is MustParse's panic; otherwise the mapper returned admits the version, and nil is returned only when no mapper in the table admits it |
| OpenJdk.HasMapperMeaning | pkg/java/openjdk/datamap.go:26 | the constraint ">=17.0.0-0" admits a valid version exactly when its major number is at least 17, pre-releases included |
| OpenJdk.DataMapForLayout | pkg/java/openjdk/datamap.go:24-35 | an unparsable version panics (MustParse); a parsable one gets the openjdk mapper exactly when its major is at least 17, and nil otherwise |
| OpenJdk.LayoutCopies | pkg/java/openjdk/datamap.go:124-209 | every mapper field is copied, unchanged, into the java.Layout field of the same name |
| OpenJdk.BlobSizesZero | pkg/java/openjdk/datamap.go:110-113 | BufferBlobSize, SingletonBlobSize, RuntimeStubSize and SafepointBlobSize are never set and stay 0 |
| OpenJdk.LayoutFields | pkg/java/layout.go:24-109 | the Layout result has exactly the fields java.Layout declares, no more and no fewer |
| OpenJdk.LayoutOrder | pkg/java/openjdk/datamap.go:37-122 | the mapper fields, in declaration order, are the java.Layout fields in their order with the four commented-out blob sizes removed |
| OpenJdk.TagsOneLevel | pkg/java/openjdk/datamap.go:38-121 | an offsetof tag splits at its one dot into exactly its struct and its member, and a sizeof tag has no dot |
| OpenJdk.OffStepOk | pkg/datamap/datamap.go:148-157 | a field tagged offsetof:"S.m" with identifier parts passes New's one-level rule |
| OpenJdk.SizeStepRejected | pkg/datamap/datamap.go:178-181 | a uint64 field tagged sizeof is rejected, because New accepts only int64 sizeof fields |
| OpenJdk.RejectedAtFourth | pkg/datamap/datamap.go:124-181 | a struct whose first three fields are offsets and whose fourth is a uint64 sizeof field fails in New with the size-kind error |
| OpenJdk.NewRejectsOpenJdk | pkg/java/openjdk/datamap.go:38-42 | New rejects the openjdk mapper at HeapWordSize, its first sizeof field, which is a uint64 |
| StructLayout.SanitizeIdentifier | cmd/structlayout/structlayout.go:210-213 | the result has no dot: it is the identifier with one leading 'v' dropped and every '.' replaced by '_', character by character |
| StructLayout.SanitizeIgnoresV | cmd/structlayout/structlayout.go:212 | a leading 'v' does not change the sanitized name |
| StructLayout.SanitizeCollisions | cmd/structlayout/structlayout.go:212 | "v3.9.5", "3.9.5" and "3_9_5" all sanitize to the same name, "3_9_5" |
| StructLayout.SanitizeTriple | cmd/structlayout/structlayout.go:212 | a plain "maj.min.patch" version sanitizes to "maj_min_patch" |
| StructLayout.SanitizedTriplesDistinct | cmd/structlayout/structlayout.go:212 | two "maj.min.patch" versions with the same sanitized name have the same major, minor and patch |
| StructLayout.IsNil | cmd/structlayout/structlayout.go:231-241 | the untyped nil is nil; a value of a nilable kind (chan, func, map, pointer, unsafe pointer, interface, slice) is nil exactly when it is a nil of that kind; any other value is not nil |
| StructLayout.IsNilArg | cmd/structlayout/structlayout.go:107 | isNil on the initial-state map holds exactly when the map is the nil argument |
| StructLayout.ExitCode | cmd/structlayout/structlayout.go:48-117 | the process exits with status 0 exactly when the run wrote its files |
| StructLayout.Run | cmd/structlayout/structlayout.go:52-117 | main's outcome is the Behaviour specification of argument count, runtime, version, output directory and step outcomes |
| StructLayout.Process | cmd/structlayout/structlayout.go:91-117 | the second half of main gives the Processed outcome: the DWARF data, the layout file, then the initial-state file unless its map is nil |
| StructLayout.WrittenNeedsMapper | cmd/structlayout/structlayout.go:62-98 | libc always stops at "unknown version"; a run that writes anything had at least four arguments, readable DWARF data and a Python or Ruby mapper for the version |
| StructLayout.WrittenIsLayoutOnly | cmd/structlayout/structlayout.go:100-117 | a successful run writes exactly one file, dir/layout/<runtime>_<sanitized version>.yaml, because New rejects every Python initial-state mapper |
| StructLayout.PythonStateRejected | cmd/structlayout/structlayout.go:112-116 | with a Python initial-state mapper and the layout written, main fails on the initial-state file with New's invalid-offset-tag error for "_PyRuntimeState.interpreters.head" |
| StructLayout.StateSkippedIffNoMapper | cmd/structlayout/structlayout.go:107-110 | the initial-state step is skipped exactly when the runtime is not Python or Python has no initial-state mapper for the version |
| StructLayout.OutputsDistinct | cmd/structlayout/structlayout.go:100-112 | the layout file and the initial-state file of one run are different paths |
| StructLayout.TripleOutputsDistinct | cmd/structlayout/structlayout.go:100 | two "maj.min.patch" versions of one runtime that get the same output path are the same version |
| Packages.Pkg.constructor | cmd/apkdownload/apkdownload.go:125-133 | a listed package starts with no downloaded archive |
| Packages.TargetDirDistinguishes | cmd/apkdownload/apkdownload.go:323-330 | two packages that get the same extraction directory out/arch/maj.min.patch/variant have the same architecture, major, minor, patch and variant, with "main" standing for no variant |
| Packages.FirstFailure | cmd/apkdownload/apkdownload.go:252-299 | the index of the first package whose transfer fails while its archive is not on disk, where on disk means present before the loop or the archive path of an earlier package; every package before it succeeds, and it fails unless it is past the end |
| Packages.Transfers | cmd/apkdownload/apkdownload.go:262-298 | the links fetched, one for each package whose archive is on disk neither from before the loop nor from an earlier package, in order: at most one per package, each the link of one of the packages |
| Packages.DownloadOne | cmd/apkdownload/apkdownload.go:253-298 | one iteration fails exactly when the archive is neither present before the loop nor written by an earlier iteration and its transfer fails; otherwise it records the target as the downloaded archive and fetches the link only if the archive was not on disk |
| Packages.DownloadAt | cmd/apkdownload/apkdownload.go:252-299 | iteration i, reached only when every earlier package succeeded and given the archives those packages wrote, stops the loop exactly when i is the first failure, and otherwise extends the transfers and the archives on disk and records package i's archive |
| Packages.Download | cmd/apkdownload/apkdownload.go:249-301 | download succeeds exactly when no package fails, counting an archive written by an earlier iteration as on disk; the packages before the first failure record their target as downloaded archive, the others keep theirs, and the links fetched are those of the archives not yet on disk before the failure |
| Packages.LaterSameTargetReused | cmd/debdownload/debdownload.go:207-219 | a package whose archive path an earlier package already recorded never fails and adds no transfer, because os.Stat finds the file the earlier iteration left |
| ApkDownload.ConvertArch | cmd/apkdownload/apkdownload.go:406-414 | the name changes exactly for amd64 and arm64 (to x86_64 and aarch64); every other architecture is kept |
| ApkDownload.ConvertArchInjective | cmd/apkdownload/apkdownload.go:406-414 | two architectures that are not already Alpine names never get the same directory |
| ApkDownload.ShortVersionInjective | cmd/apkdownload/apkdownload.go:245-247 | versions with the same short "major.minor" agree on major and minor |
| ApkDownload.UrlJoin | cmd/apkdownload/apkdownload.go:153 | the joined URL starts with the base and ends with the element |
| ApkDownload.ReadGzipHeader | cmd/apkdownload/apkdownload.go:398-404 | it panics exactly on a buffer too short to decide (empty, 1f, or 1f 8b), and otherwise reports whether the buffer starts with 1f 8b 08 |
| ApkDownload.MagicOffsetsExact | cmd/apkdownload/apkdownload.go:341-347 | the collected offsets are every offset below the bound where a gzip header starts, and nothing else, strictly ascending |
| ApkDownload.MagicOffsetsPrefix | cmd/apkdownload/apkdownload.go:341-348 | the headers before the i-th one are exactly the first i, so offsets[2] is the header preceded by exactly two others |
| ApkDownload.GzipOffsets | cmd/apkdownload/apkdownload.go:341-347 | the scan as written panics exactly when the archive ends in 1f or 1f 8b, and otherwise returns every header offset in ascending order |
| ApkDownload.GzipOffsetsFixed | cmd/apkdownload/apkdownload.go:341-347 | the scan with the length checked never panics and returns every header offset in ascending order |
| ApkDownload.TrailingHeaderByte | cmd/apkdownload/apkdownload.go:343-347 | an archive holding three gzip headers whose last byte is 1f makes the scan as written panic |
| ApkDownload.Candidate | cmd/apkdownload/apkdownload.go:197-222 | a link yields the MustParse panic exactly when it matches and its version, with '~' read as '+', does not parse; a package it yields has the name, the architecture, the joined link, an allowed or empty variant and a version the constraint admits |
| ApkDownload.PageCandidates | cmd/apkdownload/apkdownload.go:195-240 | every package of a page is admitted: its name, one of the architectures and an allowed or empty variant |
| ApkDownload.AllCandidates | cmd/apkdownload/apkdownload.go:152-241 | every package over all architectures is admitted in the same sense |
| ApkDownload.CandidateShape | cmd/apkdownload/apkdownload.go:197-222 | a link gives a package exactly when it matches, its version with '~' replaced by '+' parses, the constraint admits that version and the variant without its leading '-' is empty or allowed; the package is the joined link, the listed name and architecture, that variant and that parsed version |
| ApkDownload.GatherFails | cmd/apkdownload/apkdownload.go:195-240 | link results gathered in document order fail exactly when one link's result is a panic |
| ApkDownload.GatherMembers | cmd/apkdownload/apkdownload.go:195-240 | gathered link results that do not fail hold exactly the packages the links give |
| ApkDownload.PageIsGather | cmd/apkdownload/apkdownload.go:195-240 | a page's packages are its links' candidates gathered in document order |
| ApkDownload.PageComplete | cmd/apkdownload/apkdownload.go:195-240 | both of the above: the page's packages are exactly its links' packages, and it fails exactly on a panicking link |
| ApkDownload.ConcatFails | cmd/apkdownload/apkdownload.go:152-183 | results concatenated over the architectures fail exactly when one of them fails |
| ApkDownload.ConcatMembers | cmd/apkdownload/apkdownload.go:152-183 | concatenated results hold exactly the members of every architecture's result |
| ApkDownload.AllIsConcat | cmd/apkdownload/apkdownload.go:152-241 | the listing over all architectures is the in-order concatenation of the architectures' pages |
| ApkDownload.AllComplete | cmd/apkdownload/apkdownload.go:152-241 | the listing fails exactly when one architecture's page fails, and otherwise holds exactly the packages of every page |
| ApkDownload.PageError | cmd/apkdownload/apkdownload.go:200-201 | a panic among the first n links of a page is the outcome of the whole page |
| ApkDownload.AllCandidatesPrefixError | cmd/apkdownload/apkdownload.go:152-183 | an error on one of the first n architectures is the error of the whole listing |
| ApkDownload.SameKey | cmd/apkdownload/apkdownload.go:191-193 | packages that agree on name, variant, major.minor and architecture share a key |
| ApkDownload.InsertReplacesOnlyByGreater | cmd/apkdownload/apkdownload.go:223-231 | inserting a package adds its key and touches no other; the stored package changes only to the new one, and only when the key was new or its version is strictly greater |
| ApkDownload.KeysConsistent | cmd/apkdownload/apkdownload.go:223-231 | every key of the table is the key of the package stored under it |
| ApkDownload.StoredAreCandidates | cmd/apkdownload/apkdownload.go:223-231 | every stored package is one of the candidates |
| ApkDownload.CandidatesKeyed | cmd/apkdownload/apkdownload.go:223-231 | every candidate's key is in the table: packages are superseded, never lost |
| ApkDownload.OnePerKey | cmd/apkdownload/apkdownload.go:191-231 | the table holds at most one package per name, variant, major.minor and architecture |
| ApkDownload.InsertAllAppend | cmd/apkdownload/apkdownload.go:152-241 | filling the table with a then b is filling it with a + b |
| ApkDownload.ListTable | cmd/apkdownload/apkdownload.go:151-241 | the loops over architectures and pages fill the table with all candidates inserted in order, or return the first error |
| ApkDownload.ScanPage | cmd/apkdownload/apkdownload.go:195-240 | the walk over one page inserts its candidates in document order, or stops at the first panic |
| ApkDownload.List | cmd/apkdownload/apkdownload.go:150-243 | list fails exactly when the listing fails, with its error; otherwise it returns each value of the filled table exactly once |
| ApkDownload.Enumerate | cmd/apkdownload/apkdownload.go:242 | the table's values, each exactly once, in some order |
| ApkDownload.ArchivesAreApk | cmd/apkdownload/apkdownload.go:257-261 | every archive download records ends in ".apk", so extract never skips it for its suffix |
| ApkDownload.ExtractSound | cmd/apkdownload/apkdownload.go:303-348 | every extraction job is for an .apk archive of one of the packages, in a target directory that neither existed before the loop nor was unpacked into by an earlier package, and starts at a gzip header preceded by exactly two others |
| ApkDownload.ExtractComplete | cmd/apkdownload/apkdownload.go:306-348 | when extract succeeds, each .apk archive gets a job when its target directory neither existed before the loop nor was unpacked into by an earlier package |
| ApkDownload.ExtractAllLast | cmd/apkdownload/apkdownload.go:306-387 | a successful extract is that of all but the last package followed by the last one's job, if any |
| ApkDownload.ExtractGrows | cmd/apkdownload/apkdownload.go:306-387 | extracting more of the packages only appends jobs to those of fewer |
| ApkDownload.UnpackedOnce | cmd/apkdownload/apkdownload.go:326-334 | once a package has a job for a directory, a later package with the same directory gets none; at most its archive fails to open, which is checked first |
| ApkDownload.Downloads | cmd/apkdownload/apkdownload.go:306-315 | extract reads each package with the archive download recorded for it, in order |
| ApkDownload.Extract | cmd/apkdownload/apkdownload.go:303-389 | extract gives one job per package it would unpack, in order, or the first error, as ExtractAll specifies, keeping the directories it has unpacked into for the later packages' existence checks (with the corrected header scan; see Left out) |
| ApkDownload.ExtractPackage | cmd/apkdownload/apkdownload.go:306-348 | one iteration skips archives that are unset or not .apk and directories that existed before the loop or were unpacked into earlier, fails on open, read or fewer than three headers, and otherwise starts at the third header, found by the corrected scan (see Left out) |
| DebDownload.UrlJoin | cmd/debdownload/debdownload.go:183 | the joined URL starts with the page URL and ends with the link |
| DebDownload.CandidateShape | cmd/debdownload/debdownload.go:172-188 | a link panics exactly when it matches and its version does not parse; it gives a package exactly when it matches, its version parses and the constraint admits it; the package carries the captured name, architecture, version, the variant without its leading '-' and the joined link |
| DebDownload.Candidates | cmd/debdownload/debdownload.go:166-197 | at most one package per link |
| DebDownload.CandidatesAppend | cmd/debdownload/debdownload.go:166-197 | no reordering and no dedup: the packages of two runs of links are those of the first run followed by those of the second |
| DebDownload.CandidatesFromLinks | cmd/debdownload/debdownload.go:172-188 | every package comes from a matching link, with that link joined to the page URL and the captured name and architecture |
| DebDownload.CandidatesPrefixError | cmd/debdownload/debdownload.go:173 | a panic among the first n links is the outcome of the whole page |
| DebDownload.Collect | cmd/debdownload/debdownload.go:166-197 | the walk appends a package for each matching admitted link in document order, stopping at the first panic |
| DebDownload.List | cmd/debdownload/debdownload.go:135-199 | a failed fetch of the index page is list's error; otherwise list returns the packages of the page's links |
| DebDownload.ArchivesAreDeb | cmd/debdownload/debdownload.go:208-214 | every archive download records ends in ".deb", so extract never skips it for its suffix |
| DebDownload.ArchiveNameIgnoresPrerelease | cmd/debdownload/debdownload.go:208-214 | packages that differ only in pre-release or build metadata share one archive file name |
| DebDownload.SameTripleDownloadedOnce | cmd/debdownload/debdownload.go:207-219 | two listed revisions with one name, variant, architecture and maj.min.patch: download succeeds over both and transfers at most the first link, whether or not the second link could be fetched |
| DebDownload.DataIndicesExact | cmd/debdownload/debdownload.go:287-298 | the selected ar members are exactly those named data.tar.xz, in ascending order |
| DebDownload.SelectMembers | cmd/debdownload/debdownload.go:287-298 | the member loop selects the data.tar.xz members, as DataIndices specifies |
| DebDownload.JobsAt | cmd/debdownload/debdownload.go:296-343 | one unpack job per selected member, in order, into the package's directory |
| DebDownload.ExtractSound | cmd/debdownload/debdownload.go:253-346 | every unpack job is a data.tar.xz member of a .deb archive of one of the packages, unpacked into a directory that neither existed before the loop nor was unpacked into by an earlier package |
| DebDownload.ExtractComplete | cmd/debdownload/debdownload.go:256-343 | when extract succeeds, every data.tar.xz member of every .deb archive gets a job when its directory neither existed before the loop nor was unpacked into by an earlier package |
| DebDownload.ExtractAllLast | cmd/debdownload/debdownload.go:256-344 | a successful extract is that of all but the last package followed by the last one's jobs |
| DebDownload.ExtractGrows | cmd/debdownload/debdownload.go:256-344 | extracting more of the packages only appends jobs to those of fewer |
| DebDownload.UnpackedOnce | cmd/debdownload/debdownload.go:276-284 | once a package has unpacked into a directory, a later package with the same directory (another revision of the same triple) gets no job; at most its archive fails to open, which is checked first |
| DebDownload.Downloads | cmd/debdownload/debdownload.go:256-265 | extract reads each package with the archive download recorded for it, in order |
| DebDownload.Extract | cmd/debdownload/debdownload.go:253-346 | extract gives the unpack jobs of all packages in order, or the first error, as ExtractAll specifies, keeping the directories it has unpacked into for the later packages' existence checks |
| DebDownload.ExtractPackage | cmd/debdownload/debdownload.go:257-343 | one iteration skips archives that are unset or not .deb and directories that existed before the loop or were unpacked into earlier, fails on open or read, and otherwise selects the data.tar.xz members |
| DebugInfoFind.Uint32OfPut | cmd/debuginfofind/debuginfofind.go:186 | reading back the four bytes that store n in either byte order gives n |
| DebugInfoFind.ReadDebuglink | cmd/debuginfofind/debuginfofind.go:174-193 | a missing section, and only that, is "section not found"; unreadable data is passed on; "invalid checksum length" exactly when the piece after the last zero byte is not four bytes long, and "invalid checksum" exactly when it is four bytes reading as zero; a success has as name the bytes before the first zero and as checksum that piece read in the file's byte order |
| DebugInfoFind.Padding | cmd/debuginfofind/debuginfofind.go:123 | zero to three zero bytes that bring the length to a multiple of four |
| DebugInfoFind.ReadOfSection | cmd/debuginfofind/debuginfofind.go:174-193 | on a section laid out as name, zero, padding and a checksum without zero bytes, readDebuglink recovers the name and the checksum |
| DebugInfoFind.ZeroInChecksumRejected | cmd/debuginfofind/debuginfofind.go:180-185 | when one of the checksum's stored bytes is zero, the piece after the last zero is shorter than four bytes and readDebuglink fails with "invalid checksum length" |
| DebugInfoFind.ChecksumWithZeroByte | cmd/debuginfofind/debuginfofind.go:180-185 | "ls" with checksum 0x100, stored little-endian as 00 01 00 00, is rejected |
| DebugInfoFind.ReadDebuglinkFixed | cmd/debuginfofind/debuginfofind.go:174-193 | the corrected reading keeps every guarantee of readDebuglink: "section not found" exactly for a missing section, a zero-free name prefix, a non-zero checksum below 2^32 |
| DebugInfoFind.ReadFixedOfSection | cmd/debuginfofind/debuginfofind.go:120-124 | the corrected reading recovers every name and every non-zero checksum from a well-formed section |
| DebugInfoFind.Chars | cmd/debuginfofind/debuginfofind.go:181 | one character per byte |
| DebugInfoFind.DebugFilePathShape | cmd/debuginfofind/debuginfofind.go:200-208 | the debug file path ends in the chosen extension: the name's own, or ".debug" for a name without one, which is then kept whole |
| DebugInfoFind.Candidates | cmd/debuginfofind/debuginfofind.go:216-222 | five candidates per debug directory |
| DebugInfoFind.PathsFor | cmd/debuginfofind/debuginfofind.go:210-224 | five candidates per debug directory, or none at all when filepath.Rel fails |
| DebugInfoFind.PathsForSnoc | cmd/debuginfofind/debuginfofind.go:211-223 | one more directory appends its five candidates, or nothing when filepath.Rel fails |
| DebugInfoFind.GeneratePaths | cmd/debuginfofind/debuginfofind.go:199-225 | generatePaths returns the candidates PathsFor specifies |
| DebugInfoFind.CandidatesOfDirs | cmd/debuginfofind/debuginfofind.go:210-224 | the loop over the debug directories appends their candidates in order |
| DebugInfoFind.DefaultCandidates | cmd/debuginfofind/debuginfofind.go:195-224 | for /usr/lib/debug the candidates are, in order: the debug file beside the target, the same name under ".debug", the mirror under root/usr/lib/debug, the build-ID file split after two characters with ".debug" appended, and root/usr/lib/debug/<build ID>/debuginfo |
| DebugInfoFind.FirstExisting | cmd/debuginfofind/debuginfofind.go:142-152 | the first candidate at or after k that exists: every candidate before it is missing, and none is found only when all are missing |
| DebugInfoFind.FirstFound | cmd/debuginfofind/debuginfofind.go:142-156 | a found path is a candidate that exists; nothing is found only when no candidate exists |
| DebugInfoFind.FirstPresent | cmd/debuginfofind/debuginfofind.go:142-152 | find's loop returns the first existing candidate, or "" when there is none |
| DebugInfoFind.Find | cmd/debuginfofind/debuginfofind.go:90-172 | a build ID shorter than two characters and an unreadable ELF file are errors; no candidates, or none existing, is an error; the first existing candidate is returned when it is a build-ID or debuginfo file, when there is no checksum, or when its CRC-32 matches; otherwise find fails |
| DebugInfoFind.CandidatesNonEmpty | cmd/debuginfofind/debuginfofind.go:154 | no candidate is the empty path, so "" marks that nothing was found |
| DebugInfoFind.BuildIdFileSkipsChecksum | cmd/debuginfofind/debuginfofind.go:158 | the build-ID candidate and the debuginfo candidate are accepted without their checksum being read |
| MergeLayout.Convert | cmd/mergelayout/mergelayout.go:170-172 | the converted version keeps major, minor and patch and has no pre-release and no metadata |
| MergeLayout.LessIsBefore | cmd/mergelayout/mergelayout.go:102-104 | the sort order on converted versions is the lexicographic order on (major, minor, patch), and converted versions compare equal exactly when the versions are equal |
| MergeLayout.OutputPathForm | cmd/mergelayout/mergelayout.go:152 | each range is written to "<range>.yaml" inside the output directory, so different ranges get different files |
| MergeLayout.CollectLayouts | cmd/mergelayout/mergelayout.go:84-98 | the read loop gives the Collected map, or the first read error |
| MergeLayout.LaterFileWins | cmd/mergelayout/mergelayout.go:84-98 | reading succeeds exactly when every file reads; the versions are then exactly those of the files, and each maps to the data of the last file with that version |
| MergeLayout.SortVersions | cmd/mergelayout/mergelayout.go:101-104 | the versions end up sorted in ascending order and are a permutation of the ones given |
| MergeLayout.InsertLast | cmd/mergelayout/mergelayout.go:102-104 | one insertion step extends the sorted prefix by one element and keeps the elements |
| MergeLayout.SortedDistinct | cmd/mergelayout/mergelayout.go:101-104 | map keys sorted by the version order are strictly ascending |
| MergeLayout.RunsSpec | cmd/mergelayout/mergelayout.go:126-149 | the runs tile the versions in order, every version of a run has the run's layout, and adjacent runs have different layouts |
| MergeLayout.RunOfPosition | cmd/mergelayout/mergelayout.go:126-149 | every version lies in exactly one run |
| MergeLayout.Entries | cmd/mergelayout/mergelayout.go:111-124 | one (range key, layout) pair per run, in order |
| MergeLayout.KeyForm | cmd/mergelayout/mergelayout.go:113-117 | a range key starts with '=' exactly when its lower and upper versions are equal |
| MergeLayout.RangeKeyLower | cmd/mergelayout/mergelayout.go:113-117 | a range key determines its lower bound |
| MergeLayout.SpanKeysDistinct | cmd/mergelayout/mergelayout.go:111-149 | over strictly ascending versions, different runs get different range keys |
| MergeLayout.AssignHolds | cmd/mergelayout/mergelayout.go:123 | with distinct keys, every stored pair is in the output map |
| MergeLayout.AssignOnly | cmd/mergelayout/mergelayout.go:123 | every key of the output map comes from a stored pair |
| MergeLayout.RangeKeyShape | cmd/mergelayout/mergelayout.go:113-117 | the key is "= v" exactly for a single version, otherwise "min - max" |
| MergeLayout.MergedSpec | cmd/mergelayout/mergelayout.go:106-149 | over strictly ascending versions, the output has one entry per run, keyed "= v" for a run of one version and "min - max" otherwise, whose value is the layout of every version of the run, and no other entry |
| MergeLayout.RunsInRanges | cmd/mergelayout/mergelayout.go:111-149 | every run's key is in the output with the run's layout |
| MergeLayout.RangesFromRuns | cmd/mergelayout/mergelayout.go:111-149 | every key of the output is the key of a run |
| MergeLayout.GroupRanges | cmd/mergelayout/mergelayout.go:106-149 | the loop over the sorted versions leaves outputData equal to the Merged specification |
| MergeLayout.BeforeTotal | cmd/mergelayout/mergelayout.go:102-104 | the version order is a strict total order |
| MergeLayout.SortedOf | cmd/mergelayout/mergelayout.go:101-104 | the versions of a set in strictly ascending order, each once |
| MergeLayout.AscendingUnique | cmd/mergelayout/mergelayout.go:101-104 | at most one strictly ascending sequence holds a given set of versions |
| MergeLayout.SortKeys | cmd/mergelayout/mergelayout.go:101-104 | maps.Keys followed by sort.Slice gives the map's versions in ascending order |
| MergeLayout.KeysArray | cmd/mergelayout/mergelayout.go:101 | maps.Keys gives every version of the set exactly once |
| MergeLayout.MergeLayoutFiles | cmd/mergelayout/mergelayout.go:82-149 | mergeLayoutFiles, without the writing, gives MergeSpec: the read error, the nil-version panic, or the merged ranges of the sorted versions |
| MergeLayout.NoVersionsOnlyWhenEmpty | cmd/mergelayout/mergelayout.go:149 | the final addVersionRange dereferences a nil version exactly when there are no input files |
| MergeLayout.MergeExample | cmd/mergelayout/mergelayout.go:106-149 | 3.10.0 and 3.10.1 with one layout and 3.11.0 with another merge to "3.10.0 - 3.10.1" and "= 3.11.0" |
| MergeLayout.ExampleRuns | cmd/mergelayout/mergelayout.go:126-145 | the example's versions form the runs [0, 2) and [2, 3) |
| MergeLayout.SelectInputs | cmd/mergelayout/mergelayout.go:39-69 | without arguments main prints the usage, flags without a file are an error, one argument is a glob that must match a file, and several arguments are the files themselves; success always gives at least one file |
| MergeLayout.OutputDir | cmd/mergelayout/mergelayout.go:71-73 | the output directory is the flag, or "." when the flag is empty |

## Left out

- HTTP requests and responses, HTML link extraction and regular-expression matching in the downloaders are parameters: the model receives a page's links and whether each name matches.
- The semver constraint grammar is modelled only for the forms the core writes (`M.m.x`, `A.B.x - C.D.x`, `>=v`, `= v`, `lo - hi`). In the table packages semver.NewConstraint is a parameter that parses a file name or fails.
- Panics (semver.MustParse on an unparsable version, `panic(err)` in the commands) are modelled as error outcomes, not as process aborts.
- The mustConstraint panic on an unparsable `-constraint` flag (cmd/apkdownload/apkdownload.go:423, cmd/debdownload/debdownload.go:355) is not modelled: the parsed constraint is the `admits` parameter.
- Go's `%w` error wrapping is flattened: each error is a plain constructor carrying its data, without the wrapped chain or message text.
- url.JoinPath's escaping and path cleaning and filepath.Clean/Join are modelled as concatenation with one separator; the model assumes clean inputs, which the user-supplied output directory of cmd/structlayout and cmd/mergelayout need not be.
- gzip, tar, xz and ar decompression and the writing of extracted files are left out: extraction is modelled as the list of (member, destination) jobs it performs.
- DebDownload.Extract and ApkDownload.Extract assume that a job creates its target directory, so a later os.Stat of that directory finds it. This holds when the unpacked tar starts with a directory entry, as package data archives do. What the tar holds is not modelled.
- Flag parsing and logging in the commands are left out; the parsed values are parameters.
- CRC-32 and file-system queries (os.Stat, reading a file, filepath.Rel) in cmd/debuginfofind are parameters.
- sort.Slice in cmd/mergelayout is modelled as an insertion sort on an array; only the resulting order, which the comparison fixes for distinct versions, is claimed.
- Go map iteration order is not modelled beyond "some order without repetition" or insertion order (see above).
- symbols.FindSymbol and the ELF and DWARF readers are left out; their answers are parameters of ReadFromDWARF.
- The layouts' `Data()` serialisers, YAML encoding and decoding, and convertToMapOfAny are left out; a layout is compared and stored as an abstract value.
- ruby.DataMapForLayout (pkg/ruby/datamap.go) is not part of this model.
- MergeLayout.MergeLayoutFiles: reflect.DeepEqual is modelled as `==` on the abstract layout value, so a nil map and an empty map count as equal.
- Decimal.IsNumeric: strconv's 64-bit overflow error is not modelled; every digit string parses.
- StructLayout.Run: the output file writes and directory creation are parameters that succeed or fail, not modelled file contents.
- MergeLayout.OutputDir: only the output path is modelled; the writing of the merged YAML file is left out.
- Dwarf.Target.Set: never fails. The source checks the error of Extractor.Set and returns it (pkg/datamap/dwarf.go:87-88, 97-98, 113-114) or panics on it (138-139), but Extractor.Set is not defined in pkg/datamap/datamap.go, so when it would fail is unknown; ExtractorStepPlain, ExtractPlain and ExtractWrites fail exactly when a field is missing only under this assumption.
- ApkDownload.ExtractPackage: uses the corrected header scan ApkDownload.GzipOffsetsFixed, so on an archive ending in 1f or 1f 8b it returns a job or TooFewHeaders where the source panics (cmd/apkdownload/apkdownload.go:343-347, 398-404; see Findings). ApkDownload.ExtractOne and ApkDownload.Extract inherit this.
- DebugInfoFind.Find: the outcome of readDebuglink is a parameter, so Find is proved for either reading (DebugInfoFind.ReadDebuglink as written or DebugInfoFind.ReadDebuglinkFixed).

## Findings

| source | as written | input that shows it | evidently intended | confidence | as-written member | corrected member |
|---|---|---|---|---|---|---|
| cmd/debuginfofind/debuginfofind.go:180-186 | the checksum is the piece after the last zero byte of the .gnu_debuglink section, so a CRC-32 with a zero byte yields a piece shorter than four bytes and is rejected (DebugInfoFind.ReadDebuglink; the fix is DebugInfoFind.ReadDebuglinkFixed) | the section for "ls" with CRC 0x100, stored little-endian as 00 01 00 00 | the checksum is the last four bytes of the section, whatever their values | not executed | DebugInfoFind.ChecksumWithZeroByte | DebugInfoFind.ReadFixedOfSection |
| cmd/apkdownload/apkdownload.go:343-347 | readGZIPHeader (lines 398-404) reads buf[1] and buf[2] without checking the slice's length, so an archive ending in 1f or 1f 8b makes the scan index past the end and panic (ApkDownload.GzipOffsets; ApkDownload.ExtractPackage uses the fixed scan) | bytes 1f 8b 08 1f 8b 08 1f 8b 08 1f | headers are matched only where three bytes remain | not executed | ApkDownload.TrailingHeaderByte | ApkDownload.GzipOffsetsFixed |
