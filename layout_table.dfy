/**
 * The embedded layout tables shared by the python, ruby, glibc and musl
 * packages: a directory of YAML files, one per version constraint, whose file
 * name without its extension is the constraint. Reading a file, decoding its
 * YAML and parsing its constraint are parameters of the model (Env); the
 * directory is a sequence of entries in ReadDir order.
 */
module LayoutTable {
  import opened Wrappers
  import Strs
  import Semver

  /** runtimedata.Key (and glibc's own copy of it). */
  datatype Key = Key(index: nat, constraint: string)

  /** A directory entry; data is None when ReadFile on it fails. */
  datatype DirEntry<P> = DirEntry(name: string, isDir: bool, data: Option<P>)

  /** yaml.Unmarshal, semver.NewConstraint and Constraints.String. */
  datatype Env<-P, L> = Env(
    unmarshal: P -> Option<L>,
    parse: string -> Option<Semver.Constraint>,
    render: Semver.Constraint -> string)

  datatype LoadError =
    | DirUnreadable
    | ReadFailed(name: string)
    | UnmarshalFailed(name: string)
    | BadConstraint(raw: string)
    | BadKey(key: Key)
    | NotFound

  datatype Found<L> = Found(key: Key, layout: L)

  /** Only ".yaml" and ".yml" files hold layouts. */
  predicate IsYaml(name: string) { Strs.Ext(name) == ".yaml" || Strs.Ext(name) == ".yml" }

  function RawConstraint(name: string): string { Strs.TrimSuffix(name, Strs.Ext(name)) }

  /** A regular YAML entry that reads, decodes and names a valid constraint. */
  predicate Usable<P, L>(env: Env<P, L>, e: DirEntry<P>)
  {
    !e.isDir && e.data.Some? && IsYaml(e.name) &&
    env.unmarshal(e.data.value).Some? && env.parse(RawConstraint(e.name)).Some?
  }

  predicate Matches<P, L>(env: Env<P, L>, e: DirEntry<P>, v: Semver.Version)
  {
    Usable(env, e) && Semver.Check(env.parse(RawConstraint(e.name)).value, v)
  }

  /** An entry a search walks past: a directory, a readable non-YAML file, or a usable file that does not match. */
  predicate Passes<P, L>(env: Env<P, L>, e: DirEntry<P>, v: Semver.Version)
  {
    e.isDir || (e.data.Some? && (!IsYaml(e.name) || (Usable(env, e) && !Semver.Check(env.parse(RawConstraint(e.name)).value, v))))
  }

  /** Number of regular YAML entries in es[k..j]. */
  function YamlCount<P>(es: seq<DirEntry<P>>, k: nat, j: nat): nat
    requires k <= j <= |es|
    decreases j - k
  {
    if k == j then 0 else (if !es[k].isDir && IsYaml(es[k].name) then 1 else 0) + YamlCount(es, k + 1, j)
  }

  lemma YamlCountStep<P>(es: seq<DirEntry<P>>, k: nat, j: nat)
    requires k < j <= |es|
    ensures YamlCount(es, k, j) == (if !es[k].isDir && IsYaml(es[k].name) then 1 else 0) + YamlCount(es, k + 1, j)
  {
  }

  // ----- getLayoutForArch / GetInitialStateForArch -----

  /**
   * The search loop from entry k on, with seen YAML entries already passed.
   * counted selects whether the returned key carries that count (python's
   * layouts) or index 0 (everything else).
   */
  function ScanAt<P, L>(env: Env<P, L>, es: seq<DirEntry<P>>, v: Semver.Version, counted: bool, k: nat, seen: nat): Result<Found<L>, LoadError>
    requires k <= |es|
    decreases |es| - k
  {
    if k == |es| then Err(NotFound)
    else
      var e := es[k];
      if e.isDir then ScanAt(env, es, v, counted, k + 1, seen)
      else if e.data.None? then Err(ReadFailed(e.name))
      else if !IsYaml(e.name) then ScanAt(env, es, v, counted, k + 1, seen)
      else match env.unmarshal(e.data.value)
        case None => Err(UnmarshalFailed(e.name))
        case Some(l) =>
          match env.parse(RawConstraint(e.name))
          case None => Err(BadConstraint(RawConstraint(e.name)))
          case Some(c) =>
            if Semver.Check(c, v) then Ok(Found(Key(if counted then seen else 0, env.render(c)), l))
            else ScanAt(env, es, v, counted, k + 1, seen + 1)
  }

  /** The search over a directory that may not be readable. */
  function ForArch<P, L>(env: Env<P, L>, dir: Option<seq<DirEntry<P>>>, v: Semver.Version, counted: bool): Result<Found<L>, LoadError>
  {
    if dir.None? then Err(DirUnreadable) else ScanAt(env, dir.value, v, counted, 0, 0)
  }

  /** The search as the source writes it: a loop over the entries with a counter. */
  method GetLayoutForArch<P, L>(env: Env<P, L>, dir: Option<seq<DirEntry<P>>>, v: Semver.Version, counted: bool)
    returns (r: Result<Found<L>, LoadError>)
    ensures r == ForArch(env, dir, v, counted)
    ensures r.Ok? && !counted ==> r.value.key.index == 0
  {
    if dir.None? { return Err(DirUnreadable); }
    var es := dir.value;
    var i := 0;
    var k := 0;
    while k < |es|
      invariant k <= |es|
      invariant ScanAt(env, es, v, counted, 0, 0) == ScanAt(env, es, v, counted, k, i)
      decreases |es| - k
    {
      var e := es[k];
      if e.isDir { k := k + 1; continue; }
      if e.data.None? { return Err(ReadFailed(e.name)); }
      if !IsYaml(e.name) { k := k + 1; continue; }
      var lyt := env.unmarshal(e.data.value);
      if lyt.None? { return Err(UnmarshalFailed(e.name)); }
      var constr := env.parse(RawConstraint(e.name));
      if constr.None? { return Err(BadConstraint(RawConstraint(e.name))); }
      if Semver.Check(constr.value, v) {
        return Ok(Found(Key(if counted then i else 0, env.render(constr.value)), lyt.value));
      }
      i := i + 1;
      k := k + 1;
    }
    return Err(NotFound);
  }

  /** Index of the first entry from k on that the search does not walk past, or |es|. */
  function FirstStop<P, L>(env: Env<P, L>, es: seq<DirEntry<P>>, v: Semver.Version, k: nat): (j: nat)
    requires k <= |es|
    ensures k <= j <= |es|
    ensures forall m :: k <= m < j ==> Passes(env, es[m], v)
    ensures j < |es| ==> !Passes(env, es[j], v)
    decreases |es| - k
  {
    if k == |es| || !Passes(env, es[k], v) then k else FirstStop(env, es, v, k + 1)
  }

  /** What the search reports at an entry it does not walk past. */
  function StopAt<P, L>(env: Env<P, L>, e: DirEntry<P>, index: nat): Result<Found<L>, LoadError>
  {
    if e.data.None? then Err(ReadFailed(e.name))
    else if env.unmarshal(e.data.value).None? then Err(UnmarshalFailed(e.name))
    else if env.parse(RawConstraint(e.name)).None? then Err(BadConstraint(RawConstraint(e.name)))
    else Ok(Found(Key(index, env.render(env.parse(RawConstraint(e.name)).value)), env.unmarshal(e.data.value).value))
  }

  /**
   * The search result is decided by the first entry it does not walk past:
   * "not found" when there is none, otherwise that entry's read, decode or
   * constraint error, or that entry itself when it matches; python's index is
   * the number of YAML entries before it.
   */
  lemma {:induction false} ScanIsFirstStop<P, L>(env: Env<P, L>, es: seq<DirEntry<P>>, v: Semver.Version, counted: bool, k: nat, seen: nat)
    requires k <= |es|
    ensures ScanAt(env, es, v, counted, k, seen) == StopResult(env, es, v, counted, k, seen)
    decreases |es| - k
  {
    if k < |es| {
      var e := es[k];
      if Passes(env, e, v) {
        var seen' := if !e.isDir && IsYaml(e.name) then seen + 1 else seen;
        ScanIsFirstStop(env, es, v, counted, k + 1, seen');
        PassCase(env, es, v, counted, k, seen);
      } else {
        StopStep(env, es, v, counted, k, seen);
      }
    }
  }

  /** The search result that the first entry not walked past decides. */
  function StopResult<P, L>(env: Env<P, L>, es: seq<DirEntry<P>>, v: Semver.Version, counted: bool, k: nat, seen: nat): Result<Found<L>, LoadError>
    requires k <= |es|
  {
    var j := FirstStop(env, es, v, k);
    StopIndexed(env, es, j, if counted then seen + YamlCount(es, k, j) else 0)
  }

  /** What the search reports when entry j (or the end, at |es|) decides it, with the given index. */
  function StopIndexed<P, L>(env: Env<P, L>, es: seq<DirEntry<P>>, j: nat, index: nat): Result<Found<L>, LoadError>
    requires j <= |es|
  {
    if j == |es| then Err(NotFound) else StopAt(env, es[j], index)
  }

  /** Walking past entry k moves the search, and its deciding entry stays the same. */
  lemma PassCase<P, L>(env: Env<P, L>, es: seq<DirEntry<P>>, v: Semver.Version, counted: bool, k: nat, seen: nat)
    requires k < |es| && Passes(env, es[k], v)
    requires ScanAt(env, es, v, counted, k + 1, if !es[k].isDir && IsYaml(es[k].name) then seen + 1 else seen) ==
      StopResult(env, es, v, counted, k + 1, if !es[k].isDir && IsYaml(es[k].name) then seen + 1 else seen)
    ensures ScanAt(env, es, v, counted, k, seen) == StopResult(env, es, v, counted, k, seen)
  {
    PassStep(env, es, v, counted, k, seen);
    FirstStopPass(env, es, v, k);
    StopResultPass(env, es, v, counted, k, seen);
  }

  lemma StopResultPass<P, L>(env: Env<P, L>, es: seq<DirEntry<P>>, v: Semver.Version, counted: bool, k: nat, seen: nat)
    requires k < |es| && FirstStop(env, es, v, k) == FirstStop(env, es, v, k + 1)
    ensures StopResult(env, es, v, counted, k, seen) ==
      StopResult(env, es, v, counted, k + 1, if !es[k].isDir && IsYaml(es[k].name) then seen + 1 else seen)
  {
    YamlCountStep(es, k, FirstStop(env, es, v, k));
  }

  /** Walking past entry k leaves the deciding entry the same. */
  lemma FirstStopPass<P, L>(env: Env<P, L>, es: seq<DirEntry<P>>, v: Semver.Version, k: nat)
    requires k < |es| && Passes(env, es[k], v)
    ensures FirstStop(env, es, v, k) == FirstStop(env, es, v, k + 1)
  {
  }

  lemma PassStep<P, L>(env: Env<P, L>, es: seq<DirEntry<P>>, v: Semver.Version, counted: bool, k: nat, seen: nat)
    requires k < |es| && Passes(env, es[k], v)
    ensures ScanAt(env, es, v, counted, k, seen) ==
      ScanAt(env, es, v, counted, k + 1, if !es[k].isDir && IsYaml(es[k].name) then seen + 1 else seen)
  {
  }

  lemma StopStep<P, L>(env: Env<P, L>, es: seq<DirEntry<P>>, v: Semver.Version, counted: bool, k: nat, seen: nat)
    requires k < |es| && !Passes(env, es[k], v)
    ensures ScanAt(env, es, v, counted, k, seen) == StopAt(env, es[k], if counted then seen else 0)
  {
  }

  /** A match is returned only if it is the first entry the search does not walk past. */
  lemma FoundIsFirstMatch<P, L>(env: Env<P, L>, es: seq<DirEntry<P>>, v: Semver.Version, counted: bool)
    requires ForArch(env, Some(es), v, counted).Ok?
    ensures var j := FirstStop(env, es, v, 0);
      j < |es| && Matches(env, es[j], v) &&
      ForArch(env, Some(es), v, counted).value.layout == env.unmarshal(es[j].data.value).value &&
      ForArch(env, Some(es), v, counted).value.key.index == (if counted then YamlCount(es, 0, j) else 0)
  {
    ScanIsFirstStop(env, es, v, counted, 0, 0);
  }

  /** "not found" exactly when every entry is walked past. */
  lemma NotFoundIffAllPass<P, L>(env: Env<P, L>, es: seq<DirEntry<P>>, v: Semver.Version, counted: bool)
    ensures ForArch(env, Some(es), v, counted) == Err(NotFound) <==> forall m :: 0 <= m < |es| ==> Passes(env, es[m], v)
  {
    ScanIsFirstStop(env, es, v, counted, 0, 0);
    var j := FirstStop(env, es, v, 0);
    if j < |es| {
      assert !Passes(env, es[j], v);
    }
  }

  // ----- loadLayouts -----

  /**
   * The loading loop from entry k on, with seen layouts already stored in acc.
   * It stops silently at the first unreadable, undecodable or unparsable
   * YAML file, keeping what it stored so far.
   */
  function LoadAt<P, L>(env: Env<P, L>, es: seq<DirEntry<P>>, k: nat, seen: nat, acc: map<Key, L>): map<Key, L>
    requires k <= |es|
    decreases |es| - k
  {
    if k == |es| then acc
    else
      var e := es[k];
      if e.isDir then LoadAt(env, es, k + 1, seen, acc)
      else if e.data.None? then acc
      else if !IsYaml(e.name) then LoadAt(env, es, k + 1, seen, acc)
      else if env.unmarshal(e.data.value).None? || env.parse(RawConstraint(e.name)).None? then acc
      else
        var key := Key(seen, env.render(env.parse(RawConstraint(e.name)).value));
        LoadAt(env, es, k + 1, seen + 1, acc[key := env.unmarshal(e.data.value).value])
  }

  /** Number of files the loading loop stores from entry k on. */
  function LoadedCount<P, L>(env: Env<P, L>, es: seq<DirEntry<P>>, k: nat): nat
    requires k <= |es|
    decreases |es| - k
  {
    if k == |es| then 0
    else
      var e := es[k];
      if e.isDir || (e.data.Some? && !IsYaml(e.name)) then LoadedCount(env, es, k + 1)
      else if Usable(env, e) then 1 + LoadedCount(env, es, k + 1)
      else 0
  }

  /**
   * The counter gives every stored file a fresh index, so no file overwrites
   * another: the table grows by exactly the number of stored files, and the
   * new keys carry the indices seen, seen + 1, ….
   */
  lemma {:induction false} LoadAddsDistinctKeys<P, L>(env: Env<P, L>, es: seq<DirEntry<P>>, k: nat, seen: nat, acc: map<Key, L>)
    requires k <= |es|
    requires forall key :: key in acc ==> key.index < seen
    ensures var m := LoadAt(env, es, k, seen, acc);
      acc.Keys <= m.Keys &&
      |m.Keys| == |acc.Keys| + LoadedCount(env, es, k) &&
      forall key :: key in m && key !in acc ==> seen <= key.index < seen + LoadedCount(env, es, k)
    decreases |es| - k
  {
    if k < |es| {
      var e := es[k];
      if e.isDir || (e.data.Some? && !IsYaml(e.name)) {
        LoadSkip(env, es, k, seen, acc);
        LoadAddsDistinctKeys(env, es, k + 1, seen, acc);
      } else if Usable(env, e) {
        var key := Key(seen, env.render(env.parse(RawConstraint(e.name)).value));
        var acc' := acc[key := env.unmarshal(e.data.value).value];
        LoadStore(env, es, k, seen, acc);
        AddFreshKey(acc, key, env.unmarshal(e.data.value).value, seen);
        LoadAddsDistinctKeys(env, es, k + 1, seen + 1, acc');
      } else {
        LoadStop(env, es, k, seen, acc);
      }
    }
  }

  lemma LoadSkip<P, L>(env: Env<P, L>, es: seq<DirEntry<P>>, k: nat, seen: nat, acc: map<Key, L>)
    requires k < |es| && (es[k].isDir || (es[k].data.Some? && !IsYaml(es[k].name)))
    ensures LoadAt(env, es, k, seen, acc) == LoadAt(env, es, k + 1, seen, acc)
    ensures LoadedCount(env, es, k) == LoadedCount(env, es, k + 1)
  {
  }

  lemma LoadStore<P, L>(env: Env<P, L>, es: seq<DirEntry<P>>, k: nat, seen: nat, acc: map<Key, L>)
    requires k < |es| && Usable(env, es[k])
    ensures LoadAt(env, es, k, seen, acc) ==
      LoadAt(env, es, k + 1, seen + 1, acc[Key(seen, env.render(env.parse(RawConstraint(es[k].name)).value)) := env.unmarshal(es[k].data.value).value])
    ensures LoadedCount(env, es, k) == 1 + LoadedCount(env, es, k + 1)
  {
  }

  lemma LoadStop<P, L>(env: Env<P, L>, es: seq<DirEntry<P>>, k: nat, seen: nat, acc: map<Key, L>)
    requires k < |es| && !es[k].isDir && !(es[k].data.Some? && !IsYaml(es[k].name)) && !Usable(env, es[k])
    ensures LoadAt(env, es, k, seen, acc) == acc
    ensures LoadedCount(env, es, k) == 0
  {
  }

  /** A key whose index is above every stored one is new, and the table grows by one. */
  lemma AddFreshKey<L>(acc: map<Key, L>, key: Key, x: L, seen: nat)
    requires forall k :: k in acc ==> k.index < seen
    requires key.index == seen
    ensures key !in acc && |acc[key := x].Keys| == |acc.Keys| + 1
    ensures forall k :: k in acc[key := x] ==> k.index < seen + 1
  {
    assert acc[key := x].Keys == acc.Keys + {key};
  }

  /** The loading loop as the source writes it. */
  method LoadEntries<P, L>(env: Env<P, L>, es: seq<DirEntry<P>>, start: map<Key, L>) returns (m: map<Key, L>)
    ensures m == LoadAt(env, es, 0, 0, start)
  {
    m := start;
    var i := 0;
    var k := 0;
    while k < |es|
      invariant k <= |es|
      invariant LoadAt(env, es, 0, 0, start) == LoadAt(env, es, k, i, m)
      decreases |es| - k
    {
      var e := es[k];
      if e.isDir { k := k + 1; continue; }
      if e.data.None? { return; }
      if !IsYaml(e.name) { k := k + 1; continue; }
      var lyt := env.unmarshal(e.data.value);
      if lyt.None? { return; }
      var constr := env.parse(RawConstraint(e.name));
      if constr.None? { return; }
      m := m[Key(i, env.render(constr.value)) := lyt.value];
      i := i + 1;
      k := k + 1;
    }
  }

  /** A package's table of layouts, filled on first use under sync.Once. */
  class Registry<P, L> {
    var done: bool
    var layouts: map<Key, L>

    constructor ()
      ensures !done && layouts == map[]
    {
      done := false;
      layouts := map[];
    }

    /**
     * loadLayouts: the first call loads the directory (nothing when it cannot
     * be read); every call returns the table and no error, because the closure
     * assigns its errors to a shadowing variable.
     */
    method LoadLayouts(env: Env<P, L>, dir: Option<seq<DirEntry<P>>>) returns (m: map<Key, L>, err: Option<LoadError>)
      modifies this
      ensures done
      ensures layouts == if old(done) || dir.None? then old(layouts) else LoadAt(env, dir.value, 0, 0, old(layouts))
      ensures m == layouts && err == None
    {
      if !done {
        done := true;
        if dir.Some? {
          layouts := LoadEntries(env, dir.value, layouts);
        }
      }
      m, err := layouts, None;
    }
  }

  /** A package's init: a fresh table loaded once; init's panic never fires, as loadLayouts reports no error. */
  method Init<P, L>(env: Env<P, L>, dir: Option<seq<DirEntry<P>>>) returns (reg: Registry<P, L>)
    ensures fresh(reg) && reg.done
    ensures reg.layouts == if dir.None? then map[] else LoadAt(env, dir.value, 0, 0, map[])
  {
    reg := new Registry();
    var _, err := reg.LoadLayouts(env, dir);
  }

  // ----- GetLayout / GetInitialState -----

  /**
   * The lookup loop of GetLayout over a table in Go's unspecified map order:
   * some matching entry, the first key met whose constraint does not parse,
   * or "not found" when every constraint parses and none matches.
   */
  method Pick<L>(table: map<Key, L>, parse: string -> Option<Semver.Constraint>, v: Semver.Version)
    returns (r: Result<Found<L>, LoadError>)
    ensures r.Ok? ==> (r.value.key in table && table[r.value.key] == r.value.layout &&
                       parse(r.value.key.constraint).Some? && Semver.Check(parse(r.value.key.constraint).value, v))
    ensures r.Err? ==> r.error == NotFound || (r.error.BadKey? && r.error.key in table && parse(r.error.key.constraint).None?)
    ensures r == Err(NotFound) <==>
      forall k :: k in table ==> parse(k.constraint).Some? && !Semver.Check(parse(k.constraint).value, v)
  {
    var remaining := table.Keys;
    while remaining != {}
      invariant remaining <= table.Keys
      invariant forall k :: k in table.Keys - remaining ==> parse(k.constraint).Some? && !Semver.Check(parse(k.constraint).value, v)
      decreases remaining
    {
      var k :| k in remaining;
      var constr := parse(k.constraint);
      if constr.None? { return Err(BadKey(k)); }
      if Semver.Check(constr.value, v) { return Ok(Found(k, table[k])); }
      remaining := remaining - {k};
    }
    return Err(NotFound);
  }

  // ----- loadInitialState -----

  /**
   * loadInitialState from entry k on: errors are returned, keys carry index 0,
   * so a later file whose constraint renders alike replaces an earlier one.
   */
  function StatesAt<P, L>(env: Env<P, L>, es: seq<DirEntry<P>>, k: nat, acc: map<Key, L>): Result<map<Key, L>, LoadError>
    requires k <= |es|
    decreases |es| - k
  {
    if k == |es| then Ok(acc)
    else
      var e := es[k];
      if e.isDir then StatesAt(env, es, k + 1, acc)
      else if e.data.None? then Err(ReadFailed(e.name))
      else if !IsYaml(e.name) then StatesAt(env, es, k + 1, acc)
      else if env.unmarshal(e.data.value).None? then Err(UnmarshalFailed(e.name))
      else if env.parse(RawConstraint(e.name)).None? then Err(BadConstraint(RawConstraint(e.name)))
      else
        var key := Key(0, env.render(env.parse(RawConstraint(e.name)).value));
        StatesAt(env, es, k + 1, acc[key := env.unmarshal(e.data.value).value])
  }

  function LoadStates<P, L>(env: Env<P, L>, dir: Option<seq<DirEntry<P>>>): Result<map<Key, L>, LoadError>
  {
    if dir.None? then Err(DirUnreadable) else StatesAt(env, dir.value, 0, map[])
  }

  /** The loop of loadInitialState. */
  method LoadInitialState<P, L>(env: Env<P, L>, dir: Option<seq<DirEntry<P>>>) returns (r: Result<map<Key, L>, LoadError>)
    ensures r == LoadStates(env, dir)
    ensures r.Ok? ==> forall key :: key in r.value ==> key.index == 0
  {
    if dir.None? { return Err(DirUnreadable); }
    var es := dir.value;
    var m: map<Key, L> := map[];
    var k := 0;
    while k < |es|
      invariant k <= |es|
      invariant StatesAt(env, es, 0, map[]) == StatesAt(env, es, k, m)
      invariant forall key :: key in m ==> key.index == 0
      decreases |es| - k
    {
      var e := es[k];
      if e.isDir { k := k + 1; continue; }
      if e.data.None? { return Err(ReadFailed(e.name)); }
      if !IsYaml(e.name) { k := k + 1; continue; }
      var st := env.unmarshal(e.data.value);
      if st.None? { return Err(UnmarshalFailed(e.name)); }
      var constr := env.parse(RawConstraint(e.name));
      if constr.None? { return Err(BadConstraint(RawConstraint(e.name))); }
      m := m[Key(0, env.render(constr.value)) := st.value];
      k := k + 1;
    }
    StatesEnd(env, es, k, m);
    return Ok(m);
  }

  /** At the end of the directory the load returns the table built so far. */
  lemma StatesEnd<P, L>(env: Env<P, L>, es: seq<DirEntry<P>>, k: nat, acc: map<Key, L>)
    requires k == |es|
    ensures StatesAt(env, es, k, acc) == Ok(acc)
  {
  }

  /** The last usable file of a successful load is what its key maps to. */
  lemma {:induction false} LastStateWins<P, L>(env: Env<P, L>, es: seq<DirEntry<P>>, k: nat, acc: map<Key, L>, j: nat)
    requires k <= j < |es| && Usable(env, es[j])
    requires forall m :: j < m < |es| ==> !Usable(env, es[m])
    requires StatesAt(env, es, k, acc).Ok?
    ensures var key := Key(0, env.render(env.parse(RawConstraint(es[j].name)).value));
      key in StatesAt(env, es, k, acc).value &&
      StatesAt(env, es, k, acc).value[key] == env.unmarshal(es[j].data.value).value
    decreases |es| - k
  {
    var e := es[k];
    if k == j {
      var key := Key(0, env.render(env.parse(RawConstraint(e.name)).value));
      var acc' := acc[key := env.unmarshal(e.data.value).value];
      StatesKeep(env, es, k + 1, acc', key);
    } else {
      if e.isDir || !IsYaml(e.name) {
        LastStateWins(env, es, k + 1, acc, j);
      } else {
        var key := Key(0, env.render(env.parse(RawConstraint(e.name)).value));
        LastStateWins(env, es, k + 1, acc[key := env.unmarshal(e.data.value).value], j);
      }
    }
  }

  /** With no usable file left, a successful load keeps what it has. */
  lemma {:induction false} StatesKeep<P, L>(env: Env<P, L>, es: seq<DirEntry<P>>, k: nat, acc: map<Key, L>, key: Key)
    requires k <= |es| && key in acc
    requires forall m :: k <= m < |es| ==> !Usable(env, es[m])
    requires StatesAt(env, es, k, acc).Ok?
    ensures key in StatesAt(env, es, k, acc).value && StatesAt(env, es, k, acc).value[key] == acc[key]
    decreases |es| - k
  {
    if k < |es| {
      StatesKeep(env, es, k + 1, acc, key);
    }
  }
}
