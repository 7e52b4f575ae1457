/**
 * pkg/python/python.go: the embedded python layout and initial-state tables.
 * Layouts are numbered by the counter of YAML files; initial states are not.
 */
module PythonTables {
  import opened Wrappers
  import Semver
  import T = LayoutTable

  /** getLayoutForArch: the key's index counts the YAML files before the match. */
  method GetLayoutForArch<P, L>(env: T.Env<P, L>, dir: Option<seq<T.DirEntry<P>>>, v: Semver.Version)
    returns (r: Result<T.Found<L>, T.LoadError>)
    ensures r == T.ForArch(env, dir, v, true)
    ensures r.Ok? ==> dir.Some? && r.value.key.index == T.YamlCount(dir.value, 0, T.FirstStop(env, dir.value, v, 0))
  {
    r := T.GetLayoutForArch(env, dir, v, true);
    if r.Ok? { T.FoundIsFirstMatch(env, dir.value, v, true); }
  }

  /** GetLayout: load once, then look the version up in the table. */
  method GetLayout<P, L>(reg: T.Registry<P, L>, env: T.Env<P, L>, dir: Option<seq<T.DirEntry<P>>>, v: Semver.Version)
    returns (r: Result<T.Found<L>, T.LoadError>)
    modifies reg
    ensures reg.done
    ensures reg.layouts == if old(reg.done) || dir.None? then old(reg.layouts) else T.LoadAt(env, dir.value, 0, 0, old(reg.layouts))
    ensures r.Ok? ==> (r.value.key in reg.layouts && reg.layouts[r.value.key] == r.value.layout &&
                       env.parse(r.value.key.constraint).Some? && Semver.Check(env.parse(r.value.key.constraint).value, v))
    ensures r == Err(T.NotFound) <==>
      forall k :: k in reg.layouts ==> env.parse(k.constraint).Some? && !Semver.Check(env.parse(k.constraint).value, v)
  {
    // loadLayouts never reports an error, so the error return of the source is dead here.
    var layouts, _ := reg.LoadLayouts(env, dir);
    r := T.Pick(layouts, env.parse, v);
  }

  /** GetLayouts: the whole table, after loading it once. */
  method GetLayouts<P, L>(reg: T.Registry<P, L>, env: T.Env<P, L>, dir: Option<seq<T.DirEntry<P>>>)
    returns (r: Result<map<T.Key, L>, T.LoadError>)
    modifies reg
    ensures reg.done && r == Ok(reg.layouts)
    ensures reg.layouts == if old(reg.done) || dir.None? then old(reg.layouts) else T.LoadAt(env, dir.value, 0, 0, old(reg.layouts))
  {
    // loadLayouts never reports an error, so the error return of the source is dead here.
    var layouts, _ := reg.LoadLayouts(env, dir);
    return Ok(layouts);
  }

  /** GetInitialStateForArch: the same search, with keys of index 0. */
  method GetInitialStateForArch<P, S>(env: T.Env<P, S>, dir: Option<seq<T.DirEntry<P>>>, v: Semver.Version)
    returns (r: Result<T.Found<S>, T.LoadError>)
    ensures r == T.ForArch(env, dir, v, false)
    ensures r.Ok? ==> (r.value.key.index == 0 && dir.Some? && T.FirstStop(env, dir.value, v, 0) < |dir.value| &&
                       T.Matches(env, dir.value[T.FirstStop(env, dir.value, v, 0)], v))
  {
    r := T.GetLayoutForArch(env, dir, v, false);
    if r.Ok? { T.FoundIsFirstMatch(env, dir.value, v, false); }
  }

  /** GetInitialState: load every initial state, then look the version up. */
  method GetInitialState<P, S>(env: T.Env<P, S>, dir: Option<seq<T.DirEntry<P>>>, v: Semver.Version)
    returns (r: Result<T.Found<S>, T.LoadError>)
    ensures T.LoadStates(env, dir).Err? ==> r == Err(T.LoadStates(env, dir).error)
    ensures r.Ok? ==> (T.LoadStates(env, dir).Ok? && r.value.key.index == 0 &&
                       r.value.key in T.LoadStates(env, dir).value && T.LoadStates(env, dir).value[r.value.key] == r.value.layout &&
                       env.parse(r.value.key.constraint).Some? && Semver.Check(env.parse(r.value.key.constraint).value, v))
  {
    var states := T.LoadInitialState(env, dir);
    if states.Err? { return Err(states.error); }
    r := T.Pick(states.value, env.parse, v);
  }

  /** GetInitialStates: every initial state, or the first loading error. */
  method GetInitialStates<P, S>(env: T.Env<P, S>, dir: Option<seq<T.DirEntry<P>>>)
    returns (r: Result<map<T.Key, S>, T.LoadError>)
    ensures r == T.LoadStates(env, dir)
    ensures r.Ok? ==> forall k :: k in r.value ==> k.index == 0
  {
    r := T.LoadInitialState(env, dir);
  }
}
