/**
 * pkg/libc/glibc/glibc.go: the embedded glibc layout table. The lookup for a given
 * architecture builds keys of index 0; GetLayout uses the table init loaded.
 */
module GlibcTables {
  import opened Wrappers
  import Semver
  import T = LayoutTable

  /** getLayoutForArch: the first matching YAML file, with a key of index 0. */
  method GetLayoutForArch<P, L>(env: T.Env<P, L>, dir: Option<seq<T.DirEntry<P>>>, v: Semver.Version)
    returns (r: Result<T.Found<L>, T.LoadError>)
    ensures r == T.ForArch(env, dir, v, false)
    ensures r.Ok? ==> (r.value.key.index == 0 && dir.Some? && T.FirstStop(env, dir.value, v, 0) < |dir.value| &&
                       T.Matches(env, dir.value[T.FirstStop(env, dir.value, v, 0)], v))
  {
    r := T.GetLayoutForArch(env, dir, v, false);
    if r.Ok? { T.FoundIsFirstMatch(env, dir.value, v, false); }
  }

  /** GetLayout: look the version up in the table init loaded, without loading again. */
  method GetLayout<P, L>(reg: T.Registry<P, L>, parse: string -> Option<Semver.Constraint>, v: Semver.Version)
    returns (r: Result<T.Found<L>, T.LoadError>)
    ensures r.Ok? ==> (r.value.key in reg.layouts && reg.layouts[r.value.key] == r.value.layout &&
                       parse(r.value.key.constraint).Some? && Semver.Check(parse(r.value.key.constraint).value, v))
    ensures r == Err(T.NotFound) <==>
      forall k :: k in reg.layouts ==> parse(k.constraint).Some? && !Semver.Check(parse(k.constraint).value, v)
  {
    r := T.Pick(reg.layouts, parse, v);
  }

  /** GetLayouts: the loaded table and never an error. */
  function GetLayouts<P, L>(reg: T.Registry<P, L>): (r: Result<map<T.Key, L>, T.LoadError>)
    reads reg
    ensures r.Ok? && r.value == reg.layouts
  {
    Ok(reg.layouts)
  }
}
