/**
 * pkg/ruby/ruby.go: the embedded ruby layout table, loaded by init with
 * numbered keys; GetLayout uses it without loading again.
 */
module RubyTables {
  import opened Wrappers
  import Semver
  import T = LayoutTable

  /** GetLayout: look the version up in the table init loaded. */
  method GetLayout<P, L>(reg: T.Registry<P, L>, parse: string -> Option<Semver.Constraint>, v: Semver.Version)
    returns (r: Result<T.Found<L>, T.LoadError>)
    ensures r.Ok? ==> (r.value.key in reg.layouts && reg.layouts[r.value.key] == r.value.layout &&
                       parse(r.value.key.constraint).Some? && Semver.Check(parse(r.value.key.constraint).value, v))
    ensures r == Err(T.NotFound) <==>
      forall k :: k in reg.layouts ==> parse(k.constraint).Some? && !Semver.Check(parse(k.constraint).value, v)
  {
    r := T.Pick(reg.layouts, parse, v);
  }

  /** GetLayouts: the loaded table and never an error. */
  function GetLayouts<P, L>(reg: T.Registry<P, L>): (r: Result<map<T.Key, L>, T.LoadError>)
    reads reg
    ensures r.Ok? && r.value == reg.layouts
  {
    Ok(reg.layouts)
  }
}
