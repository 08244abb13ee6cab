/** Optional values: a JSON field that may be absent, a row a query may not find. */
module Wrappers {

  datatype Option<+T> = None | Some(value: T)

  /** JavaScript truthiness of an optional string: absent and "" are both falsy. */
  predicate Truthy(o: Option<string>) {
    o.Some? && o.value != ""
  }

  /** `x || ''` on an optional string field. */
  function OrEmpty(o: Option<string>): (s: string)
    ensures Truthy(o) ==> o == Some(s)
    ensures !Truthy(o) ==> s == ""
  {
    if o.Some? then o.value else ""
  }
}
