/**
 * A plain JavaScript object used as a mutable record of named slices, as the docs composite projections
 * use their state.  `null` and `undefined` slices are both `None`.
 */
module JsObject {
  import opened Wrappers

  /** `record[name] ?? null`. */
  function Lookup<V>(props: map<string, Option<V>>, name: string): (r: Option<V>)
    ensures name !in props ==> r.None?
    ensures name in props ==> r == props[name]
  {
    if name in props then props[name] else None
  }

  class JsRecord<V> {
    var props: map<string, Option<V>>

    /** `Object.fromEntries(entries)`. */
    constructor (props: map<string, Option<V>>)
      ensures this.props == props
    {
      this.props := props;
    }

    /** `record[name] = value`, in place. */
    method Set(name: string, value: Option<V>)
      modifies this
      ensures props == old(props)[name := value]
    {
      props := props[name := value];
    }
  }
}
