/** A Java reference that may be null, and a library call that may throw. */
module Options {
  datatype Option<+T> = None | Some(value: T)

  /** `Map.get`: the value stored under `key`, or null when there is none. */
  function Get<K, V>(m: map<K, V>, key: K): (r: Option<V>)
    ensures r.Some? <==> key in m
    ensures r.Some? ==> r.value == m[key]
  {
    if key in m then Some(m[key]) else None
  }
}
