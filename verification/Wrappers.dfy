/** Failure-compatible values and map look-up shared by the other modules. */
module Wrappers {
  datatype Option<+T> = None | Some(value: T)

  function Look<K, V>(m: map<K, V>, k: K): Option<V> {
    if k in m then Some(m[k]) else None
  }
}
