/** Outcome types and map lookup, shared by the whole model. */
module Wrappers {
  datatype Option<+T> = None | Some(value: T)

  datatype Result<+T, +E> = Ok(value: T) | Err(error: E)

  function Find<K, V>(m: map<K, V>, k: K): Option<V> { if k in m then Some(m[k]) else None }
}
