/** The optional value returned by lookups, in the shape of Rust's `Option`. */
module Wrappers {

  datatype Option<+T> = None | Some(value: T)

  /** The binding of `k` in `m`, or `None` if `k` is unbound. */
  function Lookup<K, V>(m: map<K, V>, k: K): Option<V> {
    if k in m then Some(m[k]) else None
  }
}
