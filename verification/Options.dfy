/** Values that may be absent. */
module Options {
  datatype Option<+T> = None | Some(value: T)

  function Find<K, V>(m: map<K, V>, k: K): Option<V> {
    if k in m then Some(m[k]) else None
  }
}

/** Invariants stated as `forall k :: k == x && Open(k) ==> ...` come into view
    only where a proof mentions `Open(x)`, and elsewhere are passed on whole. */
module Seals {
  /** Always true. */
  predicate Open<X>(x: X) {
    true
  }
}
