// Types every other module uses.
module Common {
  datatype Option<+T> = None | Some(value: T)

  datatype Result<+T, +E> = Ok(value: T) | Err(error: E)

  type Byte = x: int | 0 <= x < 256

  // A map without one of its keys.
  function Without<K, V>(m: map<K, V>, k: K): (r: map<K, V>)
    ensures r.Keys == m.Keys - {k}
    ensures forall j <- r :: r[j] == m[j]
  {
    map j | j in m && j != k :: m[j]
  }
}
