/** Types shared by the models of the keyspace, the commands and the logs. */
module Basics {

  datatype Option<+T> = None | Some(value: T)

  datatype Result<+T, +E> = Ok(value: T) | Fail(error: E)

  /** A key of one logical DB. */
  datatype Slot = Slot(db: nat, key: string)

  /** What a table holds for a key. */
  function At<K, V>(m: map<K, V>, k: K): Option<V> {
    if k in m then Some(m[k]) else None
  }

  /** The table with this for the key, or without the key. */
  function Put<K, V>(m: map<K, V>, k: K, v: Option<V>): map<K, V> {
    if v.None? then m - {k} else m[k := v.value]
  }
}
