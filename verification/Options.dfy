/** Values that may be absent, maps read with a default, and queues. */
module Options {
  datatype Option<+T> = None | Some(value: T)

  function Known<T>(m: map<string, T>, k: string): Option<T> {
    if k in m then Some(m[k]) else None
  }

  function ListOf<T>(m: map<string, seq<T>>, k: string): seq<T> {
    if k in m then m[k] else []
  }

  /** Moving the head of one list to the end of another keeps them joined as they were. */
  lemma Rotated<T>(a: seq<T>, b: seq<T>)
    requires b != []
    ensures (a + [b[0]]) + b[1..] == a + b
  {
  }
}
