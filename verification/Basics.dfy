/** Stock datatypes shared by the other modules. */
module Basics {

  datatype Option<+T> = None | Some(value: T)

  datatype Result<+T, +E> = Ok(value: T) | Err(error: E)

  function Lookup<K, V>(m: map<K, V>, k: K): Option<V> {
    if k in m then Some(m[k]) else None
  }

  function Max(a: int, b: int): int {
    if a < b then b else a
  }

  function Min(a: int, b: int): int {
    if a < b then a else b
  }

  // Durations are in nanoseconds.
  const Second := 1_000_000_000

  // The bounds of Go's machine integers.
  const TwoTo32 := 0x1_0000_0000
  const TwoTo63 := 0x8000_0000_0000_0000
  const TwoTo64 := 0x1_0000_0000_0000_0000

  // A context as the answers to successive checks: once cancelled, it stays so.
  ghost predicate StaysCancelled(alive: nat -> bool) {
    forall i: nat, j: nat :: i <= j && alive(j) ==> alive(i)
  }

  ghost predicate Uncancelled(alive: nat -> bool) {
    forall k: nat :: alive(k)
  }
}
