/** Optional values and results with an error, as the source's `(value, error)` returns. */
module Wrappers {
  datatype Option<+T> = None | Some(value: T)

  datatype Result<+T, +E> = Ok(value: T) | Err(error: E)

  /** What a reader finds for the first `n` names, in their order. */
  function Gather<T>(read: string -> seq<T>, names: seq<string>, n: nat): seq<T>
    requires n <= |names|
  {
    if n == 0 then [] else Gather(read, names, n - 1) + read(names[n - 1])
  }

  /** What is found for more names comes after what is found for fewer. */
  lemma {:induction false} GatherInOrder<T>(read: string -> seq<T>, names: seq<string>, m: nat, n: nat)
    requires m <= n <= |names|
    ensures Gather(read, names, m) <= Gather(read, names, n)
    ensures m < n ==> Gather(read, names, m) + read(names[m]) <= Gather(read, names, n)
    decreases n
  {
    if m < n { GatherInOrder(read, names, m, n - 1); }
  }
}
