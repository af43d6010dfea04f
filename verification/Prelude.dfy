/** Small types shared by every component of the model. */
module Prelude {

  /** A nullable value: a Go pointer or a nullable SQL column. */
  datatype Option<+T> = None | Some(value: T)

  /** A Go (value, error) pair. */
  datatype Result<+T, +E> = Ok(value: T) | Err(error: E)

  type UserId = nat
  type ReplicaId = nat

  /** A thread: a request being handled, or a goroutine that calls into an object. */
  type Tid = nat

  function ToSeq<T>(o: Option<T>): seq<T> {
    if o.Some? then [o.value] else []
  }

  function Least(a: int, b: int): int {
    if a < b then a else b
  }

  function Greatest(a: int, b: int): int {
    if a < b then b else a
  }

  /** How a transaction's commit ended. `Unknown` is an error returned for a commit the server applied. */
  datatype Commit = Committed | RolledBack | Unknown

  /** `int(x / d)` in Go: integer division that truncates towards zero. */
  function TruncDiv(x: int, d: int): (q: int)
    requires d > 0
    ensures x >= 0 ==> q * d <= x < (q + 1) * d
    ensures x < 0 ==> (q - 1) * d < x <= q * d
  {
    if x >= 0 then x / d else -((-x) / d)
  }

  /** No element of `s` occurs twice. */
  ghost predicate Distinct<T>(s: seq<T>) {
    forall i, j :: 0 <= i < j < |s| ==> s[i] != s[j]
  }
}
