/** Small shared vocabulary: optional values (Java's nullable references),
    the HTTP status codes the REST resources answer with, and filling a
    sequence or an array from a function of the index. */
module Base {

  /** A Java reference that may be null. */
  datatype Option<+T> = None | Some(value: T)

  /** A value or an error tag (the Java exceptions and error returns). */
  datatype Result<+T, +E> = Ok(value: T) | Err(error: E)

  /** A JAX-RS response: its status code and, on success, its entity. */
  datatype Reply<+T> = Reply(status: int, body: Option<T>)

  const OK := 200
  const CREATED := 201
  const NO_CONTENT := 204
  const BAD_REQUEST := 400
  const UNAUTHORIZED := 401
  const FORBIDDEN := 403
  const NOT_FOUND := 404
  const SERVER_ERROR := 500

  /** `nvl(s)`: a null string reads as the empty string. */
  function Nvl(s: Option<string>): string
  {
    if s.Some? then s.value else ""
  }

  /** The values f(0), ..., f(n - 1), in order. */
  function Tabulate<T>(f: nat -> T, n: nat): (r: seq<T>)
    ensures |r| == n
  {
    if n == 0 then [] else Tabulate(f, n - 1) + [f(n - 1)]
  }

  lemma {:induction false} TabulateAt<T>(f: nat -> T, n: nat, e: nat)
    requires e < n
    ensures Tabulate(f, n)[e] == f(e)
  {
    if e < n - 1 {
      TabulateAt(f, n - 1, e);
    }
  }

  /** A fresh array of n elements, element i set to f(i) in index order. */
  method Fill<T(0)>(f: nat -> T, n: nat) returns (a: array<T>)
    ensures fresh(a) && a.Length == n
    ensures a[..] == Tabulate(f, n)
  {
    a := new T[n];
    var i := 0;
    while i < n
      invariant 0 <= i <= n
      invariant forall e :: 0 <= e < i ==> a[e] == Tabulate(f, n)[e]
    {
      a[i] := f(i);
      TabulateAt(f, n, i);
      i := i + 1;
    }
  }
}
