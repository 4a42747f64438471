/** Shared result types. A refusal carries the reason the source asserts with. */
module Prelude {

  type byte = x: nat | x < 256
  type Bytes = seq<byte>

  datatype Option<+T> = None | Some(value: T)

  /** The outcome of an operation that may refuse. */
  datatype Result<+T> = Ok(value: T) | Refused(reason: string) {
    predicate IsFailure() {
      Refused?
    }

    function PropagateFailure<U>(): Result<U>
      requires Refused?
    {
      Refused(reason)
    }

    function Extract(): T
      requires Ok?
    {
      value
    }
  }

  /** The outcome of a bare assertion, for `:-` statements. */
  datatype Check = Pass | Fail(reason: string) {
    predicate IsFailure() {
      Fail?
    }

    function PropagateFailure<U>(): Result<U>
      requires Fail?
    {
      Refused(reason)
    }
  }

  function Need(condition: bool, reason: string): Check {
    if condition then Pass else Fail(reason)
  }

  function Min(a: int, b: int): int {
    if a <= b then a else b
  }

  function Max(a: int, b: int): int {
    if a >= b then a else b
  }

  /** White space as the host language has it, in patterns and in number parsing alike. */
  predicate Space(c: char) {
    || c == ' ' || '\t' <= c <= '\r' || c == '\U{a0}' || c == '\U{1680}' || '\U{2000}' <= c <= '\U{200a}'
    || c == '\U{2028}' || c == '\U{2029}' || c == '\U{202f}' || c == '\U{205f}' || c == '\U{3000}' || c == '\U{feff}'
  }

  /** `includes` and `indexOf`: the text stands somewhere in the body as it is. */
  predicate Occurs<T(==)>(text: seq<T>, body: seq<T>) {
    exists i | 0 <= i <= |body| :: text <= body[i..]
  }

  /** The last `n` elements, or all of fewer. */
  function Last<T>(s: seq<T>, n: nat): seq<T> {
    s[Max(0, |s| - n)..]
  }

  function Concat(parts: seq<Bytes>): Bytes {
    if parts == [] then [] else Concat(parts[..|parts| - 1]) + parts[|parts| - 1]
  }
}
