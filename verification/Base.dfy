/** Values shared by every component: raw bytes, digests, references and the usual wrappers. */
module Base {
  newtype Byte = b: int | 0 <= b < 256
  type Bytes = seq<Byte>

  /** The hexadecimal part of a sha256 digest; it is also the name of the blob's file. */
  type Digest = string

  /** A parsed reference `locator@sha256:digest`; the digest is empty when the text has none. */
  datatype Ref = Ref(locator: string, digest: Digest)

  datatype Option<+T> = None | Some(value: T)

  datatype Result<+T, +E> = Ok(value: T) | Err(error: E) {
    predicate IsFailure() {
      Err?
    }

    function PropagateFailure<U>(): Result<U, E>
      requires Err?
    {
      Err(error)
    }

    function Extract(): T
      requires Ok?
    {
      value
    }
  }

  function Min(a: int, b: int): int {
    if a <= b then a else b
  }

  function Max(a: int, b: int): int {
    if a >= b then a else b
  }

  /** The elements of a sequence. */
  function Elems<T(==)>(s: seq<T>): set<T> {
    set x | x in s
  }

  /** Under this digest both hold the same file, or none. */
  predicate SameFile(a: map<Digest, Bytes>, b: map<Digest, Bytes>, d: Digest) {
    (d in a <==> d in b) && (d in a ==> a[d] == b[d])
  }
}
