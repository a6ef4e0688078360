/** Shared result types. Go's `(value, error)` pairs become `Result`; a Go byte
    slice that may be nil becomes `Bytes`, because nil and empty slices differ. */
module Common {

  datatype Option<+T> = None | Some(value: T)

  /** The error kinds the configuration packages distinguish. */
  datatype Error =
    | NotValid
    | Empty
    | NotSupported
    | NotAllowed
    | TooShort
    | AlreadyClosed
    | Duplicated
    | OutOfRange
    | SliceBounds           // a run-time panic: slice bounds out of range
    | External(code: int)   // raised by an observer or by a storage back end

  datatype Result<+T> = Ok(value: T) | Err(error: Error)

  type Bytes = Option<string>

  const MAX_INT64 := 0x7FFF_FFFF_FFFF_FFFF
  const TWO_64 := 0x1_0000_0000_0000_0000

  /** No element occurs twice. */
  predicate Distinct<T(==)>(s: seq<T>) {
    forall i, j | 0 <= i < j < |s| :: s[i] != s[j]
  }

  lemma Regroup<T>(a: seq<T>, b: seq<T>, c: seq<T>, d: seq<T>)
    ensures a + b + c + d == a + (b + c + d)
  {
  }
}
