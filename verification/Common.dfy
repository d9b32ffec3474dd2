/**
 Types shared by every component of the model.
 */
module Common {

  /** SQL's NULL-able columns and JavaScript's absent values are both Option. */
  datatype Option<+T> = None | Some(value: T)

  datatype Result<+T, +E> = Success(value: T) | Failure(error: E)

  /** A SHA-256 digest, taken symbolically: two digests are equal exactly when their preimages are. */
  datatype Digest = Sha256(preimage: string)

  function Max(a: int, b: int): (m: int)
    ensures m >= a && m >= b && (m == a || m == b)
  {
    if a < b then b else a
  }
}
