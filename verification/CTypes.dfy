/** C's unsigned integers and strings. */
module CTypes {
  type Uint = n: nat | n < 0x1_0000_0000

  const NUL := '\0'

  /** A C string of the given length. */
  predicate IsText(b: string) {
    forall i :: 0 <= i < |b| ==> b[i] != NUL
  }
}
