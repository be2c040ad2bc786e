/** Bytes, hashes and the small wrappers shared by every module. */
module Common {

  type byte = x: int | 0 <= x < 256
  type Bytes = seq<byte>

  /** A 32-byte hash (common.Hash). */
  type Hash = h: Bytes | |h| == 32 witness ZeroHash
  const ZeroHash: Bytes :=
    [0, 0, 0, 0, 0, 0, 0, 0, 0, 0, 0, 0, 0, 0, 0, 0,
     0, 0, 0, 0, 0, 0, 0, 0, 0, 0, 0, 0, 0, 0, 0, 0]

  const TWO_64 := 0x1_0000_0000_0000_0000

  /** Keccak256 is foreign code: an unspecified total function on byte strings. */
  const Keccak: Bytes -> Hash

  /** An unspecified candidate inverse of Keccak. It only serves to name the blobs
      on which Keccak is assumed collision free, see `Known`. */
  ghost const PreImage: Hash -> Bytes

  /** The collision-freedom hypothesis, stated per blob: the blob is addressable
      on a 64-bit machine, its hash is not the all-zero hash, and no other known
      blob has the same hash. Any finite set of blobs can be known at once. */
  ghost predicate Known(blob: Bytes) {
    |blob| < TWO_64 && Keccak(blob) != ZeroHash && PreImage(Keccak(blob)) == blob
  }

  datatype Option<+T> = None | Some(value: T)

  datatype Result<+T, +E> = Ok(value: T) | Err(error: E)

  lemma {:induction false} SubsetSize(a: set<Hash>, b: set<Hash>)
    requires a <= b
    ensures |a| <= |b|
    decreases |a|
  {
    if a != {} {
      var x :| x in a;
      SubsetSize(a - {x}, b - {x});
    }
  }
}
