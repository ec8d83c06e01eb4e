/** Failure-carrying results and the byte type shared by every other module. */
module Wrappers {

  /** A Go `[]byte` element. */
  type byte = b: int | 0 <= b < 256

  /** A Go `uint16`. */
  type uint16 = n: int | 0 <= n < 0x1_0000

  datatype Option<+T> = None | Some(value: T)

  /** A Go `(value, error)` pair where exactly one side is meaningful. */
  datatype Result<+T> = Ok(value: T) | Err(msg: string)

  /** `make([]byte, n)`: n zero bytes. */
  function Zeros(n: nat): (z: seq<byte>)
    ensures |z| == n
    ensures forall i :: 0 <= i < n ==> z[i] == 0
  {
    seq(n, _ => 0)
  }

  /** Big-endian `uint16` from two bytes, as `binary.BigEndian.Uint16` and `b0<<8 | b1`. */
  function BigEndian16(hi: byte, lo: byte): (n: uint16)
    ensures n / 256 == hi && n % 256 == lo
  {
    hi * 256 + lo
  }

  /** Concatenation of a sequence of byte strings, in order. */
  function Flatten(chunks: seq<seq<byte>>): (r: seq<byte>)
  {
    if chunks == [] then [] else chunks[0] + Flatten(chunks[1..])
  }

  lemma {:induction false} FlattenAppend(chunks: seq<seq<byte>>, c: seq<byte>)
    ensures Flatten(chunks + [c]) == Flatten(chunks) + c
  {
    if chunks == [] {
      assert chunks + [c] == [c];
    } else {
      assert (chunks + [c])[1..] == chunks[1..] + [c];
      FlattenAppend(chunks[1..], c);
    }
  }
}
