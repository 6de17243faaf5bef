/** Bytes as they travel through devices and serial lines. */
module Bytes {
  type byte = x: int | 0 <= x < 256

  function ZeroBytes(n: nat): (r: seq<byte>)
    ensures |r| == n && forall i :: 0 <= i < n ==> r[i] == 0
  {
    seq(n, _ => 0)
  }
}
