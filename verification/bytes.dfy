/** Bytes as the contract and the client handle them: AVM `itob`, JavaScript's
    Uint8Array element conversion, and the mock ledger's element-wise comparison. */
module Bytes {

  type byte = x: int | 0 <= x < 256

  /** 2^64: the range of an AVM `uint64`. */
  const UINT64_LIMIT: nat := 0x1_0000_0000_0000_0000

  /** 256^k. */
  function Pow256(k: nat): (r: nat)
    ensures r >= 1
  {
    if k == 0 then 1 else 256 * Pow256(k - 1)
  }

  /** The unsigned value of a big-endian byte string. */
  function BigEndianValue(bs: seq<byte>): nat
  {
    if |bs| == 0 then 0 else 256 * BigEndianValue(bs[..|bs| - 1]) + bs[|bs| - 1]
  }

  /** The `k` least significant bytes of `n`, most significant first. */
  function BigEndian(n: nat, k: nat): (r: seq<byte>)
    requires n < Pow256(k)
    ensures |r| == k
    ensures BigEndianValue(r) == n
  {
    if k == 0 then []
    else
      var high := BigEndian(n / 256, k - 1);
      var r := high + [n % 256];
      assert r[..|r| - 1] == high;
      r
  }

  /** AVM `itob`: a uint64 as 8 big-endian bytes. */
  function Itob(n: nat): (r: seq<byte>)
    requires n < UINT64_LIMIT
    ensures |r| == 8
    ensures BigEndianValue(r) == n
  {
    assert Pow256(8) == UINT64_LIMIT;
    BigEndian(n, 8)
  }

  /** `itob` loses nothing: two different uint64 values never share an encoding. */
  lemma ItobInjective(m: nat, n: nat)
    requires m < UINT64_LIMIT && n < UINT64_LIMIT
    ensures Itob(m) == Itob(n) <==> m == n
  {
  }

  /** The byte JavaScript stores when a number `n` is written into a Uint8Array
      (ToUint8: the integer modulo 2^8, taken non-negative). */
  function ToUint8(n: int): (r: byte)
    ensures 0 <= n < 256 ==> r == n
    ensures (r - n) % 256 == 0
  {
    n % 256
  }

  /** `arraysEqual` of the mock ledger: lengths first, then element by element. */
  method ArraysEqual(a: seq<byte>, b: seq<byte>) returns (equal: bool)
    ensures equal <==> a == b
  {
    if |a| != |b| {
      return false;
    }
    var i := 0;
    while i < |a|
      invariant 0 <= i <= |a|
      invariant forall j :: 0 <= j < i ==> a[j] == b[j]
    {
      if a[i] != b[i] {
        return false;
      }
      i := i + 1;
    }
    return true;
  }
}
