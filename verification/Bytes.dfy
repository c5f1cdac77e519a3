/** Little-endian integers inside byte sequences (encoding/binary.LittleEndian). */
module Bytes {
  import opened Core

  function Pow256(k: nat): (p: nat)
    ensures p >= 1
  {
    if k == 0 then 1 else 256 * Pow256(k - 1)
  }

  /** PutUintN: the low k bytes of x, least significant first; higher bits are dropped. */
  function Put(x: nat, k: nat): (b: seq<Byte>)
    ensures |b| == k
  {
    if k == 0 then [] else [x % 256] + Put(x / 256, k - 1)
  }

  /** UintN: the number held by the bytes. */
  function Get(b: seq<Byte>): (x: nat)
    ensures x < Pow256(|b|)
  {
    if b == [] then 0 else b[0] + 256 * Get(b[1..])
  }

  /** Reading back what was written gives the number, provided it fits. */
  lemma {:induction false} GetPut(x: nat, k: nat)
    requires x < Pow256(k)
    ensures Get(Put(x, k)) == x
  {
    if k > 0 {
      GetPut(x / 256, k - 1);
      assert Put(x, k)[1..] == Put(x / 256, k - 1);
    }
  }

  lemma {:induction false} Sizes()
    ensures Pow256(1) == 0x100
    ensures Pow256(2) == 0x1_0000
    ensures Pow256(4) == 0x1_0000_0000
    ensures Pow256(8) == 0x1_0000_0000_0000_0000
  {
    assert Pow256(2) == 256 * Pow256(1);
    assert Pow256(3) == 256 * Pow256(2);
    assert Pow256(4) == 256 * Pow256(3);
    assert Pow256(5) == 256 * Pow256(4);
    assert Pow256(6) == 256 * Pow256(5);
    assert Pow256(7) == 256 * Pow256(6);
    assert Pow256(8) == 256 * Pow256(7);
  }

  lemma {:induction false} GetPut64(x: nat)
    requires x < 0x1_0000_0000_0000_0000
    ensures Get(Put(x, 8)) == x
  {
    Sizes();
    GetPut(x, 8);
  }

  /** The 16-bit number at an offset of a buffer. */
  function U16(d: seq<Byte>, off: nat): (x: nat)
    requires off + 2 <= |d|
    ensures x < 0x1_0000
  {
    d[off] as int + 256 * (d[off + 1] as int)
  }

  /** Writing a 16-bit number; higher bits are dropped. */
  function Write16(d: seq<Byte>, off: nat, x: nat): (r: seq<Byte>)
    requires off + 2 <= |d|
    ensures |r| == |d|
    ensures x < 0x1_0000 ==> U16(r, off) == x
    ensures forall i :: 0 <= i < |d| && !(off <= i < off + 2) ==> r[i] == d[i]
  {
    d[off := x % 256][off + 1 := x / 256 % 256]
  }

  function U64(d: seq<Byte>, off: nat): (x: nat)
    requires off + 8 <= |d|
    ensures x < 0x1_0000_0000_0000_0000
  {
    Sizes();
    Get(d[off..off + 8])
  }

  /** Go's conversion uint64(v) of an int64 and back. */
  function ToUnsigned(v: Int64): (u: UInt64) {
    if v < 0 then v + 0x1_0000_0000_0000_0000 else v
  }

  function ToSigned(u: UInt64): (v: Int64)
    ensures ToUnsigned(v) == u
  {
    if u >= 0x8000_0000_0000_0000 then u - 0x1_0000_0000_0000_0000 else u
  }

  /** Overwriting a range of a buffer. */
  function Splice(d: seq<Byte>, off: nat, b: seq<Byte>): (r: seq<Byte>)
    requires off + |b| <= |d|
    ensures |r| == |d|
    ensures forall i :: 0 <= i < |d| ==> r[i] == if off <= i < off + |b| then b[i - off] else d[i]
  {
    d[..off] + b + d[off + |b|..]
  }
}
