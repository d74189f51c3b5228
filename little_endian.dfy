/** Little-endian, two's-complement conversion between integers and bytes,
    as BinaryReader and BinaryWriter perform it for the fixed-width kinds. */
module LittleEndian {

  type Byte = b: int | 0 <= b < 0x100

  function Pow256(n: nat): (p: nat)
    ensures p >= 1
  {
    if n == 0 then 1 else 0x100 * Pow256(n - 1)
  }

  lemma Pow256Values()
    ensures Pow256(1) == 0x100 && Pow256(2) == 0x1_0000
    ensures Pow256(4) == 0x1_0000_0000 && Pow256(8) == 0x1_0000_0000_0000_0000
  {
  }

  /** The unsigned number whose little-endian representation is `bs`. */
  function Unsigned(bs: seq<Byte>): (v: nat)
    ensures v < Pow256(|bs|)
  {
    if bs == [] then 0 else bs[0] + 0x100 * Unsigned(bs[1..])
  }

  /** The `n` little-endian bytes of `v`; reading them back gives `v`. */
  function UnsignedBytes(v: nat, n: nat): (bs: seq<Byte>)
    requires v < Pow256(n)
    ensures |bs| == n && Unsigned(bs) == v
  {
    if n == 0 then [] else [v % 0x100] + UnsignedBytes(v / 0x100, n - 1)
  }

  /** Writing back what was read gives the same bytes. */
  lemma {:induction false} UnsignedBytesOfUnsigned(bs: seq<Byte>)
    ensures UnsignedBytes(Unsigned(bs), |bs|) == bs
  {
    if bs != [] {
      UnsignedBytesOfUnsigned(bs[1..]);
      var v := Unsigned(bs);
      assert v % 0x100 == bs[0] && v / 0x100 == Unsigned(bs[1..]);
    }
  }

  /** The two's-complement number whose little-endian representation is `bs`. */
  function Signed(bs: seq<Byte>): (v: int)
    ensures 0 <= Pow256(|bs|) + 2 * v && 2 * v < Pow256(|bs|)
  {
    var u := Unsigned(bs);
    if 2 * u < Pow256(|bs|) then u else u - Pow256(|bs|)
  }

  /** The `n` two's-complement little-endian bytes of `v`; reading them back gives `v`. */
  function SignedBytes(v: int, n: nat): (bs: seq<Byte>)
    requires 0 <= Pow256(n) + 2 * v && 2 * v < Pow256(n)
    ensures |bs| == n && Signed(bs) == v
  {
    UnsignedBytes(if v >= 0 then v else v + Pow256(n), n)
  }

  /** Writing back a two's-complement value that was read gives the same bytes. */
  lemma SignedBytesOfSigned(bs: seq<Byte>)
    ensures SignedBytes(Signed(bs), |bs|) == bs
  {
    UnsignedBytesOfUnsigned(bs);
  }

  /** Only the all-zero byte sequence reads as zero. */
  lemma UnsignedZero(bs: seq<Byte>)
    requires Unsigned(bs) == 0
    ensures forall i | 0 <= i < |bs| :: bs[i] == 0
  {
    UnsignedBytesOfUnsigned(bs);
    ZeroBytes(|bs|);
  }

  lemma {:induction false} ZeroBytes(n: nat)
    ensures forall i | 0 <= i < n :: UnsignedBytes(0, n)[i] == 0
  {
    if n > 0 {
      ZeroBytes(n - 1);
    }
  }
}
