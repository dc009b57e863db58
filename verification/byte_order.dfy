/** Fixed-width integers as bytes, most significant first, in two's
    complement: the layout `java.io.DataOutput.writeInt` and `writeLong`
    produce and `java.io.DataInput.readInt` and `readLong` consume. */
module ByteOrder {
  import opened Common

  function Pow256(n: nat): (p: nat)
    ensures p > 0
  {
    if n == 0 then 1 else 256 * Pow256(n - 1)
  }

  /** The low `n` bytes of `v`, most significant first. */
  function BigEndian(v: nat, n: nat): (bs: seq<UInt8>)
    ensures |bs| == n
  {
    if n == 0 then [] else BigEndian(v / 256, n - 1) + [v % 256]
  }

  /** The unsigned value of a big-endian byte string. */
  function FromBigEndian(bs: seq<UInt8>): (v: nat)
    ensures v < Pow256(|bs|)
  {
    if |bs| == 0 then 0 else FromBigEndian(bs[..|bs| - 1]) * 256 + bs[|bs| - 1]
  }

  lemma {:induction false} FromBigEndianInverse(v: nat, n: nat)
    requires v < Pow256(n)
    ensures FromBigEndian(BigEndian(v, n)) == v
  {
    if n > 0 {
      var bs := BigEndian(v, n);
      assert bs[..|bs| - 1] == BigEndian(v / 256, n - 1);
      DivBelow(v, Pow256(n - 1));
      FromBigEndianInverse(v / 256, n - 1);
      assert v == v / 256 * 256 + v % 256;
    }
  }

  lemma DivBelow(v: nat, p: nat)
    requires v < 256 * p
    ensures v / 256 < p
  {
  }

  /** `v` fits a signed `width`-byte integer: twice `v` lies in
      [-256^width, 256^width). */
  predicate FitsSigned(v: int, width: nat) {
    -(Pow256(width) as int) <= 2 * v < Pow256(width)
  }

  /** The two's-complement bytes of a signed `width`-byte integer. */
  function SignedBytes(v: int, width: nat): (bs: seq<UInt8>)
    requires width > 0 && FitsSigned(v, width)
    ensures |bs| == width
  {
    BigEndian(if v < 0 then v + Pow256(width) else v, width)
  }

  /** The signed value of `width` two's-complement bytes. */
  function FromSignedBytes(bs: seq<UInt8>): (v: int)
    requires |bs| > 0
    ensures FitsSigned(v, |bs|)
  {
    var u := FromBigEndian(bs);
    if 2 * u >= Pow256(|bs|) then u - Pow256(|bs|) else u
  }

  lemma SignedBytesInverse(v: int, width: nat)
    requires width > 0 && FitsSigned(v, width)
    ensures FromSignedBytes(SignedBytes(v, width)) == v
  {
    FromBigEndianInverse(if v < 0 then v + Pow256(width) else v, width);
  }
}
