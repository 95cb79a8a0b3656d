/** Unsigned integers in network byte order. */
module NetworkOrder {
  import opened Common

  function BigEndian(n: nat, k: nat): (r: Bytes)
    ensures |r| == k
  {
    if k == 0 then [] else BigEndian(n / 256, k - 1) + [n % 256]
  }

  function FromBigEndian(bs: Bytes): nat {
    if bs == [] then 0 else FromBigEndian(bs[..|bs| - 1]) * 256 + bs[|bs| - 1]
  }

  function Pow256(k: nat): nat {
    if k == 0 then 1 else 256 * Pow256(k - 1)
  }

  lemma {:induction false} BigEndianInverse(n: nat, k: nat)
    requires n < Pow256(k)
    ensures FromBigEndian(BigEndian(n, k)) == n
  {
    if k > 0 {
      BigEndianInverse(n / 256, k - 1);
      assert BigEndian(n, k)[..k - 1] == BigEndian(n / 256, k - 1);
    }
  }

  lemma {:induction false} FromBigEndianInverse(bs: Bytes)
    ensures BigEndian(FromBigEndian(bs), |bs|) == bs
    ensures FromBigEndian(bs) < Pow256(|bs|)
  {
    if bs != [] {
      var front, last := bs[..|bs| - 1], bs[|bs| - 1] as int;
      FromBigEndianInverse(front);
      var n := FromBigEndian(bs);
      assert n == FromBigEndian(front) * 256 + last;
      assert n / 256 == FromBigEndian(front) && n % 256 == last;
      assert front + [bs[|bs| - 1]] == bs;
    }
  }

  /** The bytes of a number are those of its places, the most significant first. */
  lemma {:induction false} BigEndianPlaces(n: nat, k: nat)
    ensures forall i :: 0 <= i < k ==> BigEndian(n, k)[k - 1 - i] as int == Shift(n, Bytewise, i) % 256
  {
    if k > 0 {
      BigEndianPlaces(n / 256, k - 1);
      assert forall i :: 1 <= i < k ==> Shift(n, Bytewise, i) == Shift(n / 256, Bytewise, i - 1);
    }
  }
}
