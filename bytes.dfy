/** Bytes and their big-endian reading as natural numbers. */
module Bytes {
  newtype byte = x: int | 0 <= x < 256

  /** 256 to the power k: one more than the largest value k bytes can hold. */
  function Pow256(k: nat): (r: nat)
    ensures r >= 1
  {
    if k == 0 then 1 else 256 * Pow256(k - 1)
  }

  /** The bytes read as a big-endian unsigned number (first byte most significant). */
  function BigEndian(s: seq<byte>): (v: nat)
    ensures v < Pow256(|s|)
  {
    if s == [] then 0
    else
      var high := BigEndian(s[..|s| - 1]);
      assert high * 256 <= (Pow256(|s| - 1) - 1) * 256;
      high * 256 + s[|s| - 1] as nat
  }

  /** The k-byte big-endian encoding of v; the inverse of BigEndian. */
  function ToBigEndian(v: nat, k: nat): (s: seq<byte>)
    requires v < Pow256(k)
    ensures |s| == k
  {
    if k == 0 then []
    else
      DivBound(v, Pow256(k - 1));
      ToBigEndian(v / 256, k - 1) + [(v % 256) as byte]
  }

  lemma DivBound(v: nat, p: nat)
    requires v < 256 * p
    ensures v / 256 < p
  {
  }

  /** Encoding a number and reading it back gives the number. */
  lemma {:induction false} BigEndianOfToBigEndian(v: nat, k: nat)
    requires v < Pow256(k)
    ensures BigEndian(ToBigEndian(v, k)) == v
  {
    if k > 0 {
      var s := ToBigEndian(v, k);
      DivBound(v, Pow256(k - 1));
      BigEndianOfToBigEndian(v / 256, k - 1);
      assert s[..k - 1] == ToBigEndian(v / 256, k - 1);
    }
  }

  /** Reading bytes as a number and encoding it at the same width gives the bytes back. */
  lemma {:induction false} ToBigEndianOfBigEndian(s: seq<byte>)
    ensures ToBigEndian(BigEndian(s), |s|) == s
  {
    if s != [] {
      var init, last := s[..|s| - 1], s[|s| - 1];
      ToBigEndianOfBigEndian(init);
      var v := BigEndian(s);
      assert v == BigEndian(init) * 256 + last as nat;
      assert v / 256 == BigEndian(init) && v % 256 == last as nat;
      assert s == init + [last];
    }
  }

  /** Bytes that are all zero read as 0. */
  lemma {:induction false} ZeroBytes(s: seq<byte>)
    requires forall i :: 0 <= i < |s| ==> s[i] == 0
    ensures BigEndian(s) == 0
  {
    if s != [] {
      ZeroBytes(s[..|s| - 1]);
    }
  }

  /** Eight bytes always fit an unsigned 64-bit integer. */
  lemma Pow256Eight()
    ensures Pow256(8) == 0x1_0000_0000_0000_0000
  {
  }

  /** Widths add: a+b bytes hold as many values as a bytes times b bytes. */
  lemma {:induction false} Pow256Add(a: nat, b: nat)
    ensures Pow256(a + b) == Pow256(a) * Pow256(b)
  {
    if a > 0 {
      Pow256Add(a - 1, b);
    }
  }

  /** Thirty-two bytes always fit below 2^256. */
  lemma Pow256ThirtyTwo()
    ensures Pow256(32) == 0x1_0000_0000_0000_0000_0000_0000_0000_0000_0000_0000_0000_0000_0000_0000_0000_0000
  {
    Pow256Eight();
    Pow256Add(8, 8);
    Pow256Add(16, 16);
  }
}
