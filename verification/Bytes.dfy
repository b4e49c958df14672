/** Bytes and little-endian numbers, shared by the patcher and the WAV recorder. */
module Bytes {

  type Byte = b: int | 0 <= b < 256

  /** 256 to the power k: the number of values k bytes can hold. */
  function Radix(k: nat): nat {
    if k == 0 then 1 else 256 * Radix(k - 1)
  }

  /** The number a byte string denotes, least significant byte first. */
  function Le(s: seq<Byte>): nat {
    if s == [] then 0 else s[0] + 256 * Le(s[1..])
  }

  /** The k bytes of n, least significant first (higher digits are dropped). */
  function LeBytes(n: nat, k: nat): (s: seq<Byte>)
    ensures |s| == k
  {
    if k == 0 then [] else [n % 256] + LeBytes(n / 256, k - 1)
  }

  lemma {:induction false} LeBound(s: seq<Byte>)
    ensures Le(s) < Radix(|s|)
  {
    if s != [] {
      LeBound(s[1..]);
    }
  }

  lemma LeStep(s: seq<Byte>, i: nat)
    requires i < |s|
    ensures Le(s[i..]) == s[i] + 256 * Le(s[i + 1..])
  {
    assert s[i..][1..] == s[i + 1..];
  }

  lemma {:induction false} LeOfLeBytes(n: nat, k: nat)
    requires n < Radix(k)
    ensures Le(LeBytes(n, k)) == n
  {
    if k > 0 {
      LeOfLeBytes(n / 256, k - 1);
      assert LeBytes(n, k)[1..] == LeBytes(n / 256, k - 1);
    }
  }

  lemma {:induction false} LeBytesOfLe(s: seq<Byte>)
    ensures LeBytes(Le(s), |s|) == s
  {
    if s != [] {
      LeBytesOfLe(s[1..]);
      assert Le(s) % 256 == s[0] && Le(s) / 256 == Le(s[1..]);
      assert s == [s[0]] + s[1..];
    }
  }

  lemma Radix8()
    ensures Radix(2) == 0x1_0000
    ensures Radix(4) == 0x1_0000_0000
    ensures Radix(8) == 0x1_0000_0000_0000_0000
  {
    assert Radix(1) == 256;
    assert Radix(3) == 256 * Radix(2);
    assert Radix(5) == 256 * Radix(4);
    assert Radix(6) == 256 * Radix(5);
    assert Radix(7) == 256 * Radix(6);
  }
}
