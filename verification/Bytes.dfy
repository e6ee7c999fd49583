/** Little-endian numbers. */
module Bytes {
  type Byte = b: nat | b < 256

  function LittleEndian(n: nat, k: nat): (s: seq<Byte>)
    ensures |s| == k
  {
    if k == 0 then [] else [n % 256] + LittleEndian(n / 256, k - 1)
  }

  function Number(s: seq<Byte>): nat {
    if s == [] then 0 else s[0] + 256 * Number(s[1..])
  }

  function Range(k: nat): (r: nat)
    ensures r > 0
  {
    if k == 0 then 1 else 256 * Range(k - 1)
  }

  lemma {:induction false} NumberOfLittleEndian(n: nat, k: nat)
    requires n < Range(k)
    ensures Number(LittleEndian(n, k)) == n
  {
    if k > 0 {
      NumberOfLittleEndian(n / 256, k - 1);
    }
  }

  lemma {:induction false} LittleEndianOfNumber(s: seq<Byte>)
    ensures LittleEndian(Number(s), |s|) == s && Number(s) < Range(|s|)
  {
    if s != [] {
      LittleEndianOfNumber(s[1..]);
      assert Number(s) % 256 == s[0] && Number(s) / 256 == Number(s[1..]);
    }
  }

  /** One more byte at the high end. */
  lemma {:induction false} NumberTake(s: seq<Byte>, k: nat)
    requires k < |s|
    ensures Number(s[..k + 1]) == Number(s[..k]) + Range(k) * s[k]
  {
    var t := s[..k + 1];
    assert t != [] && Number(t) == t[0] + 256 * Number(t[1..]);
    if k > 0 {
      assert t[1..] == s[1..][..k] && s[..k][1..] == s[1..][..k - 1];
      NumberTake(s[1..], k - 1);
    }
  }

  lemma Ranges()
    ensures Range(0) == 1 && Range(1) == 0x100 && Range(2) == 0x1_0000 && Range(4) == 0x1_0000_0000
      && Range(8) == 0x1_0000_0000_0000_0000
  {
  }
}
