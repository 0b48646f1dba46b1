/** Bytes and the big-endian scalar encoding used by Ethereum's header format
    (the function BE of the Ethereum Yellow Paper, Appendix B). */
module Bytes {

  type Byte = x: int | 0 <= x < 256

  /** The minimal big-endian byte string of `n`: empty for zero, and never
      starting with a zero byte otherwise. */
  function BE(n: nat): (r: seq<Byte>)
    ensures n == 0 <==> r == []
    ensures r != [] ==> r[0] != 0
    decreases n
  {
    if n == 0 then [] else BE(n / 256) + [n % 256]
  }

  /** The number a big-endian byte string denotes. */
  function FromBE(s: seq<Byte>): nat
  {
    if s == [] then 0 else FromBE(s[..|s| - 1]) * 256 + s[|s| - 1]
  }

  function Pow256(k: nat): (p: nat)
    ensures p > 0
  {
    if k == 0 then 1 else 256 * Pow256(k - 1)
  }

  /** Reading back the minimal encoding gives the number again. */
  lemma {:induction false} FromBEOfBE(n: nat)
    ensures FromBE(BE(n)) == n
    decreases n
  {
    if n > 0 {
      FromBEOfBE(n / 256);
      var r := BE(n);
      assert r[..|r| - 1] == BE(n / 256);
    }
  }

  /** Distinct numbers have distinct minimal encodings. */
  lemma BEInjective(m: nat, n: nat)
    requires BE(m) == BE(n)
    ensures m == n
  {
    FromBEOfBE(m);
    FromBEOfBE(n);
  }

  /** A byte string with a non-zero first byte denotes a positive number. */
  lemma {:induction false} FromBEPositive(s: seq<Byte>)
    requires s != [] && s[0] != 0
    ensures FromBE(s) > 0
    decreases |s|
  {
    if |s| > 1 {
      var init := s[..|s| - 1];
      assert init[0] == s[0];
      FromBEPositive(init);
    }
  }

  /** The minimal encoding is the only one: every byte string without a
      leading zero byte is the minimal encoding of the number it denotes. */
  lemma {:induction false} BEOfFromBE(s: seq<Byte>)
    requires s == [] || s[0] != 0
    ensures BE(FromBE(s)) == s
    decreases |s|
  {
    if s != [] {
      var init := s[..|s| - 1];
      var n := FromBE(s);
      FromBEPositive(s);
      assert n / 256 == FromBE(init) && n % 256 == s[|s| - 1];
      if init != [] {
        assert init[0] == s[0];
      }
      BEOfFromBE(init);
      assert s == init + [s[|s| - 1]];
    }
  }

  /** A number below 256^k needs at most k bytes. */
  lemma {:induction false} BELength(n: nat, k: nat)
    requires n < Pow256(k)
    ensures |BE(n)| <= k
    decreases k
  {
    if n > 0 {
      assert k > 0;
      assert n / 256 < Pow256(k - 1);
      BELength(n / 256, k - 1);
    }
  }
}
