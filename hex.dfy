/** Hex strings of the form `0x${string}`, the conversion of a bigint with
    `toString(16)`, the normalisation that `rollTheDice` applies to every
    header value, and the hex-to-bytes conversion applied before RLP. */
module Hex {
  import opened Bytes

  predicate IsHexDigit(c: char)
  {
    '0' <= c <= '9' || 'a' <= c <= 'f' || 'A' <= c <= 'F'
  }

  predicate AllHexDigits(d: string)
  {
    forall i :: 0 <= i < |d| ==> IsHexDigit(d[i])
  }

  predicate IsHexString(s: string)
  {
    |s| >= 2 && s[0] == '0' && s[1] == 'x' && AllHexDigits(s[2..])
  }

  /** A `0x`-prefixed string of hex digits (either case). */
  type Hex = s: string | IsHexString(s) witness "0x"

  function DigitValue(c: char): (d: nat)
    requires IsHexDigit(c)
    ensures d < 16
    ensures d == 0 <==> c == '0'
  {
    if '0' <= c <= '9' then c as int - '0' as int
    else if 'a' <= c <= 'f' then c as int - 'a' as int + 10
    else c as int - 'A' as int + 10
  }

  /** The lower-case digit that `toString(16)` writes for `d`. */
  function DigitChar(d: nat): (c: char)
    requires d < 16
    ensures IsHexDigit(c) && DigitValue(c) == d
    ensures !('A' <= c <= 'F')
  {
    if d < 10 then ('0' as int + d) as char else ('a' as int + d - 10) as char
  }

  /** The number a string of hex digits denotes, most significant first. */
  function DigitsValue(d: string): nat
    requires AllHexDigits(d)
  {
    if d == [] then 0 else DigitsValue(d[..|d| - 1]) * 16 + DigitValue(d[|d| - 1])
  }

  /** The number a hex string denotes (`0x` denotes zero). */
  function HexValue(v: Hex): nat
  {
    DigitsValue(v[2..])
  }

  /** `n.toString(16)`: the shortest lower-case digit string denoting `n`,
      which is "0" for zero and has no leading zero otherwise. */
  function ToHex(n: nat): (r: string)
    ensures |r| >= 1 && AllHexDigits(r)
    ensures forall i :: 0 <= i < |r| ==> !('A' <= r[i] <= 'F')
    ensures DigitsValue(r) == n
    ensures n == 0 ==> r == "0"
    ensures n > 0 ==> r[0] != '0'
    decreases n
  {
    if n < 16 then [DigitChar(n)]
    else
      var r := ToHex(n / 16) + [DigitChar(n % 16)];
      assert r[..|r| - 1] == ToHex(n / 16);
      r
  }

  /** The template literal `0x${n.toString(16)}`. */
  function ScalarHex(n: nat): Hex
  {
    var r := "0x" + ToHex(n);
    assert r[2..] == ToHex(n);
    r
  }

  /** `0x${n.toString(16)}` is a hex string denoting `n`, with at least one
      lower-case digit and no leading zero digit unless `n` is zero. */
  lemma ScalarHexValue(n: nat)
    ensures ScalarHex(n)[2..] == ToHex(n) && |ScalarHex(n)| >= 3
    ensures HexValue(ScalarHex(n)) == n
    ensures forall i :: 2 <= i < |ScalarHex(n)| ==> !('A' <= ScalarHex(n)[i] <= 'F')
    ensures n == 0 <==> ScalarHex(n) == "0x0"
    ensures n > 0 ==> ScalarHex(n)[2] != '0'
  {
    var r := ScalarHex(n);
    assert r[2..] == ToHex(n);
    assert forall i :: 2 <= i < |r| ==> r[i] == ToHex(n)[i - 2];
    if r == "0x0" {
      assert ToHex(n) == "0";
      assert DigitsValue("0") == 0 by { assert "0"[..0] == []; }
    }
  }

  /** A leading zero digit does not change the value. */
  lemma {:induction false} LeadingZeroValue(d: string)
    requires AllHexDigits(d)
    ensures AllHexDigits("0" + d) && DigitsValue("0" + d) == DigitsValue(d)
    decreases |d|
  {
    var z := "0" + d;
    assert forall i :: 0 <= i < |z| ==> IsHexDigit(z[i]) by {
      forall i | 0 <= i < |z| ensures IsHexDigit(z[i]) {
        if i > 0 { assert z[i] == d[i - 1]; }
      }
    }
    if d != [] {
      assert z[..|z| - 1] == "0" + d[..|d| - 1];
      LeadingZeroValue(d[..|d| - 1]);
    }
  }

  /** One step of the loop in `rollTheDice`: "0x0" becomes "0x", and an
      odd-length string gets one zero digit after the prefix. The result
      has whole bytes, is never "0x0" and denotes the same number; an
      even-length string is left alone. */
  function Normalize(v: Hex): (r: Hex)
    ensures |r| % 2 == 0 && r != "0x0"
    ensures HexValue(r) == HexValue(v)
    ensures |v| % 2 == 0 ==> r == v
    ensures v == "0x0" ==> r == "0x"
    ensures |v| % 2 == 1 && v != "0x0" ==> r == "0x0" + v[2..]
  {
    var z: Hex := if v == "0x0" then "0x" else v;
    assert v == "0x0" ==> HexValue(v) == 0 == HexValue(z) by {
      if v == "0x0" { assert v[2..] == "0"; assert "0"[..0] == []; }
    }
    if |z| % 2 == 1 then
      var r := "0x0" + z[2..];
      LeadingZeroValue(z[2..]);
      assert r[2..] == "0" + z[2..];
      r
    else z
  }

  /** Applying the normalisation a second time changes nothing. */
  lemma NormalizeIdempotent(v: Hex)
    ensures Normalize(Normalize(v)) == Normalize(v)
  {
  }

  /** Pairs of hex digits read as bytes, most significant first. */
  function PairsToBytes(d: string): (r: seq<Byte>)
    requires AllHexDigits(d) && |d| % 2 == 0
    ensures |r| == |d| / 2
    ensures FromBE(r) == DigitsValue(d)
    decreases |d|
  {
    if d == [] then []
    else
      var init := d[..|d| - 2];
      var hi, lo := DigitValue(d[|d| - 2]), DigitValue(d[|d| - 1]);
      var r := PairsToBytes(init) + [hi * 16 + lo];
      assert r[..|r| - 1] == PairsToBytes(init);
      assert d[..|d| - 1][..|d| - 2] == init;
      assert DigitsValue(d) == DigitsValue(init) * 256 + (hi * 16 + lo);
      r
  }

  /** The first byte comes from the first two digits. */
  lemma {:induction false} PairsToBytesFirst(d: string)
    requires AllHexDigits(d) && |d| % 2 == 0 && |d| >= 2
    ensures PairsToBytes(d)[0] == DigitValue(d[0]) * 16 + DigitValue(d[1])
    decreases |d|
  {
    if |d| > 2 {
      var init := d[..|d| - 2];
      PairsToBytesFirst(init);
    }
  }

  /** viem's `hexToBytes` on a whole-byte hex string. */
  function HexToBytes(v: Hex): (r: seq<Byte>)
    requires |v| % 2 == 0
    ensures |r| == (|v| - 2) / 2
    ensures FromBE(r) == HexValue(v)
  {
    PairsToBytes(v[2..])
  }

  /** For a positive `n`, the normalised `0x${n.toString(16)}` starts with
      a non-zero byte. */
  lemma {:induction false} NormalizedScalarLeadingByte(n: nat)
    requires n > 0
    ensures var s := Normalize(ScalarHex(n));
      |s| >= 4 && HexToBytes(s)[0] != 0
  {
    var v := ScalarHex(n);
    var s := Normalize(v);
    var t := ToHex(n);
    assert v[2..] == t;
    assert v != "0x0" by { assert |v| == 3 ==> v[2] == t[0] != '0'; }
    var d := s[2..];
    if |v| % 2 == 1 {
      assert s == "0x0" + t;
      assert d[0] == '0' && d[1] == t[0];
    } else {
      assert d == t && |t| >= 2;
    }
    PairsToBytesFirst(d);
  }

  /** Normalising `0x${n.toString(16)}` yields "0x" for zero and otherwise an
      even-length string denoting `n` whose first byte is not zero; its bytes
      are exactly the minimal big-endian encoding of `n`. */
  lemma NormalizedScalar(n: nat)
    ensures var s := Normalize(ScalarHex(n));
      |s| % 2 == 0 && HexValue(s) == n && (n == 0 <==> s == "0x") &&
      HexToBytes(s) == BE(n)
  {
    var s := Normalize(ScalarHex(n));
    var r := HexToBytes(s);
    assert HexValue(ScalarHex(n)) == n by {
      assert ScalarHex(n)[2..] == ToHex(n);
    }
    if n == 0 {
      assert ScalarHex(0) == "0x0";
    } else {
      NormalizedScalarLeadingByte(n);
    }
    BEOfFromBE(r);
  }
}
