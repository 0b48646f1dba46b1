/** Recursive Length Prefix encoding (Ethereum Yellow Paper, Appendix B),
    restricted to what a block header needs: byte strings and one flat list
    of byte strings. A decoder for that shape serves as the encoder's
    inverse. */
module Rlp {
  import opened Wrappers
  import opened Bytes

  /** Appendix B defines the encoding only for lengths below 2^64. */
  const LengthLimit: nat := 0x1_0000_0000_0000_0000

  /** The length header: one byte `offset + len` for up to 55 bytes, else
      `offset + 55 + |BE(len)|` followed by BE(len). */
  function EncodeLength(len: nat, offset: Byte): (r: seq<Byte>)
    requires len < LengthLimit
    requires offset == 0x80 || offset == 0xc0
    ensures 1 <= |r| <= 9
    ensures len <= 55 ==> r == [offset + len]
    ensures len > 55 ==> offset + 55 < r[0] <= offset + 63 && r[1..] == BE(len) && r[0] - offset - 55 == |BE(len)|
  {
    if len <= 55 then [offset + len]
    else
      BELength(len, 8);
      assert Pow256(8) == LengthLimit;
      [offset + 55 + |BE(len)|] + BE(len)
  }

  /** A byte string: a single byte below 0x80 stands for itself, anything
      else gets a length header starting at 0x80. */
  function EncodeString(b: seq<Byte>): (r: seq<Byte>)
    requires |b| < LengthLimit
    ensures r != [] && r[0] < 0xc0
    ensures |b| <= |r| && r[|r| - |b|..] == b
  {
    if |b| == 1 && b[0] < 0x80 then b else EncodeLength(|b|, 0x80) + b
  }

  predicate ItemsFit(items: seq<seq<Byte>>)
  {
    forall i :: 0 <= i < |items| ==> |items[i]| < LengthLimit
  }

  /** The concatenated encodings of the items. */
  function Payload(items: seq<seq<Byte>>): seq<Byte>
    requires ItemsFit(items)
  {
    if items == [] then [] else EncodeString(items[0]) + Payload(items[1..])
  }

  /** A list of byte strings: a length header starting at 0xc0, then the
      payload; undefined (None) when a length reaches 2^64. */
  function EncodeList(items: seq<seq<Byte>>): (r: Option<seq<Byte>>)
    ensures r.Some? <==> ItemsFit(items) && |Payload(items)| < LengthLimit
    ensures r.Some? ==> r.value != [] && r.value[0] >= 0xc0
  {
    if ItemsFit(items) && |Payload(items)| < LengthLimit then
      var p := Payload(items);
      Some(EncodeLength(|p|, 0xc0) + p)
    else None
  }

  /** Reads one byte-string item from the front of `s`: the item and the
      number of bytes it used. */
  function DecodeString(s: seq<Byte>): (r: Option<(seq<Byte>, nat)>)
    ensures r.Some? ==> 0 < r.value.1 <= |s|
  {
    if s == [] then None
    else if s[0] < 0x80 then Some(([s[0]], 1))
    else if s[0] <= 0xb7 then
      var len := s[0] - 0x80;
      if 1 + len <= |s| then Some((s[1..1 + len], 1 + len)) else None
    else if s[0] < 0xc0 then
      var ll := s[0] - 0xb7;
      if 1 + ll <= |s| then
        var len := FromBE(s[1..1 + ll]);
        if 1 + ll + len <= |s| then Some((s[1 + ll..1 + ll + len], 1 + ll + len)) else None
      else None
    else None
  }

  /** Reads byte-string items until `s` is used up. */
  function DecodeItems(s: seq<Byte>): Option<seq<seq<Byte>>>
    decreases |s|
  {
    if s == [] then Some([])
    else match DecodeString(s)
      case None => None
      case Some((item, used)) =>
        match DecodeItems(s[used..])
        case None => None
        case Some(rest) => Some([item] + rest)
  }

  /** Reads a list header and the items of its payload; the header must
      account for exactly the whole input. */
  function DecodeList(e: seq<Byte>): Option<seq<seq<Byte>>>
  {
    if e == [] || e[0] < 0xc0 then None
    else if e[0] <= 0xf7 then
      if |e| == 1 + (e[0] - 0xc0) then DecodeItems(e[1..]) else None
    else
      var ll := e[0] - 0xf7;
      if 1 + ll <= |e| && |e| == 1 + ll + FromBE(e[1..1 + ll]) then DecodeItems(e[1 + ll..]) else None
  }

  /** An encoded string is read back whole, whatever follows it. */
  lemma DecodeEncodedString(b: seq<Byte>, rest: seq<Byte>)
    requires |b| < LengthLimit
    ensures DecodeString(EncodeString(b) + rest) == Some((b, |EncodeString(b)|))
  {
    var s := EncodeString(b) + rest;
    if |b| == 1 && b[0] < 0x80 {
      assert s[0] == b[0] && [s[0]] == b;
    } else if |b| <= 55 {
      assert s == [0x80 + |b|] + b + rest;
      assert s[1..1 + |b|] == b;
    } else {
      var h := EncodeLength(|b|, 0x80);
      var ll := |BE(|b|)|;
      assert s == h + b + rest;
      assert s[1..1 + ll] == BE(|b|);
      FromBEOfBE(|b|);
      assert s[1 + ll..1 + ll + |b|] == b;
    }
  }

  /** The payload of a list decodes to its items. */
  lemma {:induction false} DecodePayload(items: seq<seq<Byte>>)
    requires ItemsFit(items)
    ensures DecodeItems(Payload(items)) == Some(items)
    decreases |items|
  {
    if items != [] {
      var head := EncodeString(items[0]);
      var tail := Payload(items[1..]);
      DecodeEncodedString(items[0], tail);
      assert (head + tail)[|head|..] == tail;
      DecodePayload(items[1..]);
      assert [items[0]] + items[1..] == items;
    }
  }

  /** Decoding inverts encoding: a defined list encoding reads back as the
      list that produced it. */
  lemma RoundTrip(items: seq<seq<Byte>>)
    requires EncodeList(items).Some?
    ensures DecodeList(EncodeList(items).value) == Some(items)
  {
    var p := Payload(items);
    var e := EncodeList(items).value;
    var h := EncodeLength(|p|, 0xc0);
    assert e == h + p;
    DecodePayload(items);
    if |p| <= 55 {
      assert e[1..] == p;
    } else {
      var ll := |BE(|p|)|;
      assert e[1..1 + ll] == BE(|p|);
      FromBEOfBE(|p|);
      assert e[1 + ll..] == p;
    }
  }

  /** Different lists never share an encoding. */
  lemma EncodeListInjective(a: seq<seq<Byte>>, b: seq<seq<Byte>>)
    requires EncodeList(a).Some? && EncodeList(a) == EncodeList(b)
    ensures a == b
  {
    RoundTrip(a);
    RoundTrip(b);
  }

  /** The worked example of Appendix B's companion documentation:
      ["cat", "dog"] encodes to 0xc8 0x83 'c' 'a' 't' 0x83 'd' 'o' 'g'. */
  lemma CatDogExample()
    ensures EncodeList([[0x63, 0x61, 0x74], [0x64, 0x6f, 0x67]])
      == Some([0xc8, 0x83, 0x63, 0x61, 0x74, 0x83, 0x64, 0x6f, 0x67])
  {
    var items: seq<seq<Byte>> := [[0x63, 0x61, 0x74], [0x64, 0x6f, 0x67]];
    assert ItemsFit(items);
    assert EncodeString(items[0]) == [0x83, 0x63, 0x61, 0x74];
    assert EncodeString(items[1]) == [0x83, 0x64, 0x6f, 0x67];
    assert items[1..][1..] == [];
    var p: seq<Byte> := [0x83, 0x63, 0x61, 0x74, 0x83, 0x64, 0x6f, 0x67];
    assert Payload(items) == p;
    assert EncodeLength(|p|, 0xc0) == [0xc8];
    assert EncodeList(items) == Some([0xc8] + p);
    assert [0xc8] + p == [0xc8, 0x83, 0x63, 0x61, 0x74, 0x83, 0x64, 0x6f, 0x67];
  }
}
