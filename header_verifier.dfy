/** The block-header re-encoding and verification guard of `rollTheDice`:
    collect the header values in Yellow Paper order (section 4.3), normalise
    them to whole bytes, RLP-encode the list, hash it, and submit the
    encoding only when the hash is the block's reported hash. */
module HeaderVerifier {
  import opened Wrappers
  import opened Bytes
  import opened Hex
  import opened Rlp

  /** The block as the RPC client returns it, restricted to the header
      fields the page reads. Scalars are bigints, the rest hex strings; the
      base fee and withdrawals root exist only after the London and Shanghai
      upgrades. Later header fields are not read by the page and are not
      part of this record. */
  datatype Block = Block(
    hash: Hex,
    parentHash: Hex,
    sha3Uncles: Hex,
    miner: Hex,
    stateRoot: Hex,
    transactionsRoot: Hex,
    receiptsRoot: Hex,
    logsBloom: Hex,
    difficulty: nat,
    number: nat,
    gasLimit: nat,
    gasUsed: nat,
    timestamp: nat,
    extraData: Hex,
    mixHash: Hex,
    nonce: Hex,
    baseFeePerGas: Option<nat>,
    withdrawalsRoot: Option<Hex>)

  /** The header fields, named as in section 4.3 of the Yellow Paper. */
  datatype Field =
    | ParentHash | OmmersHash | Beneficiary | StateRoot | TransactionsRoot
    | ReceiptsRoot | LogsBloom | Difficulty | Number | GasLimit | GasUsed
    | Timestamp | ExtraData | MixHash | Nonce | BaseFee | WithdrawalsRoot

  /** The fifteen fields every header has, in hashing order. */
  const RequiredFields: seq<Field> := [
    ParentHash, OmmersHash, Beneficiary, StateRoot, TransactionsRoot,
    ReceiptsRoot, LogsBloom, Difficulty, Number, GasLimit, GasUsed,
    Timestamp, ExtraData, MixHash, Nonce]

  /** The hashing order up to the Shanghai fields: the required fields,
      then the fields added by the London and Shanghai upgrades. Fields
      added by later upgrades are not listed. */
  const YellowPaperOrder: seq<Field> := RequiredFields + [BaseFee, WithdrawalsRoot]

  predicate Present(b: Block, f: Field)
  {
    match f
    case BaseFee => b.baseFeePerGas.Some?
    case WithdrawalsRoot => b.withdrawalsRoot.Some?
    case _ => true
  }

  /** The hex value the page takes for a field: hex strings as given,
      bigints through `0x${x.toString(16)}`. */
  function FieldValue(b: Block, f: Field): Hex
    requires Present(b, f)
  {
    match f
    case ParentHash => b.parentHash
    case OmmersHash => b.sha3Uncles
    case Beneficiary => b.miner
    case StateRoot => b.stateRoot
    case TransactionsRoot => b.transactionsRoot
    case ReceiptsRoot => b.receiptsRoot
    case LogsBloom => b.logsBloom
    case Difficulty => ScalarHex(b.difficulty)
    case Number => ScalarHex(b.number)
    case GasLimit => ScalarHex(b.gasLimit)
    case GasUsed => ScalarHex(b.gasUsed)
    case Timestamp => ScalarHex(b.timestamp)
    case ExtraData => b.extraData
    case MixHash => b.mixHash
    case Nonce => b.nonce
    case BaseFee => ScalarHex(b.baseFeePerGas.value)
    case WithdrawalsRoot => b.withdrawalsRoot.value
  }

  /** The fields of `order` that the block has, in the same order. */
  function PresentIn(b: Block, order: seq<Field>): (r: seq<Field>)
    ensures forall i :: 0 <= i < |r| ==> Present(b, r[i])
  {
    if order == [] then []
    else (if Present(b, order[0]) then [order[0]] else []) + PresentIn(b, order[1..])
  }

  /** The fields that enter the hash: those the block has, in Yellow Paper order. */
  function PresentFields(b: Block): seq<Field>
  {
    PresentIn(b, YellowPaperOrder)
  }

  /** The fifteen values every header contributes, in the page's order. */
  function RequiredValues(b: Block): (r: seq<Hex>)
    ensures |r| == 15
  {
    [b.parentHash, b.sha3Uncles, b.miner, b.stateRoot, b.transactionsRoot,
     b.receiptsRoot, b.logsBloom, ScalarHex(b.difficulty), ScalarHex(b.number),
     ScalarHex(b.gasLimit), ScalarHex(b.gasUsed), ScalarHex(b.timestamp),
     b.extraData, b.mixHash, b.nonce]
  }

  /** The trailing values: the base fee only when the block has one and it
      is not null, then the withdrawals root only when it is defined. */
  function OptionalValues(b: Block): (r: seq<Hex>)
    ensures |r| == (if b.baseFeePerGas.Some? then 1 else 0) + (if b.withdrawalsRoot.Some? then 1 else 0)
  {
    (if b.baseFeePerGas.Some? then [ScalarHex(b.baseFeePerGas.value)] else [])
    + (if b.withdrawalsRoot.Some? then [b.withdrawalsRoot.value] else [])
  }

  /** The header values as the page lists them, before normalisation. */
  function HeaderValues(b: Block): (r: seq<Hex>)
    ensures |r| == 15 + (if b.baseFeePerGas.Some? then 1 else 0) + (if b.withdrawalsRoot.Some? then 1 else 0)
  {
    RequiredValues(b) + OptionalValues(b)
  }

  /** The byte strings that are RLP-encoded: each value normalised and
      converted to bytes. */
  function HeaderBytes(b: Block): (r: seq<seq<Byte>>)
    ensures |r| == |HeaderValues(b)|
    ensures forall i :: 0 <= i < |r| ==> FromBE(r[i]) == HexValue(HeaderValues(b)[i])
  {
    var vs := HeaderValues(b);
    seq(|vs|, i requires 0 <= i < |vs| => HexToBytes(Normalize(vs[i])))
  }

  /** The encoding whose hash must match the block hash (None where RLP is
      undefined). */
  function EncodeHeader(b: Block): (r: Option<seq<Byte>>)
    ensures r.Some? <==> ItemsFit(HeaderBytes(b)) && |Payload(HeaderBytes(b))| < LengthLimit
    ensures r.Some? ==> r.value != [] && r.value[0] >= 0xc0
    ensures r.Some? ==> DecodeList(r.value) == Some(HeaderBytes(b))
  {
    var e := EncodeList(HeaderBytes(b));
    if e.Some? then RoundTrip(HeaderBytes(b)); e else e
  }

  lemma {:induction false} PresentInRequired(b: Block, order: seq<Field>)
    requires forall i :: 0 <= i < |order| ==> !order[i].BaseFee? && !order[i].WithdrawalsRoot?
    ensures PresentIn(b, order) == order
    decreases |order|
  {
    if order != [] {
      PresentInRequired(b, order[1..]);
    }
  }

  lemma {:induction false} PresentInAppend(b: Block, a: seq<Field>, c: seq<Field>)
    ensures PresentIn(b, a + c) == PresentIn(b, a) + PresentIn(b, c)
    decreases |a|
  {
    if a == [] {
      assert a + c == c;
    } else {
      assert (a + c)[0] == a[0];
      assert (a + c)[1..] == a[1..] + c;
      PresentInAppend(b, a[1..], c);
    }
  }

  /** The fifteen required fields always come first, then the base fee if
      the block has one, then the withdrawals root if it has one. */
  lemma PresentFieldsLayout(b: Block)
    ensures PresentFields(b) == RequiredFields
      + (if b.baseFeePerGas.Some? then [BaseFee] else [])
      + (if b.withdrawalsRoot.Some? then [WithdrawalsRoot] else [])
  {
    PresentInAppend(b, RequiredFields, [BaseFee, WithdrawalsRoot]);
    PresentInRequired(b, RequiredFields);
    assert [BaseFee, WithdrawalsRoot][1..] == [WithdrawalsRoot];
    assert [WithdrawalsRoot][1..] == [];
    assert PresentIn(b, [WithdrawalsRoot])
      == (if b.withdrawalsRoot.Some? then [WithdrawalsRoot] else []);
    assert PresentIn(b, [BaseFee, WithdrawalsRoot])
      == (if b.baseFeePerGas.Some? then [BaseFee] else []) + PresentIn(b, [WithdrawalsRoot]);
  }

  lemma RequiredValuesInOrder(b: Block)
    ensures RequiredValues(b) == seq(15, i requires 0 <= i < 15 => FieldValue(b, RequiredFields[i]))
  {
  }

  /** The page's list holds, position by position, the value of each field
      the block has, taken in Yellow Paper order: no field is missing,
      repeated or out of place. */
  lemma HeaderValuesInHashingOrder(b: Block)
    ensures var vs, fs := HeaderValues(b), PresentFields(b);
      |vs| == |fs| && forall i :: 0 <= i < |vs| ==> vs[i] == FieldValue(b, fs[i])
  {
    PresentFieldsLayout(b);
    var vs, fs := HeaderValues(b), PresentFields(b);
    forall i | 0 <= i < |vs| ensures vs[i] == FieldValue(b, fs[i]) {
      if i < 15 {
        assert fs[i] == RequiredFields[i];
        assert vs[i] == RequiredValues(b)[i];
        RequiredValuesInOrder(b);
      } else if i == 15 && b.baseFeePerGas.Some? {
        assert fs[i] == BaseFee;
        assert vs[i] == OptionalValues(b)[0];
      } else {
        assert fs[i] == WithdrawalsRoot;
        assert vs[i] == OptionalValues(b)[|OptionalValues(b)| - 1];
      }
    }
  }

  /** Each entry reaching the encoder is the bytes of the normalised value
      at the same position. */
  lemma HeaderBytesAt(b: Block, i: nat)
    requires i < |HeaderValues(b)|
    ensures HeaderBytes(b)[i] == HexToBytes(Normalize(HeaderValues(b)[i]))
  {
  }

  /** A scalar listed through `0x${n.toString(16)}` reaches the encoder as
      the minimal big-endian bytes of `n`. */
  lemma ScalarBytesAt(b: Block, i: nat, n: nat)
    requires i < |HeaderValues(b)| && HeaderValues(b)[i] == ScalarHex(n)
    ensures HeaderBytes(b)[i] == BE(n)
  {
    HeaderBytesAt(b, i);
    NormalizedScalar(n);
  }

  /** Every scalar reaches the encoder as its minimal big-endian bytes
      (empty for zero), as Appendix B of the Yellow Paper requires. */
  lemma ScalarFieldBytes(b: Block)
    ensures HeaderBytes(b)[7] == BE(b.difficulty) && HeaderBytes(b)[8] == BE(b.number)
    ensures HeaderBytes(b)[9] == BE(b.gasLimit) && HeaderBytes(b)[10] == BE(b.gasUsed)
    ensures HeaderBytes(b)[11] == BE(b.timestamp)
  {
    var vs := HeaderValues(b);
    var rs := RequiredValues(b);
    assert vs[7] == rs[7] == ScalarHex(b.difficulty);
    assert vs[8] == rs[8] == ScalarHex(b.number);
    assert vs[9] == rs[9] == ScalarHex(b.gasLimit);
    assert vs[10] == rs[10] == ScalarHex(b.gasUsed);
    assert vs[11] == rs[11] == ScalarHex(b.timestamp);
    ScalarBytesAt(b, 7, b.difficulty);
    ScalarBytesAt(b, 8, b.number);
    ScalarBytesAt(b, 9, b.gasLimit);
    ScalarBytesAt(b, 10, b.gasUsed);
    ScalarBytesAt(b, 11, b.timestamp);
  }

  /** The base fee, when present, reaches the encoder as its minimal
      big-endian bytes right after the fifteen required fields. */
  lemma BaseFeeBytes(b: Block)
    requires b.baseFeePerGas.Some?
    ensures HeaderBytes(b)[15] == BE(b.baseFeePerGas.value)
  {
    assert HeaderValues(b)[15] == OptionalValues(b)[0] == ScalarHex(b.baseFeePerGas.value);
    ScalarBytesAt(b, 15, b.baseFeePerGas.value);
  }

  /** Every even-length value — which covers the 32-byte hashes, the
      20-byte beneficiary, the 256-byte bloom and the 8-byte nonce — reaches
      the encoder as its own bytes, unchanged by normalisation. */
  lemma EvenValueBytes(b: Block)
    ensures forall i :: 0 <= i < |HeaderValues(b)| && |HeaderValues(b)[i]| % 2 == 0 ==>
      HeaderBytes(b)[i] == HexToBytes(HeaderValues(b)[i])
  {
    forall i | 0 <= i < |HeaderValues(b)| && |HeaderValues(b)[i]| % 2 == 0
      ensures HeaderBytes(b)[i] == HexToBytes(HeaderValues(b)[i])
    {
      HeaderBytesAt(b, i);
    }
  }

  /** Two blocks with the same encoding agree on every scalar, on the bytes
      of every field, and on how many optional fields they carry: changing a
      scalar, or adding or dropping a trailing field, changes the bytes
      that are hashed. */
  lemma EncodingDeterminesHeader(b1: Block, b2: Block)
    requires EncodeHeader(b1).Some? && EncodeHeader(b1) == EncodeHeader(b2)
    ensures HeaderBytes(b1) == HeaderBytes(b2)
    ensures b1.difficulty == b2.difficulty && b1.number == b2.number
    ensures b1.gasLimit == b2.gasLimit && b1.gasUsed == b2.gasUsed && b1.timestamp == b2.timestamp
    ensures |PresentFields(b1)| == |PresentFields(b2)|
    ensures b1.baseFeePerGas.Some? && b2.baseFeePerGas.Some? ==> b1.baseFeePerGas == b2.baseFeePerGas
  {
    var bs1, bs2 := HeaderBytes(b1), HeaderBytes(b2);
    EncodeListInjective(bs1, bs2);
    assert bs1 == bs2;
    ScalarFieldBytes(b1);
    ScalarFieldBytes(b2);
    BEInjective(b1.difficulty, b2.difficulty);
    BEInjective(b1.number, b2.number);
    BEInjective(b1.gasLimit, b2.gasLimit);
    BEInjective(b1.gasUsed, b2.gasUsed);
    BEInjective(b1.timestamp, b2.timestamp);
    if b1.baseFeePerGas.Some? && b2.baseFeePerGas.Some? {
      BaseFeeBytes(b1);
      BaseFeeBytes(b2);
      BEInjective(b1.baseFeePerGas.value, b2.baseFeePerGas.value);
    }
    HeaderValuesInHashingOrder(b1);
    HeaderValuesInHashingOrder(b2);
  }

  /** The loop of `rollTheDice` that rewrites each value in place: "0x0"
      becomes "0x", then an odd-length value gets a zero digit after the
      prefix. Every entry stays at its position. */
  method NormalizeValues(input: seq<Hex>) returns (values: seq<Hex>)
    ensures |values| == |input|
    ensures forall i :: 0 <= i < |values| ==> values[i] == Normalize(input[i])
    ensures forall i :: 0 <= i < |values| ==> |values[i]| % 2 == 0 && values[i] != "0x0"
  {
    values := input;
    var i := 0;
    while i < |values|
      invariant 0 <= i <= |values| == |input|
      invariant forall k :: 0 <= k < i ==> values[k] == Normalize(input[k])
      invariant forall k :: i <= k < |values| ==> values[k] == input[k]
    {
      if values[i] == "0x0" {
        values := values[i := "0x"];
      }
      if |values[i]| % 2 == 1 {
        values := values[i := "0x0" + values[i][2..]];
      }
      i := i + 1;
    }
  }

  /** The successive `push` calls of `rollTheDice`: the header values in
      hashing order, an optional field pushed only when the block has it. */
  method CollectValues(b: Block) returns (values: seq<Hex>)
    ensures values == HeaderValues(b)
  {
    values := [];
    values := values + [b.parentHash];
    values := values + [b.sha3Uncles];
    values := values + [b.miner];
    values := values + [b.stateRoot];
    values := values + [b.transactionsRoot];
    values := values + [b.receiptsRoot];
    values := values + [b.logsBloom];
    assert values == [b.parentHash, b.sha3Uncles, b.miner, b.stateRoot, b.transactionsRoot,
      b.receiptsRoot, b.logsBloom];
    values := values + [ScalarHex(b.difficulty)];
    values := values + [ScalarHex(b.number)];
    values := values + [ScalarHex(b.gasLimit)];
    values := values + [ScalarHex(b.gasUsed)];
    values := values + [ScalarHex(b.timestamp)];
    values := values + [b.extraData];
    values := values + [b.mixHash];
    values := values + [b.nonce];
    assert values == RequiredValues(b);
    if b.baseFeePerGas.Some? {
      values := values + [ScalarHex(b.baseFeePerGas.value)];
    }
    if b.withdrawalsRoot.Some? {
      values := values + [b.withdrawalsRoot.value];
    }
  }

  /** What a roll attempt ends in. */
  datatype RollOutcome =
    | EncodingFailed           // the RLP encoder rejects a length of 2^64 or more
    | HashMismatch             // "Block hash mismatch": nothing is submitted
    | NoContract               // the contract handle is undefined: nothing is submitted
    | Submitted(payload: seq<Byte>)  // the bytes passed to the contract's rollTheDice

  /** `rollTheDice` after the block has been fetched: build the values,
      normalise them, encode, hash with `keccak`, and submit the encoding
      only when its hash is the block's hash. */
  method RollTheDice(b: Block, keccak: seq<Byte> -> Hex, contractAvailable: bool)
    returns (outcome: RollOutcome)
    ensures outcome == EncodingFailed <==> EncodeHeader(b).None?
    ensures outcome == HashMismatch <==> EncodeHeader(b).Some? && keccak(EncodeHeader(b).value) != b.hash
    ensures outcome.Submitted? <==>
      EncodeHeader(b).Some? && keccak(EncodeHeader(b).value) == b.hash && contractAvailable
    ensures outcome.Submitted? ==> outcome.payload == EncodeHeader(b).value && keccak(outcome.payload) == b.hash
  {
    var values := CollectValues(b);
    values := NormalizeValues(values);
    var items := seq(|values|, i requires 0 <= i < |values| => HexToBytes(values[i]));
    assert items == HeaderBytes(b);

    var encoded := EncodeList(items);
    if encoded.None? {
      return EncodingFailed;
    }
    var blockHash := keccak(encoded.value);
    if blockHash != b.hash {
      return HashMismatch;
    }
    if !contractAvailable {
      return NoContract;
    }
    outcome := Submitted(encoded.value);
  }
}
