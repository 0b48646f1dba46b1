# Dice game: header verification and betting window

A model of the two pieces of logic in the dice game's home page
(`packages/nextjs/pages/index.tsx`). The game is a commit/reveal bet on a
future block hash.

- **Roll guard** (`rollTheDice`). The page lists the target block's header
  fields up to the withdrawals root as hex strings, in the order of section
  4.3 of the Ethereum Yellow Paper. The base fee and the withdrawals root
  are included only when present.
  It normalises each entry to whole bytes (`"0x0"` becomes `"0x"`, and an
  odd-length string gets one `0` digit after the prefix). It then RLP-encodes
  the list, hashes it with Keccak-256, and sends the encoded bytes to the
  contract only when that hash is the block's reported hash.
- **Betting window.** These are the flags derived from the current block
  number, the target block (`betBlock + futureBlocks`) and the account's bet
  record: "wait to roll", "window missed", "roll disabled" and "bet
  disabled". Absent block numbers, or ones equal to `0n`, leave rolling disabled.
  The bet button also checks that the guess is between 0 and 15.

Modules:

- `Wrappers`: `Option`, for JavaScript's `undefined`/`null`.
- `Bytes`: bytes, and the minimal big-endian scalar encoding (`BE` of Appendix B of the Yellow Paper). Includes the proof that this encoding is the only one without a leading zero byte.
- `Hex`: `0x`-prefixed hex strings, `n.toString(16)`, the per-entry normalisation, and the hex-to-bytes step of `toRlp`.
- `Rlp`: Recursive Length Prefix encoding (Appendix B of the Yellow Paper) of byte strings and of a flat list of them. It comes with a decoder, and with proofs that decoding inverts encoding and that encoding is injective.
- `HeaderVerifier`: the block record, the field list, the normalisation loop (a method over the list, rewriting entry `i` in place), the header encoding, and `RollTheDice`.
- `BettingWindow`: the window and bet flags. `Betted` (a record with a positive bet block) and `Rolled` (a record with its rolled flag set) are the values that the effect at lines 94-105 stores.

Keccak-256 is a parameter of `RollTheDice` (`keccak: seq<Byte> -> Hex`), so
every property proved holds for any hash function. The hash comparison is
the string comparison of the page.

Notes on the page:

- The "window missed" flag needs only a bet record (`betData !== undefined`, line 111), not a placed bet.
- "Bet disabled" is `isLoading || isMining || (betted && !missed && !rolled)` (line 122).
- `rollTheDice` returns nothing: on a hash mismatch it shows an error and stops (lines 172-175). `RollTheDice` reports which branch was taken as a `RollOutcome` value.

## Model

| member | source | states |
|---|---|---|
| `Hex.ToHex` | packages/nextjs/pages/index.tsx:140-144 | `n.toString(16)` is a non-empty lower-case digit string denoting `n`: "0" for zero, and no leading zero otherwise |
| `Hex.ScalarHexValue` | packages/nextjs/pages/index.tsx:140-149 | the template literal `0x${n.toString(16)}` is a hex string denoting `n`, lower-case, with at least one digit; it is "0x0" exactly for zero and otherwise has no leading zero digit |
| `Hex.Normalize` | packages/nextjs/pages/index.tsx:156-163 | one loop step: "0x0" becomes "0x", and an odd-length `0x`+h becomes `0x0`+h; the result has even length, is never "0x0", denotes the same number, and an even-length entry is unchanged |
| `Hex.NormalizeIdempotent` | packages/nextjs/pages/index.tsx:156-163 | normalising twice is the same as normalising once |
| `Hex.NormalizedScalarLeadingByte` | packages/nextjs/pages/index.tsx:140-163 | for `n > 0` the normalised `0x${n.toString(16)}` has at least one byte, and its first byte is non-zero |
| `Hex.NormalizedScalar` | packages/nextjs/pages/index.tsx:140-163 | the normalised `0x${n.toString(16)}` is "0x" exactly when `n = 0`; it has even length and denotes `n`, and its bytes are exactly the minimal big-endian encoding `BE(n)` |
| `Hex.HexToBytes` | packages/nextjs/pages/index.tsx:166 | a whole-byte hex string becomes half as many bytes with the same big-endian value |
| `Bytes.BE` | packages/nextjs/pages/index.tsx:140-144 | the scalar encoding is empty exactly for zero and never starts with a zero byte |
| `Bytes.FromBEOfBE` | packages/nextjs/pages/index.tsx:140-144 | reading the scalar encoding back gives the number |
| `Bytes.BEOfFromBE` | packages/nextjs/pages/index.tsx:140-144 | every byte string without a leading zero byte is the scalar encoding of its value, so the minimal encoding is unique |
| `Rlp.EncodeLength` | packages/nextjs/pages/index.tsx:166 | the RLP length header: the single byte `offset + len` up to 55 bytes; otherwise `offset + 55 + |BE(len)|` followed by `BE(len)`, at most 9 bytes in all |
| `Rlp.EncodeString` | packages/nextjs/pages/index.tsx:166 | an item's encoding is non-empty, starts below 0xc0 (a string, not a list) and ends with the string itself |
| `Rlp.EncodeList` | packages/nextjs/pages/index.tsx:166 | the list encoding is defined exactly when every length stays below 2^64, and then starts with a list prefix (at least 0xc0) |
| `Rlp.RoundTrip` | packages/nextjs/pages/index.tsx:166 | decoding a list encoding gives back the list of byte strings that produced it |
| `Rlp.EncodeListInjective` | packages/nextjs/pages/index.tsx:166 | two different lists never have the same encoding |
| `Rlp.CatDogExample` | packages/nextjs/pages/index.tsx:166 | ["cat", "dog"] encodes to c8 83 63 61 74 83 64 6f 67 |
| `HeaderVerifier.HeaderValues` | packages/nextjs/pages/index.tsx:132-153 | the list has 15 + [base fee present] + [withdrawals root present] entries |
| `HeaderVerifier.HeaderBytes` | packages/nextjs/pages/index.tsx:156-166 | the byte strings handed to `toRlp`: one per listed value, each with the same big-endian value as its hex entry |
| `HeaderVerifier.EncodeHeader` | packages/nextjs/pages/index.tsx:166 | `toRlp(values)` over the normalised list: defined exactly when every byte string and the concatenated payload stay below 2^64 bytes; when defined it is a list encoding (first byte at least 0xc0) that decodes back to exactly those byte strings |
| `HeaderVerifier.CollectValues` | packages/nextjs/pages/index.tsx:132-153 | the successive pushes build exactly the header value list |
| `HeaderVerifier.PresentFieldsLayout` | packages/nextjs/pages/index.tsx:132-153 | the fields that enter the hash are the fifteen required ones in Yellow Paper order, then the base fee only if present, then the withdrawals root last, only if present |
| `HeaderVerifier.HeaderValuesInHashingOrder` | packages/nextjs/pages/index.tsx:132-153 | at every position the page's list holds the value of the field that the Yellow Paper order puts there, and nothing else |
| `HeaderVerifier.ScalarFieldBytes` | packages/nextjs/pages/index.tsx:140-163 | difficulty, number, gas limit, gas used and timestamp reach the encoder as their minimal big-endian bytes, empty for zero |
| `HeaderVerifier.BaseFeeBytes` | packages/nextjs/pages/index.tsx:148-163 | a present base fee reaches the encoder, right after the required fields, as its minimal big-endian bytes |
| `HeaderVerifier.EvenValueBytes` | packages/nextjs/pages/index.tsx:156-166 | every even-length entry (the 32-byte hashes, the 20-byte beneficiary, the 256-byte bloom, the 8-byte nonce) reaches the encoder unchanged |
| `HeaderVerifier.EncodingDeterminesHeader` | packages/nextjs/pages/index.tsx:132-172 | two blocks with the same encoding agree on all byte entries, on every scalar, on the number of optional fields and on a base fee both carry; so changing any of them changes what is hashed |
| `HeaderVerifier.NormalizeValues` | packages/nextjs/pages/index.tsx:156-163 | the loop keeps the list's length and order, and replaces each entry by its normalisation, so every entry has even length and none is "0x0" |
| `HeaderVerifier.RollTheDice` | packages/nextjs/pages/index.tsx:166-181 | nothing is submitted when the encoding's hash differs from the block hash, or when the contract handle is absent; otherwise the submitted bytes are exactly the header encoding that was hashed, and their hash is the block hash |
| `BettingWindow.Betted` | packages/nextjs/pages/index.tsx:94-105 | `betted` holds exactly when a bet record is present and its bet block (`betData[1]`) is positive |
| `BettingWindow.Rolled` | packages/nextjs/pages/index.tsx:94-105 | `rolled` holds exactly when a bet record is present and its rolled flag (`betData[2]`) is set |
| `BettingWindow.NextTargetBlock` | packages/nextjs/pages/index.tsx:88-92 | with a bet record and a non-zero `futureBlocks`, the target is `futureBlocks` blocks after the bet block; otherwise the previous target is kept |
| `BettingWindow.Window` | packages/nextjs/pages/index.tsx:107-120 | absent or zero inputs give (no notice, not missed, disabled); otherwise the notice shows exactly while `current < target`, missed holds exactly when a bet record is present, unrolled and more than 256 blocks late, and rolling is disabled exactly when the notice shows, the window is missed or the bet was rolled; notice and missed exclude each other; an unrolled bet can be rolled exactly when `target <= current <= target + 256` |
| `BettingWindow.BetDisabled` | packages/nextjs/pages/index.tsx:122 | betting is enabled exactly when no bet transaction is loading or mining and there is no pending bet (none placed, missed, or rolled) |
| `BettingWindow.ValidBetNumber` | packages/nextjs/pages/index.tsx:220 | a guess is submitted exactly when it is present and one of 0..15 |
| `BettingWindow.PendingBetBlocksNewBet` | packages/nextjs/pages/index.tsx:94-122 | a placed, unrolled bet whose window is not marked missed blocks another bet, including while either block number is unknown |
| `BettingWindow.MissedWindowAllowsNewBet` | packages/nextjs/pages/index.tsx:107-122 | after a missed window a new bet is allowed once no transaction is in flight |
| `BettingWindow.WindowExamples` | packages/nextjs/pages/index.tsx:107-120 | for an unrolled bet with target 110: block 100 shows the notice and is disabled, 111 is enabled, 400 is missed and disabled |

## Left out

- React hooks, state setters, JSX and the Bets/Rolls/Winners event lists (lines 194-284): these are rendering, not logic. The flags are modelled as the values the effects would store.
- Fetching the block (`publicClient.getBlock`, line 128) is left out: the block is a parameter of `RollTheDice`. A block that is not yet mined, which makes that call fail, is therefore not modelled.
- The contract write, `writeTx` and the confirmation callbacks (lines 39-48, 180-190) are left out. `Submitted` marks the point where the write is issued. The callbacks' `setBetted(true)` and `setRolled(true)` are not modelled. Nor are the page flags `rolling` and `rollDisabled` set at lines 177-178 (on the `NoContract` path they stay set).
- Keccak-256 is an arbitrary function parameter. `EncodingDeterminesHeader` proves that two headers with the same encoding have the same field bytes, the same scalars, the same number of optional fields and the same base fee when both carry one. That a different encoding also has a different hash would need collision resistance, which is not modelled.
- `toRlp` is modelled by Appendix B of the Yellow Paper, with its limit of lengths below 2^64, restricted to one flat list of byte strings. viem's own implementation and its own size limits are not part of this model.
- `RollTheDice`: the `EncodingFailed` outcome stands for the encoder rejecting a length of 2^64 or more. The length limit of JavaScript strings is not modelled.
- Hex strings with characters other than hex digits, which viem rejects, are excluded by the `Hex` type. An odd-length string never reaches `HexToBytes`, because normalisation comes first.
- `HeaderVerifier.Block`: the page reads no header field after the withdrawals root (blob gas used, excess blob gas, parent beacon block root), and the model leaves them out. For a block that carries them, the page's list is not the full header, so its hash never equals the block hash and the page never submits.
- `HeaderVerifier.EncodingDeterminesHeader`: hex fields are compared by their bytes. Hex strings that differ only in letter case, or only by a leading zero digit on an odd-length string, give the same bytes and are not told apart. Nor is which optional field is present: a block carrying only a base fee `x` and a block carrying only a withdrawals root whose bytes are `BE(x)` give the same list of byte strings, so the same encoding.
- `ValidBetNumber` takes an optional integer. `Number(newNumber)` could also give a fraction or `NaN`, and that case is not modelled.
- `parseEther("0.001")`, `console.log` and `notification` calls: library conversion and output only.
- Pending blocks, whose `number` or `hash` is null in viem's types, are not modelled: `getBlock` by number returns a mined block.
