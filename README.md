# TON NFT auction: message and fee-storage encoders

This project models the two cell serialisers of an NFT auction on TON:

- `encodeNFTOwnershipAssigned` (`src/encoder/msg.ts`) builds the body of the
  TEP-62 `ownership_assigned` notification: the 32-bit op `0x05138d91`, a 64-bit
  `query_id`, the previous owner as an `addr_std` address, and one bit selecting
  the inline branch of `forward_payload:(Either Cell ^Cell)`.
- `encodeStorage` (`src/encoder/storage.ts`) scales the marketplace and royalty
  fee percentages by the factor 10^9 and writes the fees cell:
  marketplace address, 32-bit numerator, 32-bit factor, then royalty address,
  32-bit numerator, 32-bit factor.

The cell builder of the `ton`/`ton3` libraries is modelled as the class
`Cells.Builder`. Its field `bits` is the bit buffer that each store call
appends to in place. A store call the library would throw on returns
`Fail` instead. `storeUint` throws on a value that does not fit its width.
Any store throws when the cell would exceed 1023 bits, the limit in section
3.1.1 of the TVM whitepaper. The encoders run the same chain of builder calls
as the source, with the same widths and constants. Each encoder is proved equal
to a specification function (`OwnershipAssignedBody`, `FeesCellOf`). That
function's layout, length and error cases are proved as lemmas, and so is its
round trip through a TL-B decoder written for this model.

Modules: `Bits` (big-endian unsigned integers, two's-complement `int8`, byte
buffers), `Cells` (cells, standard addresses, the builder, field readers),
`NftMessages` (msg.ts) and `AuctionStorage` (storage.ts).

Two facts about the fee encoding, taken from the code:

- The numerators are percent × 10^9, with no division by 100
  (src/encoder/storage.ts:20-21). So a numerator divided by the factor is the
  percent itself, and only whole percents up to 4 fit 32 bits: 5 × 10^9 does not.
- The factor 10^9 is written twice, once after each numerator
  (src/encoder/storage.ts:26,29).

## Model

| member | source | states |
|---|---|---|
| `Bits.UintBits` | src/encoder/msg.ts:10-11 | the n-bit big-endian encoding of a value below 2^n is exactly n bits long |
| `Bits.BitsToUint` | src/encoder/msg.ts:10-11 | the value a bit string denotes is below 2 to the power of its length |
| `Bits.UintBitsRoundTrip` | src/encoder/msg.ts:10-11 | reading back the n bits that storeUint wrote gives the stored value |
| `Bits.BitsToUintRoundTrip` | src/encoder/msg.ts:10-11 | every bit string is the storeUint encoding of its own value, so reading loses nothing |
| `Bits.UintBitsInjective` | src/encoder/msg.ts:10-11 | two in-range values with the same n-bit encoding are equal |
| `Bits.Int8Bits` | src/encoder/msg.ts:12 | the workchain is written as 8 bits whose leading (sign) bit is set exactly for a negative workchain |
| `Bits.BitsToInt8` | src/encoder/msg.ts:12 | an 8-bit two's-complement string denotes a value in -128..127 |
| `Bits.Int8RoundTrip` | src/encoder/msg.ts:12 | reading back the 8 workchain bits gives the workchain |
| `Bits.MsbOfUint` | src/encoder/msg.ts:12 | the leading bit of an n-bit encoding is set exactly when the value is at least 2^(n-1) |
| `Bits.BytesBits` | src/encoder/msg.ts:12 | a hash buffer of k bytes is written as 8k bits |
| `Bits.BitsToBytes` | src/encoder/msg.ts:12 | reading 8k bits as bytes gives k bytes |
| `Bits.BytesRoundTrip` | src/encoder/msg.ts:12 | reading back the bits of a byte buffer gives the buffer |
| `Cells.AddressBits` | src/encoder/msg.ts:12 | a standard address takes 267 bits and starts with tag `10` and the absent-anycast bit `0` |
| `Cells.ReadUint` | src/encoder/msg.ts:11 | reading an n-bit field succeeds exactly when n bits remain, and yields a value below 2^n and the rest of the bits |
| `Cells.ReadUintOfUintBits` | src/encoder/msg.ts:11 | reading an n-bit field from storeUint's output gives the value and leaves what follows untouched |
| `Cells.ReadAddress` | src/encoder/msg.ts:12 | a successful address read consumes exactly 267 bits |
| `Cells.ReadAddressOfAddressBits` | src/encoder/msg.ts:12 | reading an address from storeAddress's output gives the address and leaves what follows untouched |
| `Cells.Builder.constructor` | src/encoder/msg.ts:9 | a new builder is empty |
| `Cells.Builder.StoreUint` | src/encoder/msg.ts:10-11 | storeUint fails with UintOutOfRange when v >= 2^n, else with BitsOverflow past 1023 bits, else appends exactly the n-bit big-endian encoding of v |
| `Cells.Builder.StoreAddress` | src/encoder/msg.ts:12 | storeAddress fails past 1023 bits, else appends exactly the 267 address bits |
| `Cells.Builder.StoreBit` | src/encoder/msg.ts:13 | storeBit fails past 1023 bits, else appends exactly the one bit |
| `Cells.Builder.EndCell` | src/encoder/msg.ts:15 | the finished cell holds the buffer, no references, and is within the cell limits |
| `NftMessages.OpBits` | src/encoder/msg.ts:10 | the op field is 32 bits that read back as 0x05138d91 |
| `NftMessages.OwnershipAssignedBody` | src/encoder/msg.ts:8-16 | encoding succeeds exactly when query_id < 2^64, and otherwise fails with UintOutOfRange; the body is 364 bits with no references, within the cell limits |
| `NftMessages.EncodeNFTOwnershipAssigned` | src/encoder/msg.ts:8-16 | the builder chain storeUint(op, 32), storeUint(queryId, 64), storeAddress, storeBit(0), endCell produces exactly OwnershipAssignedBody, error case included |
| `NftMessages.DecodeOwnershipAssigned` | src/encoder/msg.ts:4-7 | the TL-B reader of the scheme: a body it accepts is at least 364 bits, its first 32 bits read as 0x05138d91, and its query id is below 2^64; OwnershipAssignedRoundTrip, WrongOpRejected and DecodedStartsWithOp pin down the rest |
| `NftMessages.OwnershipAssignedLayout` | src/encoder/msg.ts:9-15 | bits 0..31 are the op, 32..95 the big-endian query_id, 96..362 the previous owner's addr_std, and bit 363 is 0 |
| `NftMessages.OwnershipAssignedRoundTrip` | src/encoder/msg.ts:4-16 | decoding the body per its TL-B scheme gives back query_id, prev_owner and an empty inline forward payload |
| `NftMessages.OwnershipAssignedInjective` | src/encoder/msg.ts:8-16 | different (query_id, prev_owner) pairs give different bodies |
| `NftMessages.WrongOpRejected` | src/encoder/msg.ts:10 | a body whose leading 32-bit op is anything other than 0x05138d91 is rejected with WrongOp, whatever follows |
| `NftMessages.Op12345Rejected` | test/main.test.ts:157-159 | a body built with the op 12345 in place of 0x05138d91 is rejected |
| `NftMessages.DecodedStartsWithOp` | src/encoder/msg.ts:10 | every body the decoder accepts starts with the 32-bit encoding of 0x05138d91 |
| `AuctionStorage.ScaledFee` | src/encoder/storage.ts:19-21 | a scaled numerator divided by the factor 10^9 is the percent exactly, with no remainder |
| `AuctionStorage.FeeEntryBits` | src/encoder/storage.ts:24-26 | one fee entry (address, 32-bit numerator, 32-bit factor) is 331 bits |
| `AuctionStorage.FeesCellOf` | src/encoder/storage.ts:23-29 | the fees cell, when it can be built, is 662 bits with no references, within the cell limits; otherwise the error is UintOutOfRange |
| `AuctionStorage.EncodeStorageFees` | src/encoder/storage.ts:18-29 | the fee scaling and the six builder calls produce exactly FeesCellOf, error case included |
| `AuctionStorage.ReadFeeEntry` | src/encoder/storage.ts:24-26 | reading one fee entry consumes exactly 331 bits and yields a numerator and a factor each below 2^32; ReadFeeEntryRoundTrip pins down the values |
| `AuctionStorage.DecodeFeesCell` | src/encoder/storage.ts:24-29 | a fees cell the reader accepts is exactly 662 bits with no references; FeesCellRoundTrip pins down the six fields |
| `AuctionStorage.ReadFeeEntryRoundTrip` | src/encoder/storage.ts:24-26 | reading a fee entry gives back its address, its numerator and the factor 10^9, and leaves what follows untouched |
| `AuctionStorage.FeesCellHalves` | src/encoder/storage.ts:23-29 | the fees cell is the marketplace entry followed by the royalty entry, with nothing else |
| `AuctionStorage.FeesCellOkIff` | src/encoder/storage.ts:19-29 | the fees cell can be built exactly when both percents are at most 4 |
| `AuctionStorage.FivePercentRoyaltyRejected` | test/main.test.ts:57-62 | the configuration of 1% marketplace fee and 5% royalty is refused by storeUint |
| `AuctionStorage.FeesCellRoundTrip` | src/encoder/storage.ts:23-29 | decoding the fees cell gives back both addresses, both scaled numerators and the factor twice |
| `AuctionStorage.DecodedFeesArePercents` | src/encoder/storage.ts:19-29 | the decoded cell has both factors 10^9, and each decoded numerator divided by its factor is its percent exactly |
| `AuctionStorage.RoyaltyInputsIndependent` | src/encoder/storage.ts:24-29 | changing only the royalty inputs leaves the first 331 bits (marketplace address, numerator, factor) unchanged |
| `AuctionStorage.FeesCellLayout` | src/encoder/storage.ts:23-29 | the marketplace entry is read from bit 0 and the royalty entry from bit 331, and nothing follows the royalty entry |

## Left out

- The auction state machine (bids, refunds, settlement, exit codes). Its code is a compiled contract that the tests load and run; none of its source is part of this model.
- Classifying inbound messages as cancel, bid or unrecognised, and the `get_nft_owner` query. These belong to the compiled contract. The only message shape in the source is the ownership_assigned body.
- The test harness in test/main.test.ts: file loading, wall-clock query ids, random signers, and message delivery to a contract executor. Only the fee configuration of lines 57-62 and the wrong op of lines 158-159 are used, as lemma inputs.
- The bids cell of `encodeStorage` (src/encoder/storage.ts:31-32). It calls `storeCoins()` with no argument. The function also returns nothing although its declared type is `Cell`. Coin encoding is therefore not modelled. The fees builder is never finished into a cell in the source; the model finishes it with `EndCell`, so that it can be decoded.
- `encodeAucStorage`, the `MSG` module and the three-argument `nftOwnerAssigned` that the tests import are not part of this model. The wrong-op case appears only as a lemma about bodies with another op.
- Decimal.js and `toNumber()`: percents are natural numbers. Fractional percents and floating-point conversion are not modelled.
- `addr_none`, `addr_extern`, `addr_var` and anycast addresses. `StdAddress` is a subset type: the workchain fits `int8` and the hash is 32 bytes. The decoder rejects other address forms with `UnsupportedAddress`.
- Cell hashing, bag-of-cells serialisation and storing references. No modelled encoder stores a reference, so `Builder` has no reference field.
- Cells.Builder.StoreUint: takes a natural number, so a negative `BN` query id is not modelled.
- Cells.Builder.StoreUint: when the library throws, the model leaves the buffer as it was. The library may already have written some bits before it throws. The difference cannot be observed, because the exception discards the builder.
- Cells.Builder.StoreAddress: the same simplification as StoreUint. On overflow the buffer is left as it was, not partly written.
- Cells.Builder.StoreBit: the same simplification as StoreUint. On overflow the buffer is left as it was.
- The two libraries differ: msg.ts uses `ton` and storage.ts uses `ton3`. The model gives both the same bit-append semantics for `storeUint`, `storeBit` and standard-address `storeAddress`.
