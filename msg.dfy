/** The body of the TEP-62 `ownership_assigned` notification:
      ownership_assigned#05138d91 query_id:uint64 prev_owner:MsgAddress
        forward_payload:(Either Cell ^Cell) = InternalMsgBody;
    The encoder writes the inline branch of the payload, empty. The decoder
    reads the scheme back, so that the round trip can be stated. */
module NftMessages {
  import opened Bits
  import opened Cells

  const OwnershipAssignedOp: nat := 0x05138d91

  /** The 32-bit big-endian encoding of the operation code. */
  function OpBits(): (r: seq<bool>)
    ensures |r| == 32 && BitsToUint(r) == OwnershipAssignedOp
  {
    Pow2Values();
    UintBitsRoundTrip(OwnershipAssignedOp, 32);
    UintBits(OwnershipAssignedOp, 32)
  }

  /** Length of the body the encoder produces: 32 + 64 + 267 + 1. */
  const OwnershipAssignedBitLength: nat := 364

  /** `Either Cell ^Cell`: the payload inline in the rest of the body, or in a reference. */
  datatype ForwardPayload =
    | Inline(bits: seq<bool>, refs: seq<Cell>)
    | InRef(cell: Cell)

  datatype OwnershipAssigned =
    OwnershipAssigned(queryId: nat, prevOwner: StdAddress, forwardPayload: ForwardPayload)

  /** What `encodeNFTOwnershipAssigned` produces, or the error it throws:
      a query id that does not fit 64 bits is refused by `storeUint`. */
  function OwnershipAssignedBody(queryId: nat, prevOwner: StdAddress): (r: Result<Cell, BuildError>)
    ensures r.Ok? <==> queryId < Pow2(64)
    ensures r.Err? ==> r.error == UintOutOfRange
    ensures r.Ok? ==> WithinLimits(r.value) && r.value.refs == []
                      && |r.value.bits| == OwnershipAssignedBitLength
  {
    Pow2Values();
    if queryId < Pow2(64) then
      Ok(Cell(OpBits() + UintBits(queryId, 64)
              + AddressBits(prevOwner) + [false], []))
    else
      Err(UintOutOfRange)
  }

  /** Builds the body with the same chain of builder calls as the source. */
  method EncodeNFTOwnershipAssigned(queryId: nat, prevOwner: StdAddress) returns (r: Result<Cell, BuildError>)
    ensures r == OwnershipAssignedBody(queryId, prevOwner)
  {
    Pow2Values();
    var msg := new Builder();
    var o := msg.StoreUint(OwnershipAssignedOp, 32);
    assert o.Pass?;
    ghost var opBits := msg.bits;
    assert opBits == OpBits();
    o := msg.StoreUint(queryId, 64);
    if o.Fail? {
      return Err(o.error);
    }
    o := msg.StoreAddress(prevOwner);
    assert o.Pass?;
    o := msg.StoreBit(false);
    assert o.Pass?;
    var c := msg.EndCell();
    assert c.bits == opBits + UintBits(queryId, 64) + AddressBits(prevOwner) + [false];
    return Ok(c);
  }

  /** Reads a body per the TL-B scheme: the operation code first, then the
      query id, an addr_std address and the payload selector bit. */
  function DecodeOwnershipAssigned(c: Cell): (r: Result<OwnershipAssigned, DecodeError>)
    ensures r.Ok? ==> |c.bits| >= OwnershipAssignedBitLength
                      && BitsToUint(c.bits[..32]) == OwnershipAssignedOp
                      && r.value.queryId < Pow2(64)
  {
    match ReadUint(c.bits, 32)
    case Err(e) => Err(e)
    case Ok((op, rest)) =>
      if op != OwnershipAssignedOp then Err(WrongOp(op))
      else
        match ReadUint(rest, 64)
        case Err(e) => Err(e)
        case Ok((queryId, rest)) =>
          match ReadAddress(rest)
          case Err(e) => Err(e)
          case Ok((prevOwner, rest)) =>
            if |rest| == 0 then Err(Truncated)
            else if !rest[0] then
              Ok(OwnershipAssigned(queryId, prevOwner, Inline(rest[1..], c.refs)))
            else if |rest| == 1 && |c.refs| == 1 then
              Ok(OwnershipAssigned(queryId, prevOwner, InRef(c.refs[0])))
            else Err(MalformedPayload)
  }

  /** Bits 0..31 hold the operation code, 32..95 the query id, 96..362 the
      previous owner, and the last bit selects the inline payload. */
  lemma OwnershipAssignedLayout(queryId: nat, prevOwner: StdAddress)
    requires queryId < Pow2(64)
    ensures var bits := OwnershipAssignedBody(queryId, prevOwner).value.bits;
      && bits[..32] == OpBits()
      && bits[32..96] == UintBits(queryId, 64)
      && bits[96..363] == AddressBits(prevOwner)
      && bits[363] == false
  {
    var opBits := OpBits();
    var qBits := UintBits(queryId, 64);
    var aBits := AddressBits(prevOwner);
    var bits := OwnershipAssignedBody(queryId, prevOwner).value.bits;
    var head := opBits + qBits;
    var body := head + aBits;
    assert bits == body + [false];
    assert bits[..363] == body;
    assert body[..96] == head && body[96..] == aBits;
    assert head[..32] == opBits && head[32..] == qBits;
  }

  /** Decoding the encoder's output gives back the query id, the previous
      owner and an empty inline payload. */
  lemma OwnershipAssignedRoundTrip(queryId: nat, prevOwner: StdAddress)
    requires queryId < Pow2(64)
    ensures DecodeOwnershipAssigned(OwnershipAssignedBody(queryId, prevOwner).value)
            == Ok(OwnershipAssigned(queryId, prevOwner, Inline([], [])))
  {
    var opBits := OpBits();
    var qBits := UintBits(queryId, 64);
    var aBits := AddressBits(prevOwner);
    var c := OwnershipAssignedBody(queryId, prevOwner).value;
    AppendAssoc(opBits + qBits, aBits, [false]);
    AppendAssoc(opBits, qBits, aBits + [false]);
    ReadUintOfUintBits(OwnershipAssignedOp, 32, qBits + (aBits + [false]));
    assert ReadUint(c.bits, 32) == Ok((OwnershipAssignedOp, qBits + (aBits + [false])));
    ReadUintOfUintBits(queryId, 64, aBits + [false]);
    assert ReadUint(qBits + (aBits + [false]), 64) == Ok((queryId, aBits + [false]));
    ReadAddressOfAddressBits(prevOwner, [false]);
    assert ReadAddress(aBits + [false]) == Ok((prevOwner, [false]));
    assert [false][1..] == [];
  }

  /** Different inputs give different bodies. */
  lemma OwnershipAssignedInjective(q1: nat, a1: StdAddress, q2: nat, a2: StdAddress)
    requires q1 < Pow2(64) && q2 < Pow2(64)
    requires OwnershipAssignedBody(q1, a1) == OwnershipAssignedBody(q2, a2)
    ensures q1 == q2 && a1 == a2
  {
    OwnershipAssignedRoundTrip(q1, a1);
    OwnershipAssignedRoundTrip(q2, a2);
  }

  /** A body that starts with any other 32-bit operation code is rejected,
      whatever follows it. */
  lemma WrongOpRejected(op: nat, rest: seq<bool>, refs: seq<Cell>)
    requires op < Pow2(32) && op != OwnershipAssignedOp
    ensures DecodeOwnershipAssigned(Cell(UintBits(op, 32) + rest, refs)) == Err(WrongOp(op))
  {
    ReadUintOfUintBits(op, 32, rest);
  }

  /** The operation code 12345 with a query id and an address after it, as a
      caller substituting a wrong op would build it, fails to decode. */
  lemma Op12345Rejected(queryId: nat, prevOwner: StdAddress)
    requires queryId < Pow2(64)
    ensures DecodeOwnershipAssigned(
              Cell(UintBits(12345, 32) + UintBits(queryId, 64) + AddressBits(prevOwner) + [false], []))
            == Err(WrongOp(12345))
  {
    Pow2Values();
    var rest := UintBits(queryId, 64) + AddressBits(prevOwner) + [false];
    assert UintBits(12345, 32) + UintBits(queryId, 64) + AddressBits(prevOwner) + [false]
           == UintBits(12345, 32) + rest;
    WrongOpRejected(12345, rest, []);
  }

  /** Whatever decodes successfully starts with the operation code. */
  lemma DecodedStartsWithOp(c: Cell)
    requires DecodeOwnershipAssigned(c).Ok?
    ensures |c.bits| >= 32 && c.bits[..32] == OpBits()
  {
    BitsToUintRoundTrip(c.bits[..32]);
  }
}
