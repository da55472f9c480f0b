/** TON cells, standard addresses, and the part of the cell `Builder` that the
    encoders use. A cell holds at most 1023 data bits and at most 4 references
    (section 3.1.1 of the TVM whitepaper). */
module Cells {
  import opened Bits

  const MaxBits: nat := 1023
  const MaxRefs: nat := 4

  datatype Cell = Cell(bits: seq<bool>, refs: seq<Cell>)

  predicate WithinLimits(c: Cell) {
    |c.bits| <= MaxBits && |c.refs| <= MaxRefs
  }

  /** Why a builder call throws. */
  datatype BuildError =
    | UintOutOfRange   // the value does not fit the requested width
    | BitsOverflow     // the cell would exceed MaxBits

  datatype Outcome = Pass | Fail(error: BuildError)

  datatype Result<+T, +E> = Ok(value: T) | Err(error: E)

  /** Why a reader rejects a bit string. */
  datatype DecodeError =
    | Truncated             // fewer bits than the field needs
    | WrongOp(op: nat)      // the leading operation code is not the expected one
    | UnsupportedAddress    // the MsgAddress is not addr_std without anycast
    | MalformedPayload      // the Either Cell ^Cell field is inconsistent
    | TrailingData          // bits or references left over after the last field

  /** An `addr_std` address: an int8 workchain and a 32-byte account hash. */
  datatype Address = Address(workchain: int, hash: seq<Byte>)

  type StdAddress = a: Address | IsInt8(a.workchain) && |a.hash| == 32
    witness Address(0, seq(32, _ => 0))

  const AddressBitLength: nat := 267

  /** `addr_std$10 anycast:(Maybe Anycast) workchain_id:int8 address:bits256`,
      always with the anycast absent. */
  function AddressBits(a: StdAddress): (r: seq<bool>)
    ensures |r| == AddressBitLength
    ensures r[..3] == [true, false, false]
  {
    [true, false, false] + Int8Bits(a.workchain) + BytesBits(a.hash)
  }

  /** Reads n bits as an unsigned integer; the rest of the string comes back too. */
  function ReadUint(s: seq<bool>, n: nat): (r: Result<(nat, seq<bool>), DecodeError>)
    ensures r.Ok? <==> n <= |s|
    ensures r.Ok? ==> r.value.0 < Pow2(n) && r.value.1 == s[n..]
  {
    if |s| < n then Err(Truncated) else Ok((BitsToUint(s[..n]), s[n..]))
  }

  lemma ReadUintOfUintBits(v: nat, n: nat, rest: seq<bool>)
    requires v < Pow2(n)
    ensures ReadUint(UintBits(v, n) + rest, n) == Ok((v, rest))
  {
    var s := UintBits(v, n) + rest;
    assert s[..n] == UintBits(v, n);
    assert s[n..] == rest;
    UintBitsRoundTrip(v, n);
  }

  /** Reads an addr_std address with no anycast; every other MsgAddress form is rejected. */
  function ReadAddress(s: seq<bool>): (r: Result<(StdAddress, seq<bool>), DecodeError>)
    ensures r.Ok? ==> |s| >= AddressBitLength && r.value.1 == s[AddressBitLength..]
  {
    if |s| < 3 then Err(Truncated)
    else if s[..3] != [true, false, false] then Err(UnsupportedAddress)
    else if |s| < AddressBitLength then Err(Truncated)
    else
      var wc := BitsToInt8(s[3..11]);
      var hash := BitsToBytes(s[11..AddressBitLength]);
      Ok((Address(wc, hash), s[AddressBitLength..]))
  }

  lemma ReadAddressOfAddressBits(a: StdAddress, rest: seq<bool>)
    ensures ReadAddress(AddressBits(a) + rest) == Ok((a, rest))
  {
    var s := AddressBits(a) + rest;
    assert s[3..11] == Int8Bits(a.workchain);
    assert s[11..AddressBitLength] == BytesBits(a.hash);
    assert s[AddressBitLength..] == rest;
    Int8RoundTrip(a.workchain);
    BytesRoundTrip(a.hash);
  }

  /** The bit buffer of a cell under construction. Each store either appends
      its encoding or, when the library would throw, fails and leaves the
      buffer as it was. None of the modelled encoders stores a reference, so
      the builder carries bits only. */
  class Builder {
    var bits: seq<bool>

    ghost predicate Valid()
      reads this
    {
      |bits| <= MaxBits
    }

    constructor ()
      ensures Valid() && bits == []
    {
      bits := [];
    }

    /** `storeUint(v, n)`: a value that does not fit n bits is refused before
        the capacity is checked. */
    method StoreUint(v: nat, n: nat) returns (o: Outcome)
      requires Valid()
      modifies this
      ensures Valid()
      ensures o == if v >= Pow2(n) then Fail(UintOutOfRange)
                   else if |old(bits)| + n > MaxBits then Fail(BitsOverflow)
                   else Pass
      ensures bits == if o.Pass? then old(bits) + UintBits(v, n) else old(bits)
    {
      if v >= Pow2(n) {
        return Fail(UintOutOfRange);
      }
      if |bits| + n > MaxBits {
        return Fail(BitsOverflow);
      }
      bits := bits + UintBits(v, n);
      o := Pass;
    }

    /** `storeBit(b)` */
    method StoreBit(b: bool) returns (o: Outcome)
      requires Valid()
      modifies this
      ensures Valid()
      ensures o == if |old(bits)| + 1 > MaxBits then Fail(BitsOverflow) else Pass
      ensures bits == if o.Pass? then old(bits) + [b] else old(bits)
    {
      if |bits| + 1 > MaxBits {
        return Fail(BitsOverflow);
      }
      bits := bits + [b];
      o := Pass;
    }

    /** `storeAddress(a)` for a standard address: 267 bits. */
    method StoreAddress(a: StdAddress) returns (o: Outcome)
      requires Valid()
      modifies this
      ensures Valid()
      ensures o == if |old(bits)| + AddressBitLength > MaxBits then Fail(BitsOverflow) else Pass
      ensures bits == if o.Pass? then old(bits) + AddressBits(a) else old(bits)
    {
      if |bits| + AddressBitLength > MaxBits {
        return Fail(BitsOverflow);
      }
      bits := bits + AddressBits(a);
      o := Pass;
    }

    /** `endCell()`: the finished cell holds the buffer and no references. */
    method EndCell() returns (c: Cell)
      requires Valid()
      ensures WithinLimits(c) && c.bits == bits && c.refs == []
    {
      c := Cell(bits, []);
    }
  }
}
