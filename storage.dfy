/** The fees part of the auction's persistent storage: the two fee percentages
    scaled to integer numerators, and the fees cell
      mp_fee_addr mp_fee_percent:uint32 mp_fee_factor:uint32
      royalty_fee_addr royalty_fee_percent:uint32 royalty_fee_factor:uint32 */
module AuctionStorage {
  import opened Bits
  import opened Cells

  /** The scale factor 10^9 that both numerators are stated against. */
  const Factor: nat := 1_000_000_000

  /** Length of the fees cell: two addresses and four 32-bit fields. */
  const FeesCellBitLength: nat := 662

  /** Length of the marketplace half of the fees cell: address, numerator, factor. */
  const MarketplaceFeeBitLength: nat := 331

  /** The fee inputs of `encodeStorage`, percents as natural numbers. */
  datatype FeesOptions = FeesOptions(
    mpFeesAddr: StdAddress,
    mpFeePercent: nat,
    royaltyFeeAddr: StdAddress,
    royaltyFeePercent: nat)

  /** The six fields of a fees cell, as a reader finds them. */
  datatype FeesRecord = FeesRecord(
    mpFeeAddr: StdAddress,
    mpFeeNumerator: nat,
    mpFeeFactor: nat,
    royaltyFeeAddr: StdAddress,
    royaltyFeeNumerator: nat,
    royaltyFeeFactor: nat)

  /** A percent multiplied by the factor, with no division by 100. */
  function ScaledFee(percent: nat): (r: nat)
    ensures r / Factor == percent && r % Factor == 0
  {
    percent * Factor
  }

  /** One half of the fees cell: an address, a numerator and the factor. */
  function FeeEntryBits(addr: StdAddress, numerator: nat): (r: seq<bool>)
    requires numerator < Pow2(32)
    ensures |r| == MarketplaceFeeBitLength
  {
    Pow2Values();
    AddressBits(addr) + UintBits(numerator, 32) + UintBits(Factor, 32)
  }

  /** What the builder chain of `encodeStorage` produces for the fees cell, or
      the error it throws: `storeUint(_, 32)` refuses a numerator of 2^32 or more. */
  function FeesCellOf(fees: FeesOptions): (r: Result<Cell, BuildError>)
    ensures r.Err? ==> r.error == UintOutOfRange
    ensures r.Ok? ==> WithinLimits(r.value) && r.value.refs == []
                      && |r.value.bits| == FeesCellBitLength
  {
    var mpFee := ScaledFee(fees.mpFeePercent);
    var royFee := ScaledFee(fees.royaltyFeePercent);
    if mpFee >= Pow2(32) || royFee >= Pow2(32) then
      Err(UintOutOfRange)
    else
      Pow2Values();
      Ok(Cell(AddressBits(fees.mpFeesAddr) + UintBits(mpFee, 32) + UintBits(Factor, 32)
              + AddressBits(fees.royaltyFeeAddr) + UintBits(royFee, 32) + UintBits(Factor, 32), []))
  }

  /** Builds the fees cell with the same six builder calls as the source. */
  method EncodeStorageFees(fees: FeesOptions) returns (r: Result<Cell, BuildError>)
    ensures r == FeesCellOf(fees)
  {
    Pow2Values();
    var mpFee := ScaledFee(fees.mpFeePercent);
    var royFee := ScaledFee(fees.royaltyFeePercent);
    var feesCell := new Builder();
    var o := feesCell.StoreAddress(fees.mpFeesAddr);
    assert o.Pass?;
    assert feesCell.bits == AddressBits(fees.mpFeesAddr);
    o := feesCell.StoreUint(mpFee, 32);
    if o.Fail? {
      return Err(o.error);
    }
    o := feesCell.StoreUint(Factor, 32);
    assert o.Pass?;
    o := feesCell.StoreAddress(fees.royaltyFeeAddr);
    assert o.Pass?;
    o := feesCell.StoreUint(royFee, 32);
    if o.Fail? {
      return Err(o.error);
    }
    o := feesCell.StoreUint(Factor, 32);
    assert o.Pass?;
    var c := feesCell.EndCell();
    return Ok(c);
  }

  /** Reads one half of a fees cell: an address, a numerator and a factor. */
  function ReadFeeEntry(s: seq<bool>): (r: Result<(StdAddress, nat, nat, seq<bool>), DecodeError>)
    ensures r.Ok? ==> |s| >= MarketplaceFeeBitLength && r.value.3 == s[MarketplaceFeeBitLength..]
                      && r.value.1 < Pow2(32) && r.value.2 < Pow2(32)
  {
    match ReadAddress(s)
    case Err(e) => Err(e)
    case Ok((addr, rest)) =>
      match ReadUint(rest, 32)
      case Err(e) => Err(e)
      case Ok((numerator, rest)) =>
        match ReadUint(rest, 32)
        case Err(e) => Err(e)
        case Ok((factor, rest)) => Ok((addr, numerator, factor, rest))
  }

  /** Reads a fees cell; left-over bits or any reference are rejected. */
  function DecodeFeesCell(c: Cell): (r: Result<FeesRecord, DecodeError>)
    ensures r.Ok? ==> |c.bits| == FeesCellBitLength && c.refs == []
  {
    match ReadFeeEntry(c.bits)
    case Err(e) => Err(e)
    case Ok((mpAddr, mpNum, mpFactor, rest)) =>
      match ReadFeeEntry(rest)
      case Err(e) => Err(e)
      case Ok((royAddr, royNum, royFactor, rest)) =>
        if rest != [] || c.refs != [] then Err(TrailingData)
        else Ok(FeesRecord(mpAddr, mpNum, mpFactor, royAddr, royNum, royFactor))
  }

  lemma ReadFeeEntryRoundTrip(addr: StdAddress, numerator: nat, rest: seq<bool>)
    requires numerator < Pow2(32)
    ensures ReadFeeEntry(FeeEntryBits(addr, numerator) + rest) == Ok((addr, numerator, Factor, rest))
  {
    Pow2Values();
    var a := AddressBits(addr);
    var n := UintBits(numerator, 32);
    var f := UintBits(Factor, 32);
    AppendAssoc(a + n, f, rest);
    AppendAssoc(a, n, f + rest);
    ReadAddressOfAddressBits(addr, n + (f + rest));
    assert ReadAddress(FeeEntryBits(addr, numerator) + rest) == Ok((addr, n + (f + rest)));
    ReadUintOfUintBits(numerator, 32, f + rest);
    assert ReadUint(n + (f + rest), 32) == Ok((numerator, f + rest));
    ReadUintOfUintBits(Factor, 32, rest);
    assert ReadUint(f + rest, 32) == Ok((Factor, rest));
  }

  /** The fees cell is the marketplace entry followed by the royalty entry. */
  lemma FeesCellHalves(fees: FeesOptions)
    requires FeesCellOf(fees).Ok?
    ensures FeesCellOf(fees).value.bits
            == FeeEntryBits(fees.mpFeesAddr, ScaledFee(fees.mpFeePercent))
               + FeeEntryBits(fees.royaltyFeeAddr, ScaledFee(fees.royaltyFeePercent))
  {
    Pow2Values();
    var a1, a2 := AddressBits(fees.mpFeesAddr), AddressBits(fees.royaltyFeeAddr);
    var n1, n2 := UintBits(ScaledFee(fees.mpFeePercent), 32), UintBits(ScaledFee(fees.royaltyFeePercent), 32);
    var f := UintBits(Factor, 32);
    var m := a1 + n1 + f;
    AppendAssoc(m + a2, n2, f);
    AppendAssoc(m, a2, n2 + f);
    AppendAssoc(a2, n2, f);
  }

  /** Encoding succeeds exactly for whole percents of at most 4: 4 * 10^9 fits
      32 bits and 5 * 10^9 does not. */
  lemma FeesCellOkIff(fees: FeesOptions)
    ensures FeesCellOf(fees).Ok? <==> fees.mpFeePercent <= 4 && fees.royaltyFeePercent <= 4
  {
    Pow2Values();
  }

  /** A 1% marketplace fee and a 5% royalty cannot be encoded. */
  lemma FivePercentRoyaltyRejected(mpAddr: StdAddress, royaltyAddr: StdAddress)
    ensures FeesCellOf(FeesOptions(mpAddr, 1, royaltyAddr, 5)) == Err(UintOutOfRange)
  {
    Pow2Values();
  }

  /** Decoding the fees cell gives back both addresses, both scaled
      numerators and the factor twice. */
  lemma FeesCellRoundTrip(fees: FeesOptions)
    requires FeesCellOf(fees).Ok?
    ensures DecodeFeesCell(FeesCellOf(fees).value)
            == Ok(FeesRecord(fees.mpFeesAddr, ScaledFee(fees.mpFeePercent), Factor,
                             fees.royaltyFeeAddr, ScaledFee(fees.royaltyFeePercent), Factor))
  {
    var mpFee := ScaledFee(fees.mpFeePercent);
    var royFee := ScaledFee(fees.royaltyFeePercent);
    var royBits := FeeEntryBits(fees.royaltyFeeAddr, royFee);
    FeesCellHalves(fees);
    ReadFeeEntryRoundTrip(fees.mpFeesAddr, mpFee, royBits);
    ReadFeeEntryRoundTrip(fees.royaltyFeeAddr, royFee, []);
    assert royBits + [] == royBits;
  }

  /** Each decoded numerator, divided by its decoded factor, is the percent
      exactly, and both factors are 10^9. */
  lemma DecodedFeesArePercents(fees: FeesOptions)
    requires FeesCellOf(fees).Ok?
    ensures DecodeFeesCell(FeesCellOf(fees).value).Ok?
    ensures var rec := DecodeFeesCell(FeesCellOf(fees).value).value;
      && rec.mpFeeFactor == rec.royaltyFeeFactor == Factor
      && rec.mpFeeNumerator / rec.mpFeeFactor == fees.mpFeePercent
      && rec.mpFeeNumerator % rec.mpFeeFactor == 0
      && rec.royaltyFeeNumerator / rec.royaltyFeeFactor == fees.royaltyFeePercent
      && rec.royaltyFeeNumerator % rec.royaltyFeeFactor == 0
  {
    FeesCellRoundTrip(fees);
  }

  /** Changing only the royalty inputs leaves the first 331 bits, the
      marketplace address, numerator and factor, unchanged. */
  lemma RoyaltyInputsIndependent(f: FeesOptions, g: FeesOptions)
    requires f.mpFeesAddr == g.mpFeesAddr && f.mpFeePercent == g.mpFeePercent
    requires FeesCellOf(f).Ok? && FeesCellOf(g).Ok?
    ensures FeesCellOf(f).value.bits[..MarketplaceFeeBitLength]
            == FeesCellOf(g).value.bits[..MarketplaceFeeBitLength]
  {
    var mp := FeeEntryBits(f.mpFeesAddr, ScaledFee(f.mpFeePercent));
    FeesCellHalves(f);
    FeesCellHalves(g);
    assert FeesCellOf(f).value.bits[..MarketplaceFeeBitLength] == mp;
    assert FeesCellOf(g).value.bits[..MarketplaceFeeBitLength] == mp;
  }

  /** The royalty half occupies bits 331..661, after the marketplace half. */
  lemma FeesCellLayout(fees: FeesOptions)
    requires FeesCellOf(fees).Ok?
    ensures var bits := FeesCellOf(fees).value.bits;
      && ReadFeeEntry(bits) == Ok((fees.mpFeesAddr, ScaledFee(fees.mpFeePercent), Factor,
                                   bits[MarketplaceFeeBitLength..]))
      && ReadFeeEntry(bits[MarketplaceFeeBitLength..])
         == Ok((fees.royaltyFeeAddr, ScaledFee(fees.royaltyFeePercent), Factor, []))
  {
    var mpFee := ScaledFee(fees.mpFeePercent);
    var royFee := ScaledFee(fees.royaltyFeePercent);
    var bits := FeesCellOf(fees).value.bits;
    var royBits := FeeEntryBits(fees.royaltyFeeAddr, royFee);
    FeesCellHalves(fees);
    assert bits[MarketplaceFeeBitLength..] == royBits;
    ReadFeeEntryRoundTrip(fees.mpFeesAddr, mpFee, royBits);
    ReadFeeEntryRoundTrip(fees.royaltyFeeAddr, royFee, []);
    assert royBits + [] == royBits;
  }
}
