/** What an estimate is made of, operation by operation. */
module FeeTerms {
  import opened Bits
  import opened Bytes
  import opened Fees

  /** The price of a text of n + 1 characters whose first one costs p. */
  function Halved(p: int, n: nat): int { if n == 0 then p else Halved(p, n - 1) / 2 }

  lemma {:induction false} ShrHalves(p: int, n: nat)
    ensures Shr(p, n) == Halved(p, n)
  {
    if n > 0 {
      ShrHalves(p, n - 1);
      DivTwice(p, Pow2(n - 1));
    }
  }

  lemma DivTwice(p: int, d: int)
    requires d > 0
    ensures p / (2 * d) == p / d / 2
  {
    var q, r := p / d, p % d;
    var h, b := q / 2, q % 2;
    assert p == d * q + r && q == 2 * h + b;
    Regroup(d, h, b);
    DivUnique(p, 2 * d, h, if b == 0 then r else d + r);
  }

  lemma Regroup(d: int, h: int, b: int)
    requires b == 0 || b == 1
    ensures d * (2 * h + b) == 2 * d * h + if b == 0 then 0 else d
  {
    assert d * (2 * h + b) == d * (2 * h) + d * b;
  }

  /** The work units of an operation and the policy fee paid beside them. */
  ghost predicate Priced(k: FeeKind, c: GasConfig, r: Request, units: int, policy: int) {
    var v1 := c.version == 0;
    && (k in {TransferFungible, MintFungible, BurnFungible} ==> units == c.gasFeeTransfer && policy == 0)
    && (k in {TransferNonFungible, MintNonFungible, BurnNonFungible} ==>
          units == r.count * c.gasFeeTransfer && policy == 0)
    && (k == CreateToken ==>
          var symbol := if v1 then c.gasFeeCreateTokenSymbol else c.policyFeeCreateTokenSymbol;
          var price := (if v1 then c.gasFeeCreateTokenBase else c.policyFeeCreateTokenBase)
                       + if r.symbolLength > 0 then Halved(symbol, r.symbolLength - 1) else 0;
          if v1 then units == price && policy == 0 else units == 0 && policy == price)
    && (k == CreateTokenSeries ==>
          if v1 then units == c.gasFeeCreateTokenSeries && policy == 0
          else units == 0 && policy == c.policyFeeCreateTokenSeries)
    && (k == RegisterName ==>
          && r.nameLength > 0
          && if v1 then units == Halved(c.gasFeeRegisterName, r.nameLength - 1) && policy == 0
             else units == 0 && policy == Halved(c.policyFeeRegisterName, r.nameLength - 1))
    && (k == Script ==> units == r.scriptUnits && policy == 0)
  }

  /** The storage rows, envelope bytes and event bytes counted: the caller's, or the
      worst case of the operation. */
  ghost predicate Counted(k: FeeKind, r: Request, rows: int, envelope: int, events: int) {
    && (if r.freshRows >= 0 then rows == r.freshRows else
        && (k in {TransferFungible, MintFungible} ==> rows == 1)
        && (k == TransferNonFungible ==> rows == 1 + r.count)
        && (k == MintNonFungible ==> rows == 1 + r.count * 2 + r.count * ((r.romRamBytes + 1023) / 1024))
        && (k in {BurnFungible, BurnNonFungible} ==> rows == 0)
        && (k == CreateToken ==> rows == 8)
        && (k in {CreateTokenSeries, Script} ==> rows == 4)
        && (k == RegisterName ==> rows == 2))
    && (if r.envelopeBytes > 0 then envelope == r.envelopeBytes else
        && (k in {TransferFungible, MintFungible, BurnFungible, RegisterName} ==> envelope == 512)
        && (k in {TransferNonFungible, BurnNonFungible} ==> envelope == 512 + 8 * r.count)
        && (k == MintNonFungible ==> envelope == 512 + 64 * r.count + r.count * r.romRamBytes)
        && (k == CreateToken ==> envelope == 4096)
        && (k == CreateTokenSeries ==> envelope == 2048)
        && (k == Script ==> envelope == 1024))
    && events == if k == Script then 512 else 0
  }

  /** Work priced by the configured multiplier and shift. */
  function Scaled(c: GasConfig, units: int): int
    requires c.feeShift >= 0
  {
    if c.feeShift >= 64 then 0 else units * c.feeMultiplier / Pow2(c.feeShift)
  }

  lemma WorkPriced(k: FeeKind, c: GasConfig, r: Request)
    requires ValidConfig(c) && NonNegative(r) && r.count >= 1 && WorkFor(k, c, r).Some?
    ensures var w := WorkFor(k, c, r).value; Priced(k, c, r, w.units, w.policy)
  {
    if k == CreateToken && r.symbolLength > 0 {
      ShrHalves(c.gasFeeCreateTokenSymbol, r.symbolLength - 1);
      ShrHalves(c.policyFeeCreateTokenSymbol, r.symbolLength - 1);
    }
    if k == RegisterName {
      ShrHalves(c.gasFeeRegisterName, r.nameLength - 1);
      ShrHalves(c.policyFeeRegisterName, r.nameLength - 1);
    }
  }

  lemma InputsCounted(k: FeeKind, r: Request)
    ensures Counted(k, r, RowsFor(k, r), EnvelopeFor(k, r), EventBytes(k))
  {
  }

  lemma TermsUnique(k: FeeKind, c: GasConfig, r: Request, w: Work, units: int, policy: int,
                    rows: int, envelope: int, events: int)
    requires Priced(k, c, r, w.units, w.policy) && Priced(k, c, r, units, policy)
    requires Counted(k, r, rows, envelope, events)
    ensures w == Work(units, policy)
    ensures rows == RowsFor(k, r) && envelope == EnvelopeFor(k, r) && events == EventBytes(k)
  {
    InputsCounted(k, r);
  }

  /** Every accepted request has terms. */
  lemma TermsThere(k: FeeKind, c: GasConfig, r: Request)
    requires ValidConfig(c) && NonNegative(r) && EstimateFee(k, c, r).Some?
    ensures exists units, policy, rows, envelope, events ::
              Priced(k, c, r, units, policy) && Counted(k, r, rows, envelope, events)
  {
    WorkPriced(k, c, r);
    InputsCounted(k, r);
  }

  /** Every estimate is the clamped formula of its gas model over the terms of its
      operation. */
  lemma EstimateExact(k: FeeKind, c: GasConfig, r: Request, units: int, policy: int,
                      rows: int, envelope: int, events: int)
    requires ValidConfig(c) && NonNegative(r) && EstimateFee(k, c, r).Some?
    requires Priced(k, c, r, units, policy) && Counted(k, r, rows, envelope, events)
    ensures var e := EstimateFee(k, c, r).value;
            && e.maxData == Min(rows * c.dataEscrowPerRow, 0xFFFF_FFFF_FFFF_FFFF)
            && if c.version == 0 then Formula1(c, units, r.payloadBytes + events + rows, e)
               else Formula2(c, units, policy, envelope, events + rows, e)
  {
    hide Priced, Counted, WorkFor, RowsFor, EnvelopeFor, EventBytes, Formula1, Formula2;
    WorkPriced(k, c, r);
    WorkNonNegative(k, c, r);
    RowsNonNegative(k, r);
    var w := WorkFor(k, c, r).value;
    TermsUnique(k, c, r, w, units, policy, rows, envelope, events);
    EventsNonNegative(k);
    if c.version == 0 {
      Formula1Holds(c, units, r.payloadBytes, events, rows);
    } else {
      Formula2Holds(c, w, envelope, events, rows);
    }
  }

  lemma EventsNonNegative(k: FeeKind)
    ensures EventBytes(k) >= 0
  {
  }

  lemma Formula1Holds(c: GasConfig, units: int, payload: int, events: int, rows: int)
    requires ValidConfig(c) && payload >= 0 && events >= 0 && rows >= 0
    ensures Formula1(c, units, payload + events + rows, EstimateV1(units, payload, events, rows, c))
  {
    ClampOnceV1(units, payload, events, rows, c);
  }

  lemma Formula2Holds(c: GasConfig, w: Work, envelope: int, events: int, rows: int)
    requires ValidConfig(c) && w.policy >= 0
    ensures Formula2(c, w.units, w.policy, envelope, events + rows, EstimateV2(w, envelope, events, rows, c))
  {
    hide EstimateV2;
    ClampOnce(w, envelope, events, rows, c);
    RoundUpLeast(envelope, 128);
    var e := EstimateV2(w, envelope, events, rows, c);
    assert ExactV2(w.units, envelope + events + rows, w.policy, c)
        == Scaled(c, w.units + 25 * (envelope + (events + rows))) + w.policy;
    forall padded | padded % 128 == 0 && envelope <= padded < envelope + 128
      ensures padded == RoundUp(envelope, 128)
    {
    }
    var p := RoundUp(envelope, 128);
    assert ExactV2(w.units, p + events + rows, w.policy, c)
        == Scaled(c, w.units + 25 * (p + (events + rows))) + w.policy;
  }

  /** Work and bytes at their prices; the offer covers 1 KiB and twice the minimum. */
  ghost predicate Formula1(c: GasConfig, units: int, data: int, e: Estimate)
    requires c.feeShift >= 0
  {
    && e.expected == Min(Scaled(c, units) + data * c.gasFeePerByte, 0xFFFF_FFFF_FFFF_FFFF)
    && e.maxGas == Min(2 * c.minimumGasOffer + Scaled(c, units) + Max(data, 1024) * c.gasFeePerByte,
                       0xFFFF_FFFF_FFFF_FFFF)
  }

  /** Work and bytes scaled together, the policy fee on top; the offer is a quarter
      more for an envelope padded to 128 bytes. */
  ghost predicate Formula2(c: GasConfig, units: int, policy: int, envelope: int, others: int, e: Estimate)
    requires c.feeShift >= 0
  {
    && e.expected == Min(Max(Scaled(c, units + 25 * (envelope + others)) + policy, c.minimumGasBill),
                         0xFFFF_FFFF_FFFF_FFFF)
    && forall padded :: padded % 128 == 0 && envelope <= padded < envelope + 128 ==>
       var bill := Max(Scaled(c, units + 25 * (padded + others)) + policy, c.minimumGasBill);
       e.maxGas == Max(Min(bill + bill / 4, 0xFFFF_FFFF_FFFF_FFFF), c.minimumGasOffer)
  }

  // ----- laws of the prices

  /** n items of an NFT operation take n times the units of one. */
  lemma ItemsScale(k: FeeKind, c: GasConfig, r: Request)
    requires k in {TransferNonFungible, MintNonFungible, BurnNonFungible}
    ensures WorkFor(k, c, r).value.units == r.count * WorkFor(k, c, r.(count := 1)).value.units
  {
  }

  /** Each further character halves the price of a symbol or name. */
  lemma CharactersHalve(c: GasConfig, r: Request, s: Request)
    requires r.symbolLength >= 1 && s == r.(symbolLength := r.symbolLength + 1, nameLength := r.nameLength + 1)
    ensures WorkFor(CreateToken, c, s).Some? ==>
            var w, x := WorkFor(CreateToken, c, r).value, WorkFor(CreateToken, c, s).value;
            if V2(c) then x.policy - c.policyFeeCreateTokenBase == (w.policy - c.policyFeeCreateTokenBase) / 2
            else x.units - c.gasFeeCreateTokenBase == (w.units - c.gasFeeCreateTokenBase) / 2
    ensures r.nameLength >= 1 && WorkFor(RegisterName, c, s).Some? ==>
            var w, x := WorkFor(RegisterName, c, r).value, WorkFor(RegisterName, c, s).value;
            x.policy == w.policy / 2 && x.units == w.units / 2
  {
    var n, m := r.symbolLength - 1, r.nameLength - 1;
    DivTwice(c.policyFeeCreateTokenSymbol, Pow2(n));
    DivTwice(c.gasFeeCreateTokenSymbol, Pow2(n));
    if m >= 0 {
      DivTwice(c.policyFeeRegisterName, Pow2(m));
      DivTwice(c.gasFeeRegisterName, Pow2(m));
    }
  }
}
