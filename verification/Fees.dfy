/** The Tier-1 fee estimator: two gas models over unbounded integers, clamped to
    unsigned 64-bit results. */
module Fees {
  import opened Bits
  import opened Bytes

  const UNITS_PER_BLOCK_DATA_BYTE := 25
  const WITNESS_ARRAY_ENTRY_BYTES := 96
  const NATIVE_SIGNATURE_BYTES := 64
  const U64_MAX := 0xFFFF_FFFF_FFFF_FFFF
  const SCRIPT_EVENT_BYTES := 512

  datatype FeeKind =
    | TransferFungible | TransferNonFungible
    | MintFungible | MintNonFungible
    | BurnFungible | BurnNonFungible
    | CreateToken | CreateTokenSeries | RegisterName | Script

  /** The fields of GasConfig that the estimator reads. */
  datatype GasConfig = GasConfig(
    version: int, maxNameLength: int, maxTokenSymbolLength: int, feeShift: int,
    feeMultiplier: int, minimumGasOffer: int, dataEscrowPerRow: int, gasFeeTransfer: int,
    gasFeeCreateTokenBase: int, gasFeeCreateTokenSymbol: int, gasFeeCreateTokenSeries: int,
    gasFeePerByte: int, gasFeeRegisterName: int, minimumGasBill: int,
    policyFeeCreateTokenBase: int, policyFeeCreateTokenSymbol: int,
    policyFeeCreateTokenSeries: int, policyFeeRegisterName: int)

  predicate U8(v: int) { 0 <= v < 256 }

  predicate U64(v: int) { 0 <= v <= U64_MAX }

  /** Every field in the range of its wire type. */
  predicate ValidConfig(c: GasConfig) {
    && U8(c.version) && U8(c.maxNameLength) && U8(c.maxTokenSymbolLength) && U8(c.feeShift)
    && U64(c.feeMultiplier) && U64(c.minimumGasOffer) && U64(c.dataEscrowPerRow) && U64(c.gasFeeTransfer)
    && U64(c.gasFeeCreateTokenBase) && U64(c.gasFeeCreateTokenSymbol) && U64(c.gasFeeCreateTokenSeries)
    && U64(c.gasFeePerByte) && U64(c.gasFeeRegisterName) && U64(c.minimumGasBill)
    && U64(c.policyFeeCreateTokenBase) && U64(c.policyFeeCreateTokenSymbol)
    && U64(c.policyFeeCreateTokenSeries) && U64(c.policyFeeRegisterName)
  }

  predicate V2(c: GasConfig) { c.version >= 1 }

  /** The keyword arguments; a negative freshRows selects the default. */
  datatype Request = Request(
    count: int, symbolLength: int, nameLength: int, envelopeBytes: int,
    payloadBytes: int, freshRows: int, romRamBytes: int, scriptUnits: int)

  predicate NonNegative(r: Request) {
    && r.symbolLength >= 0 && r.nameLength >= 0 && r.envelopeBytes >= 0
    && r.payloadBytes >= 0 && r.romRamBytes >= 0 && r.scriptUnits >= 0
  }

  datatype Estimate = Estimate(maxGas: int, maxData: int, expected: int)

  /** Work units and the direct policy fee. */
  datatype Work = Work(units: int, policy: int)

  predicate NativeSignature(k: FeeKind) {
    k in {TransferFungible, TransferNonFungible, MintFungible, MintNonFungible, BurnFungible, BurnNonFungible}
  }

  /** envelope_bytes_for; None is the ValueError. */
  function EnvelopeBytes(k: FeeKind, messageLength: int, witnesses: int): Option<int> {
    if messageLength < 0 || witnesses < 0 then None
    else if NativeSignature(k) then Some(messageLength + NATIVE_SIGNATURE_BYTES * witnesses)
    else Some(messageLength + 4 + WITNESS_ARRAY_ENTRY_BYTES * witnesses)
  }

  lemma EnvelopeRefused(k: FeeKind, messageLength: int, witnesses: int)
    ensures EnvelopeBytes(k, messageLength, witnesses).None? <==> messageLength < 0 || witnesses < 0
  {
  }

  /** v >> s */
  function Shr(v: int, s: nat): int { v / Pow2(s) }

  /** _symbol_shift; None is the ValueError. */
  function SymbolShift(length: int, maxLength: int): Option<nat> {
    if length < 0 then None
    else if length == 0 then Some(0)
    else if maxLength != 0 && length - 1 >= maxLength then None
    else Some(length - 1)
  }

  function WorkFor(k: FeeKind, c: GasConfig, r: Request): Option<Work> {
    match k
    case TransferFungible => Some(Work(c.gasFeeTransfer, 0))
    case MintFungible => Some(Work(c.gasFeeTransfer, 0))
    case BurnFungible => Some(Work(c.gasFeeTransfer, 0))
    case TransferNonFungible => Some(Work(c.gasFeeTransfer * r.count, 0))
    case MintNonFungible => Some(Work(c.gasFeeTransfer * r.count, 0))
    case BurnNonFungible => Some(Work(c.gasFeeTransfer * r.count, 0))
    case CreateToken =>
      var shift :- SymbolShift(r.symbolLength, c.maxTokenSymbolLength);
      if V2(c) then
        Some(Work(0, c.policyFeeCreateTokenBase
                     + if r.symbolLength > 0 then Shr(c.policyFeeCreateTokenSymbol, shift) else 0))
      else
        Some(Work(c.gasFeeCreateTokenBase + if r.symbolLength > 0 then Shr(c.gasFeeCreateTokenSymbol, shift) else 0, 0))
    case CreateTokenSeries =>
      Some(if V2(c) then Work(0, c.policyFeeCreateTokenSeries) else Work(c.gasFeeCreateTokenSeries, 0))
    case RegisterName =>
      if r.nameLength <= 0 then None
      else
        var shift :- SymbolShift(r.nameLength, c.maxNameLength);
        Some(if V2(c) then Work(0, Shr(c.policyFeeRegisterName, shift)) else Work(Shr(c.gasFeeRegisterName, shift), 0))
    case Script => Some(Work(r.scriptUnits, 0))
  }

  /** _default_fresh_rows */
  function DefaultRows(k: FeeKind, count: int, romRam: int): int {
    match k
    case TransferFungible => 1
    case MintFungible => 1
    case TransferNonFungible => count + 1
    case MintNonFungible => count * (2 + (romRam + 1023) / 1024) + 1
    case BurnFungible => 0
    case BurnNonFungible => 0
    case CreateToken => 8
    case CreateTokenSeries => 4
    case RegisterName => 2
    case Script => 4
  }

  /** _default_envelope_bytes */
  function DefaultEnvelope(k: FeeKind, count: int, romRam: int): int {
    match k
    case TransferFungible => 512
    case MintFungible => 512
    case BurnFungible => 512
    case RegisterName => 512
    case TransferNonFungible => 512 + 8 * count
    case BurnNonFungible => 512 + 8 * count
    case MintNonFungible => 512 + count * (64 + romRam)
    case CreateToken => 4096
    case CreateTokenSeries => 2048
    case Script => 1024
  }

  function RowsFor(k: FeeKind, r: Request): int {
    if r.freshRows >= 0 then r.freshRows else DefaultRows(k, r.count, r.romRamBytes)
  }

  function EnvelopeFor(k: FeeKind, r: Request): int {
    if r.envelopeBytes > 0 then r.envelopeBytes else DefaultEnvelope(k, r.count, r.romRamBytes)
  }

  function EventBytes(k: FeeKind): int { if k == Script then SCRIPT_EVENT_BYTES else 0 }

  /** _mul_shift */
  function MulShift(v: int, multiplier: int, shift: nat): int {
    if shift >= 64 then 0 else Min(Shr(v * multiplier, shift), U64_MAX)
  }

  /** _round_up */
  function RoundUp(v: int, step: int): int
    requires step > 0
  {
    if v % step == 0 then v else v + (step - v % step)
  }

  /** _bill_v2 */
  function BillV2(units: int, envelope: int, events: int, rows: int, policy: int, c: GasConfig): int
    requires c.feeShift >= 0
  {
    var byteUnits := (envelope + events + rows) * UNITS_PER_BLOCK_DATA_BYTE;
    var bill := MulShift(units + byteUnits, c.feeMultiplier, c.feeShift) + policy;
    Max(Min(bill, U64_MAX), c.minimumGasBill)
  }

  function EstimateV2(w: Work, envelope: int, events: int, rows: int, c: GasConfig): Estimate
    requires c.feeShift >= 0
  {
    var expected := BillV2(w.units, envelope, events, rows, w.policy, c);
    var padded := BillV2(w.units, RoundUp(envelope, 128), events, rows, w.policy, c);
    var offer := Min(padded + padded / 4, U64_MAX);
    Estimate(Max(Max(offer, c.minimumGasBill), c.minimumGasOffer), Min(rows * c.dataEscrowPerRow, U64_MAX), expected)
  }

  function EstimateV1(units: int, payload: int, events: int, rows: int, c: GasConfig): Estimate
    requires c.feeShift >= 0
  {
    var work := MulShift(units, c.feeMultiplier, c.feeShift);
    var blockData := payload + events + rows;
    var offer := c.minimumGasOffer * 2 + work + Max(blockData, 1024) * c.gasFeePerByte;
    Estimate(Min(offer, U64_MAX), Min(rows * c.dataEscrowPerRow, U64_MAX),
             Min(work + blockData * c.gasFeePerByte, U64_MAX))
  }

  /** estimate_native_fee; None is the ValueError. */
  function EstimateFee(k: FeeKind, c: GasConfig, r: Request): Option<Estimate>
    requires ValidConfig(c)
  {
    if r.count < 1 then None
    else
      var w :- WorkFor(k, c, r);
      var rows := RowsFor(k, r);
      if V2(c) then Some(EstimateV2(w, EnvelopeFor(k, r), EventBytes(k), rows, c))
      else Some(EstimateV1(w.units, r.payloadBytes, EventBytes(k), rows, c))
  }

  // ----- monotone arithmetic

  lemma MulMono(a: int, b: int, k: int)
    requires a <= b && k >= 0
    ensures a * k <= b * k
  {
    assert b * k - a * k == (b - a) * k;
  }

  lemma DivMono(a: int, b: int, d: int)
    requires a <= b && d > 0
    ensures a / d <= b / d
  {
    var x, y := a / d, b / d;
    assert a == d * x + a % d && b == d * y + b % d;
    assert d * (x - y) == a - b + b % d - a % d;
    Multiple(d, x - y);
  }

  lemma ShrNonNegative(v: int, s: nat)
    requires v >= 0
    ensures Shr(v, s) >= 0
  {
    DivMono(0, v, Pow2(s));
    assert 0 == Pow2(s) * (0 / Pow2(s)) + 0 % Pow2(s);
    ZeroDiv(Pow2(s));
  }

  lemma ZeroDiv(d: int)
    requires d > 0
    ensures 0 / d == 0
  {
  }

  lemma MulShiftMono(a: int, b: int, m: int, s: nat)
    requires 0 <= a <= b && m >= 0
    ensures 0 <= MulShift(a, m, s) <= MulShift(b, m, s) <= U64_MAX
  {
    MulMono(0, a, m);
    MulMono(a, b, m);
    ShrNonNegative(a * m, s);
    DivMono(a * m, b * m, Pow2(s));
  }

  /** RoundUp gives the least multiple of step that is not below v. */
  lemma RoundUpLeast(v: int, step: int)
    requires step > 0
    ensures v <= RoundUp(v, step) < v + step && RoundUp(v, step) % step == 0
    ensures forall u :: v <= u && u % step == 0 ==> RoundUp(v, step) <= u
  {
    var q := v / step;
    assert v == step * q + v % step;
    var up := RoundUp(v, step);
    var k := if v % step == 0 then q else q + 1;
    assert up == step * k;
    ModUnique(up, step, 0, k);
    forall u | v <= u && u % step == 0 ensures up <= u {
      assert u == step * (u / step);
      assert step * (u / step - k) == u - up;
      Multiple(step, u / step - k);
    }
  }

  lemma RoundUpMono(a: int, b: int, step: int)
    requires a <= b && step > 0
    ensures RoundUp(a, step) <= RoundUp(b, step)
  {
    RoundUpLeast(a, step);
    RoundUpLeast(b, step);
  }

  // ----- what goes in is not negative

  lemma RowsNonNegative(k: FeeKind, r: Request)
    requires r.count >= 1 && NonNegative(r)
    ensures RowsFor(k, r) >= 0 && EnvelopeFor(k, r) >= 0
  {
    MulMono(0, r.count, 2 + (r.romRamBytes + 1023) / 1024);
    MulMono(0, r.count, 64 + r.romRamBytes);
  }

  lemma WorkNonNegative(k: FeeKind, c: GasConfig, r: Request)
    requires ValidConfig(c) && r.count >= 1 && NonNegative(r) && WorkFor(k, c, r).Some?
    ensures WorkFor(k, c, r).value.units >= 0 && WorkFor(k, c, r).value.policy >= 0
  {
    MulMono(0, r.count, c.gasFeeTransfer);
    if k == CreateToken || k == RegisterName {
      var length := if k == CreateToken then r.symbolLength else r.nameLength;
      var shift := if length == 0 then 0 else length - 1;
      ShrNonNegative(c.policyFeeCreateTokenSymbol, shift);
      ShrNonNegative(c.gasFeeCreateTokenSymbol, shift);
      ShrNonNegative(c.policyFeeRegisterName, shift);
      ShrNonNegative(c.gasFeeRegisterName, shift);
    }
  }

  // ----- bounds

  lemma BillV2Mono(
    units1: int, units2: int, env1: int, env2: int, events: int, rows1: int, rows2: int, policy: int, c: GasConfig)
    requires ValidConfig(c) && 0 <= units1 <= units2 && 0 <= env1 <= env2 && 0 <= rows1 <= rows2
    requires events >= 0 && policy >= 0
    ensures 0 <= BillV2(units1, env1, events, rows1, policy, c)
              <= BillV2(units2, env2, events, rows2, policy, c) <= U64_MAX
  {
    MulShiftMono(units1 + (env1 + events + rows1) * 25, units2 + (env2 + events + rows2) * 25,
                 c.feeMultiplier, c.feeShift);
  }

  lemma BoundsV2(w: Work, envelope: int, events: int, rows: int, c: GasConfig)
    requires ValidConfig(c) && w.units >= 0 && w.policy >= 0 && envelope >= 0 && events >= 0 && rows >= 0
    ensures var e := EstimateV2(w, envelope, events, rows, c);
            0 <= e.expected <= e.maxGas <= U64_MAX && 0 <= e.maxData <= U64_MAX
            && c.minimumGasBill <= e.expected && c.minimumGasOffer <= e.maxGas
  {
    RoundUpLeast(envelope, 128);
    BillV2Mono(w.units, w.units, envelope, RoundUp(envelope, 128), events, rows, rows, w.policy, c);
    MulMono(0, rows, c.dataEscrowPerRow);
  }

  lemma BoundsV1(units: int, payload: int, events: int, rows: int, c: GasConfig)
    requires ValidConfig(c) && units >= 0 && payload >= 0 && events >= 0 && rows >= 0
    ensures var e := EstimateV1(units, payload, events, rows, c);
            0 <= e.expected <= e.maxGas <= U64_MAX && 0 <= e.maxData <= U64_MAX
  {
    MulShiftMono(units, units, c.feeMultiplier, c.feeShift);
    var blockData := payload + events + rows;
    MulMono(0, blockData, c.gasFeePerByte);
    MulMono(blockData, Max(blockData, 1024), c.gasFeePerByte);
    MulMono(0, rows, c.dataEscrowPerRow);
  }

  /** Every estimate fits u64 and offers at least the bill it expects. */
  lemma EstimateBounds(k: FeeKind, c: GasConfig, r: Request)
    requires ValidConfig(c) && NonNegative(r) && EstimateFee(k, c, r).Some?
    ensures var e := EstimateFee(k, c, r).value;
            0 <= e.expected <= e.maxGas <= U64_MAX && 0 <= e.maxData <= U64_MAX
  {
    var w := WorkFor(k, c, r).value;
    RowsNonNegative(k, r);
    WorkNonNegative(k, c, r);
    if V2(c) {
      BoundsV2(w, EnvelopeFor(k, r), EventBytes(k), RowsFor(k, r), c);
    } else {
      BoundsV1(w.units, r.payloadBytes, EventBytes(k), RowsFor(k, r), c);
    }
  }

  /** An estimate is refused exactly for a count below one, a name or symbol past
      the configured maximum, or a missing name. */
  lemma EstimateRefused(k: FeeKind, c: GasConfig, r: Request)
    requires ValidConfig(c) && NonNegative(r)
    ensures EstimateFee(k, c, r).None? <==>
            || r.count < 1
            || (k == CreateToken && 0 < c.maxTokenSymbolLength < r.symbolLength)
            || (k == RegisterName && (r.nameLength == 0 || 0 < c.maxNameLength < r.nameLength))
  {
  }

  // ----- clamping

  /** The v2 bill before any clamp. */
  function ExactV2(units: int, blockData: int, policy: int, c: GasConfig): int
    requires c.feeShift >= 0
  {
    policy + if c.feeShift >= 64 then 0 else Shr((units + blockData * 25) * c.feeMultiplier, c.feeShift)
  }

  lemma BillOnce(units: int, envelope: int, events: int, rows: int, policy: int, c: GasConfig)
    requires ValidConfig(c) && policy >= 0
    ensures BillV2(units, envelope, events, rows, policy, c)
         == Max(Min(ExactV2(units, envelope + events + rows, policy, c), U64_MAX), c.minimumGasBill)
  {
  }

  /** Clamping each stage to u64 gives what clamping once gives: the exact bill, and
      the exact bill for the padded envelope with a quarter on top. */
  lemma ClampOnce(w: Work, envelope: int, events: int, rows: int, c: GasConfig)
    requires ValidConfig(c) && w.policy >= 0
    ensures var e := EstimateV2(w, envelope, events, rows, c);
            var exact := ExactV2(w.units, envelope + events + rows, w.policy, c);
            var padded := ExactV2(w.units, RoundUp(envelope, 128) + events + rows, w.policy, c);
            var q := Max(padded, c.minimumGasBill);
            && e.expected == Min(Max(exact, c.minimumGasBill), U64_MAX)
            && e.maxGas == Max(Min(q + q / 4, U64_MAX), c.minimumGasOffer)
  {
    BillOnce(w.units, envelope, events, rows, w.policy, c);
    BillOnce(w.units, RoundUp(envelope, 128), events, rows, w.policy, c);
  }

  /** The same for both v1 results. */
  lemma ClampOnceV1(units: int, payload: int, events: int, rows: int, c: GasConfig)
    requires ValidConfig(c) && payload >= 0 && events >= 0 && rows >= 0
    ensures var e := EstimateV1(units, payload, events, rows, c);
            var work := if c.feeShift >= 64 then 0 else Shr(units * c.feeMultiplier, c.feeShift);
            var data := payload + events + rows;
            && e.expected == Min(work + data * c.gasFeePerByte, U64_MAX)
            && e.maxGas == Min(c.minimumGasOffer * 2 + work + Max(data, 1024) * c.gasFeePerByte, U64_MAX)
  {
    var data := payload + events + rows;
    MulMono(0, data, c.gasFeePerByte);
    MulMono(0, Max(data, 1024), c.gasFeePerByte);
  }

  // ----- monotonicity

  lemma EstimateV2Mono(w1: Work, w2: Work, env1: int, env2: int, events: int, rows1: int, rows2: int, c: GasConfig)
    requires ValidConfig(c) && 0 <= w1.units <= w2.units && 0 <= w1.policy == w2.policy
    requires 0 <= env1 <= env2 && 0 <= rows1 <= rows2 && events >= 0
    ensures NoLess(EstimateV2(w1, env1, events, rows1, c), EstimateV2(w2, env2, events, rows2, c))
  {
    RoundUpLeast(env1, 128);
    RoundUpMono(env1, env2, 128);
    BillV2Mono(w1.units, w2.units, env1, env2, events, rows1, rows2, w1.policy, c);
    BillV2Mono(w1.units, w2.units, RoundUp(env1, 128), RoundUp(env2, 128), events, rows1, rows2, w1.policy, c);
    MulMono(rows1, rows2, c.dataEscrowPerRow);
  }

  lemma EstimateV1Mono(units1: int, units2: int, payload: int, events: int, rows1: int, rows2: int, c: GasConfig)
    requires ValidConfig(c) && 0 <= units1 <= units2 && 0 <= rows1 <= rows2
    ensures NoLess(EstimateV1(units1, payload, events, rows1, c), EstimateV1(units2, payload, events, rows2, c))
  {
    MulShiftMono(units1, units2, c.feeMultiplier, c.feeShift);
    var d1, d2 := payload + events + rows1, payload + events + rows2;
    MulMono(d1, d2, c.gasFeePerByte);
    MulMono(Max(d1, 1024), Max(d2, 1024), c.gasFeePerByte);
    MulMono(rows1, rows2, c.dataEscrowPerRow);
  }

  predicate NoLess(a: Estimate, b: Estimate) {
    a.maxGas <= b.maxGas && a.maxData <= b.maxData && a.expected <= b.expected
  }

  /** The same request for more items, or with more ROM and RAM bytes. */
  predicate Larger(r: Request, s: Request) {
    r.count <= s.count && r.romRamBytes <= s.romRamBytes
    && s == r.(count := s.count, romRamBytes := s.romRamBytes)
  }

  lemma ProductMono(a1: int, a2: int, b1: int, b2: int)
    requires 0 <= a1 <= a2 && 0 <= b1 <= b2
    ensures a1 * b1 <= a2 * b2
  {
    MulMono(a1, a2, b1);
    assert a2 * b1 == b1 * a2 && a2 * b2 == b2 * a2;
    MulMono(b1, b2, a2);
  }

  lemma InputsMono(k: FeeKind, r: Request, s: Request)
    requires r.count >= 1 && NonNegative(r) && Larger(r, s)
    ensures RowsFor(k, r) <= RowsFor(k, s) && EnvelopeFor(k, r) <= EnvelopeFor(k, s)
  {
    ProductMono(r.count, s.count, 2 + (r.romRamBytes + 1023) / 1024, 2 + (s.romRamBytes + 1023) / 1024);
    ProductMono(r.count, s.count, 64 + r.romRamBytes, 64 + s.romRamBytes);
  }

  /** No output decreases when the count or the ROM and RAM bytes grow, and a
      larger request is never refused when a smaller one is not. */
  lemma EstimateMonotone(k: FeeKind, c: GasConfig, r: Request, s: Request)
    requires ValidConfig(c) && NonNegative(r) && Larger(r, s) && EstimateFee(k, c, r).Some?
    ensures EstimateFee(k, c, s).Some?
    ensures NoLess(EstimateFee(k, c, r).value, EstimateFee(k, c, s).value)
  {
    var w1, w2 := WorkFor(k, c, r).value, WorkFor(k, c, s).value;
    RowsNonNegative(k, r);
    WorkNonNegative(k, c, r);
    InputsMono(k, r, s);
    assert c.gasFeeTransfer * r.count <= c.gasFeeTransfer * s.count by {
      ProductMono(c.gasFeeTransfer, c.gasFeeTransfer, r.count, s.count);
    }
    if V2(c) {
      EstimateV2Mono(w1, w2, EnvelopeFor(k, r), EnvelopeFor(k, s), EventBytes(k), RowsFor(k, r), RowsFor(k, s), c);
    } else {
      EstimateV1Mono(w1.units, w2.units, r.payloadBytes, EventBytes(k), RowsFor(k, r), RowsFor(k, s), c);
    }
  }
}
