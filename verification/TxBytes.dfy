/** The bytes of a transaction, written out type by type: which fields each message
    holds, and which witnesses it leaves off the wire. */
module TxBytes {
  import opened Bytes
  import opened TxLayout
  import opened TxMessage
  import Fees
  import Int256
  import Prim

  // ----- fields one after another

  function Cat(parts: seq<Option<bytes>>): Option<bytes> {
    if parts == [] then Some([])
    else
      var e :- parts[0];
      var tail :- Cat(parts[1..]);
      Some(e + tail)
  }

  function Each<A>(xs: seq<A>, f: A -> Option<bytes>): Option<bytes> {
    if xs == [] then Some([])
    else
      var e :- f(xs[0]);
      var tail :- Each(xs[1..], f);
      Some(e + tail)
  }

  /** _write_carbon_array */
  function Counted<A>(xs: seq<A>, f: A -> Option<bytes>): Option<bytes> {
    var c :- Prim.EncCount(|xs|);
    var body :- Each(xs, f);
    Some(c + body)
  }

  function U32(v: int): Option<bytes> { Prim.Enc(Prim.U32, Prim.Num(v)) }

  function U64(v: int): Option<bytes> { Prim.Enc(Prim.U64, Prim.Num(v)) }

  function Amount(v: int): Option<bytes> { Prim.Enc(Prim.IntX, Prim.Num(v)) }

  function Addr(b: bytes): Option<bytes> { Prim.Enc(Prim.B32, Prim.Bin(b)) }

  function Blob(b: bytes): Option<bytes> { Prim.Enc(Prim.Blob, Prim.Bin(b)) }

  function Small(s: string): Option<bytes> { Prim.Enc(Prim.Small, Prim.Txt(s)) }

  // ----- what each class writes

  function WireTransferF(r: TransferF): Option<bytes> { Cat([Addr(r.to), Addr(r.from), U64(r.tokenId), U64(r.amount)]) }

  function WireTransferN(r: TransferN): Option<bytes> {
    Cat([Addr(r.to), Addr(r.from), U64(r.tokenId), U64(r.instanceId)])
  }

  function WireMintF(r: MintF): Option<bytes> { Cat([U64(r.tokenId), Addr(r.to), Amount(r.amount)]) }

  function WireBurnF(r: BurnF): Option<bytes> { Cat([U64(r.tokenId), Addr(r.from), Amount(r.amount)]) }

  function WireMintN(r: MintN): Option<bytes> {
    Cat([U64(r.tokenId), Addr(r.to), U32(r.seriesId), Blob(r.rom), Blob(r.ram)])
  }

  function WireBurnN(r: BurnN): Option<bytes> { Cat([U64(r.tokenId), Addr(r.from), U64(r.instanceId)]) }

  /** The type byte and the payload's bytes. */
  function Wire(p: Payload): (byte, Option<bytes>) {
    match p
    case CallOne(c) => (0, EncCall(c))
    case CallMulti(cs) => (1, Counted(cs, EncCall))
    case Trade(tf, tn, mf, bf, mn, bn) =>
      (2, Cat([Counted(tf, WireTransferF), Counted(tn, WireTransferN), Counted(mf, WireMintF),
               Counted(bf, WireBurnF), Counted(mn, WireMintN), Counted(bn, WireBurnN)]))
    case TransferFungible(to, id, amount) => (3, Cat([Addr(to), U64(id), U64(amount)]))
    case TransferFungibleGasPayer(r) => (4, WireTransferF(r))
    case TransferNonFungibleSingle(to, id, instance) => (5, Cat([Addr(to), U64(id), U64(instance)]))
    case TransferNonFungibleSingleGasPayer(r) => (6, WireTransferN(r))
    case TransferNonFungibleMulti(to, id, ids) => (7, Cat([Addr(to), U64(id), Counted(ids, U64)]))
    case TransferNonFungibleMultiGasPayer(to, from, id, ids) =>
      (8, Cat([Addr(to), Addr(from), U64(id), Counted(ids, U64)]))
    case MintFungible(r) => (9, WireMintF(r))
    case BurnFungible(id, amount) => (10, Cat([U64(id), Amount(amount)]))
    case BurnFungibleGasPayer(r) => (11, WireBurnF(r))
    case MintNonFungible(r) => (12, WireMintN(r))
    case BurnNonFungible(id, instance) => (13, Cat([U64(id), U64(instance)]))
    case BurnNonFungibleGasPayer(r) => (14, WireBurnN(r))
    case Phantasma(nexus, chain, script) => (15, Cat([Small(nexus), Small(chain), Blob(script)]))
    case PhantasmaRaw(transaction) => (16, Blob(transaction))
  }

  // ----- is what its layout writes

  lemma {:induction false} PartsCat(ps: seq<Part>, ds: seq<Data>, es: seq<Option<bytes>>)
    requires |ps| == |ds| == |es| && forall i :: 0 <= i < |ps| ==> EncPart(ps[i], ds[i]) == es[i]
    ensures EncParts(ps, ds) == Cat(es)
    decreases |ps|
  {
    if ps != [] {
      assert EncPart(ps[0], ds[0]) == es[0];
      PartsCat(ps[1..], ds[1..], es[1..]);
    }
  }

  lemma {:induction false} RecordsEach<A>(row: seq<Part>, xs: seq<A>, f: A -> seq<Data>, g: A -> Option<bytes>)
    requires forall x :: x in xs ==> EncParts(row, f(x)) == g(x)
    ensures EncRecords(row, Table(xs, f).rows) == Each(xs, g)
  {
    var rs := Table(xs, f).rows;
    if xs != [] {
      assert xs[0] in xs && rs[0].items == f(xs[0]);
      assert rs[1..] == Table(xs[1..], f).rows;
      RecordsEach(row, xs[1..], f, g);
    }
  }

  lemma TableCounted<A>(row: seq<Part>, xs: seq<A>, f: A -> seq<Data>, g: A -> Option<bytes>)
    requires forall x :: x in xs ==> EncParts(row, f(x)) == g(x)
    ensures EncPart(Arr(row), Table(xs, f)) == Counted(xs, g)
  {
    RecordsEach(row, xs, f, g);
  }

  lemma TransferFWrites(r: TransferF)
    ensures EncParts(TRANSFER, OfTransferF(r)) == WireTransferF(r)
  {
    hide EncParts, Cat, Prim.Enc;
    PartsCat(TRANSFER, OfTransferF(r), [Addr(r.to), Addr(r.from), U64(r.tokenId), U64(r.amount)]);
  }

  lemma TransferFTable(rs: seq<TransferF>)
    ensures EncPart(Arr(TRANSFER), Table(rs, OfTransferF)) == Counted(rs, WireTransferF)
  {
    forall r ensures EncParts(TRANSFER, OfTransferF(r)) == WireTransferF(r) { TransferFWrites(r); }
    TableCounted(TRANSFER, rs, OfTransferF, WireTransferF);
  }

  lemma TransferNWrites(r: TransferN)
    ensures EncParts(TRANSFER, OfTransferN(r)) == WireTransferN(r)
  {
    hide EncParts, Cat, Prim.Enc;
    PartsCat(TRANSFER, OfTransferN(r), [Addr(r.to), Addr(r.from), U64(r.tokenId), U64(r.instanceId)]);
  }

  lemma TransferNTable(rs: seq<TransferN>)
    ensures EncPart(Arr(TRANSFER), Table(rs, OfTransferN)) == Counted(rs, WireTransferN)
  {
    forall r ensures EncParts(TRANSFER, OfTransferN(r)) == WireTransferN(r) { TransferNWrites(r); }
    TableCounted(TRANSFER, rs, OfTransferN, WireTransferN);
  }

  lemma MintFWrites(r: MintF)
    ensures EncParts(MINT_F, OfMintF(r)) == WireMintF(r)
  {
    hide EncParts, Cat, Prim.Enc;
    PartsCat(MINT_F, OfMintF(r), [U64(r.tokenId), Addr(r.to), Amount(r.amount)]);
  }

  lemma MintFTable(rs: seq<MintF>)
    ensures EncPart(Arr(MINT_F), Table(rs, OfMintF)) == Counted(rs, WireMintF)
  {
    forall r ensures EncParts(MINT_F, OfMintF(r)) == WireMintF(r) { MintFWrites(r); }
    TableCounted(MINT_F, rs, OfMintF, WireMintF);
  }

  lemma BurnFWrites(r: BurnF)
    ensures EncParts(BURN_F, OfBurnF(r)) == WireBurnF(r)
  {
    hide EncParts, Cat, Prim.Enc;
    PartsCat(BURN_F, OfBurnF(r), [U64(r.tokenId), Addr(r.from), Amount(r.amount)]);
  }

  lemma BurnFTable(rs: seq<BurnF>)
    ensures EncPart(Arr(BURN_F), Table(rs, OfBurnF)) == Counted(rs, WireBurnF)
  {
    forall r ensures EncParts(BURN_F, OfBurnF(r)) == WireBurnF(r) { BurnFWrites(r); }
    TableCounted(BURN_F, rs, OfBurnF, WireBurnF);
  }

  lemma MintNWrites(r: MintN)
    ensures EncParts(MINT_N, OfMintN(r)) == WireMintN(r)
  {
    hide EncParts, Cat, Prim.Enc;
    PartsCat(MINT_N, OfMintN(r), [U64(r.tokenId), Addr(r.to), U32(r.seriesId), Blob(r.rom), Blob(r.ram)]);
  }

  lemma MintNTable(rs: seq<MintN>)
    ensures EncPart(Arr(MINT_N), Table(rs, OfMintN)) == Counted(rs, WireMintN)
  {
    forall r ensures EncParts(MINT_N, OfMintN(r)) == WireMintN(r) { MintNWrites(r); }
    TableCounted(MINT_N, rs, OfMintN, WireMintN);
  }

  lemma BurnNWrites(r: BurnN)
    ensures EncParts(BURN_N, OfBurnN(r)) == WireBurnN(r)
  {
    hide EncParts, Cat, Prim.Enc;
    PartsCat(BURN_N, OfBurnN(r), [U64(r.tokenId), Addr(r.from), U64(r.instanceId)]);
  }

  lemma BurnNTable(rs: seq<BurnN>)
    ensures EncPart(Arr(BURN_N), Table(rs, OfBurnN)) == Counted(rs, WireBurnN)
  {
    forall r ensures EncParts(BURN_N, OfBurnN(r)) == WireBurnN(r) { BurnNWrites(r); }
    TableCounted(BURN_N, rs, OfBurnN, WireBurnN);
  }

  lemma CallsTable(cs: seq<Call>)
    ensures EncPart(Arr([CallPart]), Table(cs, OfCall)) == Counted(cs, EncCall)
  {
    forall c ensures EncParts([CallPart], OfCall(c)) == EncCall(c) { LastPart(CallPart, CallData(c)); }
    TableCounted([CallPart], cs, OfCall, EncCall);
  }

  lemma IdsTable(ids: seq<int>)
    ensures EncPart(Arr([P(Prim.U64)]), Table(ids, OfId)) == Counted(ids, U64)
  {
    forall v ensures EncParts([P(Prim.U64)], OfId(v)) == U64(v) { LastPart(P(Prim.U64), N(v)); }
    TableCounted([P(Prim.U64)], ids, OfId, U64);
  }

  lemma TradeWrites(p: Payload)
    requires p.Trade?
    ensures EncParts(Layout(2).value, ToData(p)) == Wire(p).1
  {
    hide EncParts, EncPart, Cat, Table, Counted;
    TransferFTable(p.transferF);
    TransferNTable(p.transferN);
    MintFTable(p.mintF);
    BurnFTable(p.burnF);
    MintNTable(p.mintN);
    BurnNTable(p.burnN);
    PartsCat(Layout(2).value, ToData(p), [
      Counted(p.transferF, WireTransferF), Counted(p.transferN, WireTransferN), Counted(p.mintF, WireMintF),
      Counted(p.burnF, WireBurnF), Counted(p.mintN, WireMintN), Counted(p.burnN, WireBurnN)]);
  }

  lemma CallsWrite(p: Payload)
    requires p.CallOne? || p.CallMulti?
    ensures EncParts(Layout(TypeTag(p)).value, ToData(p)) == Wire(p).1
  {
    hide EncParts, Table, Counted;
    if p.CallOne? {
      LastPart(CallPart, CallData(p.call));
    } else {
      LastPart(Arr([CallPart]), Table(p.calls, OfCall));
      CallsTable(p.calls);
    }
  }

  lemma MultiWrites(p: Payload)
    requires p.TransferNonFungibleMulti? || p.TransferNonFungibleMultiGasPayer?
    ensures EncParts(Layout(TypeTag(p)).value, ToData(p)) == Wire(p).1
  {
    hide EncParts, Cat, Table, Counted, Prim.Enc;
    IdsTable(p.instanceIds);
    var ids := Counted(p.instanceIds, U64);
    if p.TransferNonFungibleMulti? {
      PartsCat(Layout(7).value, ToData(p), [Addr(p.to), U64(p.tokenId), ids]);
    } else {
      PartsCat(Layout(8).value, ToData(p), [Addr(p.to), Addr(p.from), U64(p.tokenId), ids]);
    }
  }

  /** The types whose payload is a record that trades use too. */
  lemma RecordWrites(p: Payload)
    requires p.TransferFungibleGasPayer? || p.TransferNonFungibleSingleGasPayer? || p.MintFungible?
          || p.BurnFungibleGasPayer? || p.MintNonFungible? || p.BurnNonFungibleGasPayer?
    ensures EncParts(Layout(TypeTag(p)).value, ToData(p)) == Wire(p).1
  {
    hide EncParts, Cat, WireTransferF, WireTransferN, WireMintF, WireBurnF, WireMintN, WireBurnN;
    hide OfTransferF, OfTransferN, OfMintF, OfBurnF, OfMintN, OfBurnN;
    match p
    case TransferFungibleGasPayer(r) => TransferFWrites(r);
    case TransferNonFungibleSingleGasPayer(r) => TransferNWrites(r);
    case MintFungible(r) => MintFWrites(r);
    case BurnFungibleGasPayer(r) => BurnFWrites(r);
    case MintNonFungible(r) => MintNWrites(r);
    case BurnNonFungibleGasPayer(r) => BurnNWrites(r);
  }

  lemma PlainWrites(p: Payload)
    requires p.TransferFungible? || p.TransferNonFungibleSingle? || p.BurnFungible? || p.BurnNonFungible?
          || p.Phantasma? || p.PhantasmaRaw?
    ensures EncParts(Layout(TypeTag(p)).value, ToData(p)) == Wire(p).1
  {
    hide EncParts, Cat, Prim.Enc;
    match p
    case TransferFungible(to, id, amount) => PartsCat(Layout(3).value, ToData(p), [Addr(to), U64(id), U64(amount)]);
    case TransferNonFungibleSingle(to, id, instance) =>
      PartsCat(Layout(5).value, ToData(p), [Addr(to), U64(id), U64(instance)]);
    case BurnFungible(id, amount) => PartsCat(Layout(10).value, ToData(p), [U64(id), Amount(amount)]);
    case BurnNonFungible(id, instance) => PartsCat(Layout(13).value, ToData(p), [U64(id), U64(instance)]);
    case Phantasma(nexus, chain, script) =>
      PartsCat(Layout(15).value, ToData(p), [Small(nexus), Small(chain), Blob(script)]);
    case PhantasmaRaw(transaction) => LastPart(P(Prim.Blob), B(transaction));
  }

  lemma PayloadWrites(p: Payload)
    ensures TypeTag(p) == Wire(p).0 && Layout(TypeTag(p)).Some?
    ensures EncParts(Layout(TypeTag(p)).value, ToData(p)) == Wire(p).1
  {
    hide EncParts, ToData;
    LayoutKnown(p);
    match p
    case CallOne(_) => CallsWrite(p);
    case CallMulti(_) => CallsWrite(p);
    case Trade(_, _, _, _, _, _) => TradeWrites(p);
    case TransferNonFungibleMulti(_, _, _) => MultiWrites(p);
    case TransferNonFungibleMultiGasPayer(_, _, _, _) => MultiWrites(p);
    case TransferFungible(_, _, _) => PlainWrites(p);
    case TransferNonFungibleSingle(_, _, _) => PlainWrites(p);
    case BurnFungible(_, _) => PlainWrites(p);
    case BurnNonFungible(_, _) => PlainWrites(p);
    case Phantasma(_, _, _) => PlainWrites(p);
    case PhantasmaRaw(_) => PlainWrites(p);
    case _ => RecordWrites(p);
  }

  /** A message is its type byte, expiry, gas and data limits, gas payer, payload text
      and the fields of its type. */
  lemma MsgWrites(m: Msg)
    ensures EncMsg(m) == Cat([Some([Wire(m.msg).0]), Prim.Enc(Prim.I64, Prim.Num(m.expiry)), U64(m.maxGas),
                              U64(m.maxData), Addr(m.gasFrom), Small(m.payload), Wire(m.msg).1])
  {
    hide EncParts, Prim.Enc, Wire, Layout, ToData;
    PayloadWrites(m.msg);
    var head := [Prim.Enc(Prim.I64, Prim.Num(m.expiry)), U64(m.maxGas), U64(m.maxData), Addr(m.gasFrom), Small(m.payload)];
    PartsCat(HEADER, HeaderData(m), head);
    CatAppend(head, Wire(m.msg).1);
    var all := [Some([Wire(m.msg).0])] + (head + [Wire(m.msg).1]);
    assert all[1..] == head + [Wire(m.msg).1];
    assert all == [Some([Wire(m.msg).0]), Prim.Enc(Prim.I64, Prim.Num(m.expiry)), U64(m.maxGas),
                   U64(m.maxData), Addr(m.gasFrom), Small(m.payload), Wire(m.msg).1];
  }

  lemma {:induction false} CatAppend(head: seq<Option<bytes>>, last: Option<bytes>)
    ensures Cat(head + [last])
         == if Cat(head).Some? && last.Some? then Some(Cat(head).value + last.value) else None
  {
    if head == [] {
      assert [last][1..] == [];
      assert last.Some? ==> last.value + [] == last.value && [] + last.value == last.value;
    } else {
      assert (head + [last])[1..] == head[1..] + [last];
      CatAppend(head[1..], last);
      if Cat(head).Some? && last.Some? {
        assert head[0].value + Cat(head[1..]).value + last.value == head[0].value + (Cat(head[1..]).value + last.value);
      }
    }
  }

  // ----- witnesses

  /** The seven types signed by the gas payer alone. */
  predicate Single(p: Payload) {
    || p.TransferFungible? || p.TransferNonFungibleSingle? || p.TransferNonFungibleMulti? || p.MintFungible?
    || p.BurnFungible? || p.MintNonFungible? || p.BurnNonFungible?
  }

  /** The five types signed by the gas payer and by the owner. */
  predicate Double(p: Payload) {
    || p.TransferFungibleGasPayer? || p.TransferNonFungibleSingleGasPayer? || p.TransferNonFungibleMultiGasPayer?
    || p.BurnFungibleGasPayer? || p.BurnNonFungibleGasPayer?
  }

  /** The four types that carry witnesses in full. */
  predicate InArray(p: Payload) { p.CallOne? || p.CallMulti? || p.Trade? || p.Phantasma? }

  /** The bare signature of the gas payer. */
  lemma SingleSigned(s: Signed)
    requires Single(s.msg.msg)
    ensures var m, ws := EncMsg(s.msg), s.witnesses;
            EncTx(s) == if m.Some? && |ws| == 1 && ws[0].address == s.msg.gasFrom && |ws[0].signature| == 64
                        then Some(m.value + ws[0].signature) else None
  {
    hide EncMsg;
  }

  /** The bare signatures of the gas payer and of whoever is second. */
  lemma DoubleSigned(s: Signed)
    requires Double(s.msg.msg)
    ensures var m, ws := EncMsg(s.msg), s.witnesses;
            EncTx(s) == if m.Some? && |ws| == 2 && ws[0].address == s.msg.gasFrom
                           && |ws[0].signature| == 64 && |ws[1].signature| == 64
                        then Some(m.value + (ws[0].signature + ws[1].signature)) else None
  {
    hide EncMsg;
  }

  /** A count and every address with its signature. */
  lemma ArraySigned(s: Signed)
    requires InArray(s.msg.msg)
    ensures var m, ws := EncMsg(s.msg), s.witnesses;
            EncTx(s) == if m.Some? && |ws| < 0x8000_0000
                           && forall w :: w in ws ==> |w.address| == 32 && |w.signature| == 64
                        then Some(m.value + (LE(|ws|, 4) + InFull(ws))) else None
  {
    hide EncMsg, EncPart, LE, InFull;
    WitnessesWrite(s.witnesses);
  }

  predicate Whole(ws: seq<Witness>) { forall w :: w in ws ==> |w.address| == 32 && |w.signature| == 64 }

  lemma CountBytes(n: nat)
    ensures Prim.EncCount(n) == if n < 0x8000_0000 then Some(LE(n, 4)) else None
  {
    assert Pow256(4) == 0x1_0000_0000;
  }

  lemma WitnessesWrite(ws: seq<Witness>)
    ensures EncPart(WITNESSES, Table(ws, OfWitness))
         == if |ws| < 0x8000_0000 && Whole(ws) then Some(LE(|ws|, 4) + InFull(ws)) else None
  {
    hide EncParts, Table, LE, Prim.EncCount;
    forall w ensures EncParts([B32, B64], OfWitness(w)) == WitnessBytes(w) { WitnessWrites(w); }
    TableCounted([B32, B64], ws, OfWitness, WitnessBytes);
    AllInFull(ws);
    CountBytes(|ws|);
  }

  function WitnessBytes(w: Witness): Option<bytes> {
    if |w.address| == 32 && |w.signature| == 64 then Some(w.address + w.signature) else None
  }

  function InFull(ws: seq<Witness>): bytes {
    if ws == [] then [] else ws[0].address + ws[0].signature + InFull(ws[1..])
  }

  lemma WitnessWrites(w: Witness)
    ensures EncParts([B32, B64], OfWitness(w)) == WitnessBytes(w)
  {
    assert [B32, B64][1..] == [B64] && OfWitness(w)[1..] == [B(w.signature)];
    LastPart(B64, B(w.signature));
  }

  lemma {:induction false} AllInFull(ws: seq<Witness>)
    ensures Each(ws, WitnessBytes)
         == if Whole(ws) then Some(InFull(ws)) else None
  {
    if ws != [] {
      AllInFull(ws[1..]);
      assert ws == [ws[0]] + ws[1..];
    }
  }

  /** A raw transaction brings its own. */
  lemma RawSigned(s: Signed)
    requires s.msg.msg.PhantasmaRaw?
    ensures EncTx(s) == if s.witnesses == [] then EncMsg(s.msg) else None
  {
    hide EncMsg;
    if EncMsg(s.msg).Some? { assert EncMsg(s.msg).value + [] == EncMsg(s.msg).value; }
  }

  // ----- the estimator's envelope

  /** The messages that an operation is sent as. */
  predicate SentAs(k: Fees.FeeKind, p: Payload) {
    match k
    case TransferFungible => p.TransferFungible? || p.TransferFungibleGasPayer?
    case TransferNonFungible =>
      || p.TransferNonFungibleSingle? || p.TransferNonFungibleSingleGasPayer?
      || p.TransferNonFungibleMulti? || p.TransferNonFungibleMultiGasPayer?
    case MintFungible => p.MintFungible?
    case MintNonFungible => p.MintNonFungible?
    case BurnFungible => p.BurnFungible? || p.BurnFungibleGasPayer?
    case BurnNonFungible => p.BurnNonFungible? || p.BurnNonFungibleGasPayer?
    case CreateToken => p.CallOne?
    case CreateTokenSeries => p.CallOne?
    case RegisterName => p.CallOne?
    case Script => p.Phantasma?
  }

  lemma {:induction false} InFullLength(ws: seq<Witness>)
    requires Whole(ws)
    ensures |InFull(ws)| == 96 * |ws|
  {
    if ws != [] { InFullLength(ws[1..]); }
  }

  lemma SignedLength(s: Signed)
    requires EncTx(s).Some?
    ensures var n := |EncMsg(s.msg).value|;
            |EncTx(s).value| == if InArray(s.msg.msg) then n + 4 + 96 * |s.witnesses| else n + 64 * |s.witnesses|
  {
    hide EncTx, EncMsg;
    var p := s.msg.msg;
    if Single(p) { SingleSigned(s); }
    else if Double(p) { DoubleSigned(s); }
    else if InArray(p) { ArraySigned(s); InFullLength(s.witnesses); }
    else { RawSigned(s); }
  }

  /** The token operations price messages with bare signatures, the others messages
      that carry their witnesses. */
  predicate Prices(k: Fees.FeeKind, p: Payload) {
    if k in {Fees.TransferFungible, Fees.TransferNonFungible, Fees.MintFungible, Fees.MintNonFungible,
             Fees.BurnFungible, Fees.BurnNonFungible}
    then Single(p) || Double(p) else InArray(p)
  }

  /** The envelope formula is the signed length of every message of a type the
      operation prices, */
  lemma EnvelopeExact(k: Fees.FeeKind, s: Signed)
    requires EncTx(s).Some? && Prices(k, s.msg.msg)
    ensures Fees.EnvelopeBytes(k, |EncMsg(s.msg).value|, |s.witnesses|) == Some(|EncTx(s).value|)
  {
    hide EncTx, EncMsg;
    SignedLength(s);
  }

  /** so of those it is sent as. */
  lemma OperationEnvelope(k: Fees.FeeKind, s: Signed)
    requires EncTx(s).Some? && SentAs(k, s.msg.msg)
    ensures Fees.EnvelopeBytes(k, |EncMsg(s.msg).value|, |s.witnesses|) == Some(|EncTx(s).value|)
  {
    hide EncTx, EncMsg;
    EnvelopeExact(k, s);
  }

  // ----- the witnesses read back

  /** a is the address in the payload's from field. */
  predicate Owner(p: Payload, a: bytes) {
    && (p.TransferFungibleGasPayer? ==> a == p.tf.from)
    && (p.TransferNonFungibleSingleGasPayer? ==> a == p.tn.from)
    && (p.TransferNonFungibleMultiGasPayer? ==> a == p.from)
    && (p.BurnFungibleGasPayer? ==> a == p.bf.from)
    && (p.BurnNonFungibleGasPayer? ==> a == p.bn.from)
  }

  /** Types that have no from field stand for the zero address. */
  lemma AddressExactly(p: Payload)
    ensures Owner(p, FromAddress(p)) && (!Double(p) ==> FromAddress(p) == Fill(0, 32))
  {
  }

  /** Every witness comes back as it was, save that the second of two bare signatures
      is taken to be the owner's. */
  lemma WitnessesBack(s: Signed, rest: bytes, owner: bytes)
    requires EncTx(s).Some? && Sendable(s.msg.msg) && Owner(s.msg.msg, owner)
    ensures DecTx(EncTx(s).value + rest).Ok? && DecTx(EncTx(s).value + rest).rest == rest
    ensures var ws, back := s.witnesses, DecTx(EncTx(s).value + rest).v.witnesses;
            if Double(s.msg.msg) then |ws| == 2 && back == [ws[0], Witness(owner, ws[1].signature)] else back == ws
  {
    hide EncMsg, DecTx, Sendable;
    TxBack(s, rest);
    if Double(s.msg.msg) { DoubleSigned(s); }
  }

  // ----- which messages the round trips speak of

  /** Every IntX amount of the message lies in the signed 256-bit range. */
  predicate AmountsFit(p: Payload) {
    && (p.MintFungible? ==> Int256.Signed256(p.mf.amount))
    && (p.BurnFungible? ==> Int256.Signed256(p.amount))
    && (p.BurnFungibleGasPayer? ==> Int256.Signed256(p.bf.amount))
    && (p.Trade? ==>
          && (forall r :: r in p.mintF ==> Int256.Signed256(r.amount))
          && (forall r :: r in p.burnF ==> Int256.Signed256(r.amount)))
  }

  lemma {:induction false} CarriedEach(ps: seq<Part>, ds: seq<Data>)
    requires |ps| == |ds|
    ensures CarriedAll(ps, ds) <==> forall i :: 0 <= i < |ps| ==> Carried(ps[i], ds[i])
    decreases |ps|
  {
    if ps != [] {
      CarriedEach(ps[1..], ds[1..]);
      assert forall i :: 0 < i < |ps| ==> ps[i] == ps[1..][i - 1] && ds[i] == ds[1..][i - 1];
    }
  }

  /** All are sendable but those with an amount that is out of range. */
  lemma SendableExactly(p: Payload)
    ensures Sendable(p) <==> AmountsFit(p)
  {
    hide Sendable;
    if p.Trade? { TradeSendable(p); }
    else if p.CallMulti? || p.TransferNonFungibleMulti? || p.TransferNonFungibleMultiGasPayer? { TablesSendable(p); }
    else { SimpleSendable(p); }
  }

  lemma TablesSendable(p: Payload)
    requires p.CallMulti? || p.TransferNonFungibleMulti? || p.TransferNonFungibleMultiGasPayer?
    ensures Sendable(p)
  {
    hide CarriedAll, CarriedRecords, Table;
    SameLength(p);
    CarriedEach(Layout(TypeTag(p)).value, ToData(p));
    if p.CallMulti? { TableCarried(p.calls, OfCall, [CallPart]); }
    else { TableCarried(p.instanceIds, OfId, [P(Prim.U64)]); }
  }

  lemma SimpleSendable(p: Payload)
    requires !p.Trade? && !p.CallMulti? && !p.TransferNonFungibleMulti? && !p.TransferNonFungibleMultiGasPayer?
    ensures Sendable(p) <==> AmountsFit(p)
  {
    hide Int256.Signed256, CarriedAll;
    SameLength(p);
    var ps, ds := Layout(TypeTag(p)).value, ToData(p);
    CarriedEach(ps, ds);
    assert p.BurnFungible? ==> Carried(ps[1], ds[1]) == Int256.Signed256(p.amount);
    assert p.MintFungible? ==> Carried(ps[2], ds[2]) == Int256.Signed256(p.mf.amount);
    assert p.BurnFungibleGasPayer? ==> Carried(ps[2], ds[2]) == Int256.Signed256(p.bf.amount);
  }

  lemma SameLength(p: Payload)
    ensures Layout(TypeTag(p)).Some? && |Layout(TypeTag(p)).value| == |ToData(p)|
  {
  }

  /** Rows without amounts are always carried. */
  lemma TableCarried<A>(xs: seq<A>, f: A -> seq<Data>, row: seq<Part>)
    requires forall i :: 0 <= i < |row| ==> row[i] == CallPart || (row[i].P? && row[i].k != Prim.IntX)
    ensures Carried(Arr(row), Table(xs, f))
  {
    RecordsCarried(row, Table(xs, f).rows);
  }

  lemma {:induction false} RecordsCarried(row: seq<Part>, rs: seq<Record>)
    requires forall i :: 0 <= i < |row| ==> row[i] == CallPart || (row[i].P? && row[i].k != Prim.IntX)
    ensures CarriedRecords(row, rs)
    decreases |rs|
  {
    if rs != [] {
      PartsCarried(row, rs[0].items);
      RecordsCarried(row, rs[1..]);
    }
  }

  lemma {:induction false} PartsCarried(ps: seq<Part>, ds: seq<Data>)
    requires forall i :: 0 <= i < |ps| ==> ps[i] == CallPart || (ps[i].P? && ps[i].k != Prim.IntX)
    ensures CarriedAll(ps, ds)
    decreases |ps|
  {
    if ps != [] && ds != [] { PartsCarried(ps[1..], ds[1..]); }
  }

  lemma AmountLast(ps: seq<Part>, ds: seq<Data>)
    requires ps == [P(Prim.U64), P(Prim.B32), P(Prim.IntX)] && |ds| == 3
    ensures CarriedAll(ps, ds) <==> Carried(P(Prim.IntX), ds[2])
  {
    CarriedEach(ps, ds);
  }

  lemma {:induction false} MintsCarried(rs: seq<MintF>)
    ensures CarriedRecords(MINT_F, Table(rs, OfMintF).rows) <==> forall r :: r in rs ==> Int256.Signed256(r.amount)
  {
    hide Int256.Signed256, CarriedAll;
    if rs != [] {
      assert Table(rs, OfMintF).rows[1..] == Table(rs[1..], OfMintF).rows;
      MintsCarried(rs[1..]);
      AmountLast(MINT_F, OfMintF(rs[0]));
      assert rs == [rs[0]] + rs[1..];
    }
  }

  lemma {:induction false} BurnsCarried(rs: seq<BurnF>)
    ensures CarriedRecords(BURN_F, Table(rs, OfBurnF).rows) <==> forall r :: r in rs ==> Int256.Signed256(r.amount)
  {
    hide Int256.Signed256, CarriedAll;
    if rs != [] {
      assert Table(rs, OfBurnF).rows[1..] == Table(rs[1..], OfBurnF).rows;
      BurnsCarried(rs[1..]);
      AmountLast(BURN_F, OfBurnF(rs[0]));
      assert rs == [rs[0]] + rs[1..];
    }
  }

  lemma AmountTables(mints: seq<MintF>, burns: seq<BurnF>)
    ensures Carried(Arr(MINT_F), Table(mints, OfMintF)) <==> forall r :: r in mints ==> Int256.Signed256(r.amount)
    ensures Carried(Arr(BURN_F), Table(burns, OfBurnF)) <==> forall r :: r in burns ==> Int256.Signed256(r.amount)
  {
    MintsCarried(mints);
    BurnsCarried(burns);
  }

  lemma TradeSendable(p: Payload)
    requires p.Trade?
    ensures Sendable(p) <==> AmountsFit(p)
  {
    hide CarriedAll, CarriedRecords, Carried, Table, Int256.Signed256;
    TableCarried(p.transferF, OfTransferF, TRANSFER);
    TableCarried(p.transferN, OfTransferN, TRANSFER);
    AmountTables(p.mintF, p.burnF);
    TableCarried(p.mintN, OfMintN, MINT_N);
    TableCarried(p.burnN, OfBurnN, BURN_N);
    CarriedEach(Layout(2).value, ToData(p));
    var ps, ds := Layout(2).value, ToData(p);
    assert Carried(ps[0], ds[0]) && Carried(ps[1], ds[1]) && Carried(ps[4], ds[4]) && Carried(ps[5], ds[5]);
    assert (forall i :: 0 <= i < |ps| ==> Carried(ps[i], ds[i])) <==> Carried(ps[2], ds[2]) && Carried(ps[3], ds[3]);
  }
}
