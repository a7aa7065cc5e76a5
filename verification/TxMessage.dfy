/** Transactions: seventeen payload types, and signatures whose witness
    addresses are left off the wire where the message already names them. */
module TxMessage {
  import opened Bytes
  import opened TxLayout
  import Fees
  import Int256
  import Prim

  // ----- payload records, fields in wire order

  datatype TransferF = TransferF(to: bytes, from: bytes, tokenId: int, amount: int)
  datatype TransferN = TransferN(to: bytes, from: bytes, tokenId: int, instanceId: int)
  datatype MintF = MintF(tokenId: int, to: bytes, amount: int)
  datatype BurnF = BurnF(tokenId: int, from: bytes, amount: int)
  datatype MintN = MintN(tokenId: int, to: bytes, seriesId: int, rom: bytes, ram: bytes)
  datatype BurnN = BurnN(tokenId: int, from: bytes, instanceId: int)

  /** A payload's constructor is its TxType. */
  datatype Payload =
    | CallOne(call: Call)
    | CallMulti(calls: seq<Call>)
    | Trade(transferF: seq<TransferF>, transferN: seq<TransferN>, mintF: seq<MintF>,
            burnF: seq<BurnF>, mintN: seq<MintN>, burnN: seq<BurnN>)
    | TransferFungible(to: bytes, tokenId: int, amount: int)
    | TransferFungibleGasPayer(tf: TransferF)
    | TransferNonFungibleSingle(to: bytes, tokenId: int, instanceId: int)
    | TransferNonFungibleSingleGasPayer(tn: TransferN)
    | TransferNonFungibleMulti(to: bytes, tokenId: int, instanceIds: seq<int>)
    | TransferNonFungibleMultiGasPayer(to: bytes, from: bytes, tokenId: int, instanceIds: seq<int>)
    | MintFungible(mf: MintF)
    | BurnFungible(tokenId: int, amount: int)
    | BurnFungibleGasPayer(bf: BurnF)
    | MintNonFungible(mn: MintN)
    | BurnNonFungible(tokenId: int, instanceId: int)
    | BurnNonFungibleGasPayer(bn: BurnN)
    | Phantasma(nexus: string, chain: string, script: bytes)
    | PhantasmaRaw(transaction: bytes)

  datatype Msg = Msg(
    expiry: int, maxGas: int, maxData: int, gasFrom: bytes, payload: string, msg: Payload)

  datatype Witness = Witness(address: bytes, signature: bytes)

  datatype Signed = Signed(msg: Msg, witnesses: seq<Witness>)

  // ----- layouts

  const U32 := P(Prim.U32)
  const U64 := P(Prim.U64)
  const B32 := P(Prim.B32)
  const B64 := P(Prim.B64)
  const IX := P(Prim.IntX)
  const BLOB := P(Prim.Blob)
  const SMALL := P(Prim.Small)
  const TRANSFER := [B32, B32, U64, U64]
  const MINT_F := [U64, B32, IX]
  const BURN_F := [U64, B32, IX]
  const MINT_N := [U64, B32, U32, BLOB, BLOB]
  const BURN_N := [U64, B32, U64]
  const HEADER := [P(Prim.I64), U64, U64, B32, SMALL]
  const WITNESSES := Arr([B32, B64])

  function TypeTag(p: Payload): byte {
    match p
    case CallOne(_) => 0
    case CallMulti(_) => 1
    case Trade(_, _, _, _, _, _) => 2
    case TransferFungible(_, _, _) => 3
    case TransferFungibleGasPayer(_) => 4
    case TransferNonFungibleSingle(_, _, _) => 5
    case TransferNonFungibleSingleGasPayer(_) => 6
    case TransferNonFungibleMulti(_, _, _) => 7
    case TransferNonFungibleMultiGasPayer(_, _, _, _) => 8
    case MintFungible(_) => 9
    case BurnFungible(_, _) => 10
    case BurnFungibleGasPayer(_) => 11
    case MintNonFungible(_) => 12
    case BurnNonFungible(_, _) => 13
    case BurnNonFungibleGasPayer(_) => 14
    case Phantasma(_, _, _) => 15
    case PhantasmaRaw(_) => 16
  }

  /** The payload layout of a TxType; None is an unknown type. */
  function Layout(tag: byte): Option<seq<Part>> {
    match tag
    case 0 => Some([CallPart])
    case 1 => Some([Arr([CallPart])])
    case 2 => Some([Arr(TRANSFER), Arr(TRANSFER), Arr(MINT_F), Arr(BURN_F), Arr(MINT_N), Arr(BURN_N)])
    case 3 => Some([B32, U64, U64])
    case 4 => Some(TRANSFER)
    case 5 => Some([B32, U64, U64])
    case 6 => Some(TRANSFER)
    case 7 => Some([B32, U64, Arr([U64])])
    case 8 => Some([B32, B32, U64, Arr([U64])])
    case 9 => Some(MINT_F)
    case 10 => Some([U64, IX])
    case 11 => Some(BURN_F)
    case 12 => Some(MINT_N)
    case 13 => Some([U64, U64])
    case 14 => Some(BURN_N)
    case 15 => Some([SMALL, SMALL, BLOB])
    case 16 => Some([BLOB])
    case _ => None
  }

  lemma LayoutsProper(tag: byte)
    requires Layout(tag).Some?
    ensures ProperAll(Layout(tag).value)
  {
    ProperSuffixes([U64]);
    ProperSuffixes([CallPart]);
    ProperSuffixes(TRANSFER);
    ProperSuffixes(MINT_F);
    ProperSuffixes(MINT_N);
    ProperSuffixes(BURN_N);
    ProperSuffixes(Layout(tag).value);
  }

  lemma ProperSuffixes(ps: seq<Part>)
    requires forall i :: 0 <= i < |ps| ==> Proper(ps[i])
    ensures ProperAll(ps)
    decreases |ps|
  {
    if ps != [] { ProperSuffixes(ps[1..]); }
  }

  // ----- payloads as data

  function N(v: int): Data { D(Prim.Num(v)) }

  function B(b: bytes): Data { D(Prim.Bin(b)) }

  function T(s: string): Data { D(Prim.Txt(s)) }

  function Table<A>(xs: seq<A>, f: A -> seq<Data>): Data {
    Rows(seq(|xs|, i requires 0 <= i < |xs| => Record(f(xs[i]))))
  }

  function OfTransferF(r: TransferF): seq<Data> { [B(r.to), B(r.from), N(r.tokenId), N(r.amount)] }

  function OfTransferN(r: TransferN): seq<Data> { [B(r.to), B(r.from), N(r.tokenId), N(r.instanceId)] }

  function OfMintF(r: MintF): seq<Data> { [N(r.tokenId), B(r.to), N(r.amount)] }

  function OfBurnF(r: BurnF): seq<Data> { [N(r.tokenId), B(r.from), N(r.amount)] }

  function OfMintN(r: MintN): seq<Data> { [N(r.tokenId), B(r.to), N(r.seriesId), B(r.rom), B(r.ram)] }

  function OfBurnN(r: BurnN): seq<Data> { [N(r.tokenId), B(r.from), N(r.instanceId)] }

  function OfCall(c: Call): seq<Data> { [CallData(c)] }

  function OfId(v: int): seq<Data> { [N(v)] }

  function OfWitness(w: Witness): seq<Data> { [B(w.address), B(w.signature)] }

  function ToData(p: Payload): seq<Data> {
    match p
    case CallOne(c) => OfCall(c)
    case CallMulti(cs) => [Table(cs, OfCall)]
    case Trade(tf, tn, mf, bf, mn, bn) =>
      [Table(tf, OfTransferF), Table(tn, OfTransferN), Table(mf, OfMintF),
       Table(bf, OfBurnF), Table(mn, OfMintN), Table(bn, OfBurnN)]
    case TransferFungible(to, id, amount) => [B(to), N(id), N(amount)]
    case TransferFungibleGasPayer(r) => OfTransferF(r)
    case TransferNonFungibleSingle(to, id, instance) => [B(to), N(id), N(instance)]
    case TransferNonFungibleSingleGasPayer(r) => OfTransferN(r)
    case TransferNonFungibleMulti(to, id, ids) => [B(to), N(id), Table(ids, OfId)]
    case TransferNonFungibleMultiGasPayer(to, from, id, ids) => [B(to), B(from), N(id), Table(ids, OfId)]
    case MintFungible(r) => OfMintF(r)
    case BurnFungible(id, amount) => [N(id), N(amount)]
    case BurnFungibleGasPayer(r) => OfBurnF(r)
    case MintNonFungible(r) => OfMintN(r)
    case BurnNonFungible(id, instance) => [N(id), N(instance)]
    case BurnNonFungibleGasPayer(r) => OfBurnN(r)
    case Phantasma(nexus, chain, script) => [T(nexus), T(chain), B(script)]
    case PhantasmaRaw(tx) => [B(tx)]
  }

  // accessors, total so that a payload can be rebuilt from any data

  function At(ds: seq<Data>, i: nat): Data { if i < |ds| then ds[i] else N(0) }

  function Int(ds: seq<Data>, i: nat): int {
    match At(ds, i) case D(Num(n)) => n case _ => 0
  }

  function Bin(ds: seq<Data>, i: nat): bytes {
    match At(ds, i) case D(Bin(b)) => b case _ => []
  }

  function Txt(ds: seq<Data>, i: nat): string {
    match At(ds, i) case D(Txt(s)) => s case _ => ""
  }

  function CallAt(ds: seq<Data>, i: nat): Call {
    match At(ds, i) case CallData(c) => c case _ => Call(0, 0, [], [])
  }

  function Untable<A>(d: Data, f: seq<Data> -> A): seq<A> {
    var rs := if d.Rows? then d.rows else [];
    seq(|rs|, i requires 0 <= i < |rs| => f(rs[i].items))
  }

  function ToTransferF(ds: seq<Data>): TransferF { TransferF(Bin(ds, 0), Bin(ds, 1), Int(ds, 2), Int(ds, 3)) }

  function ToTransferN(ds: seq<Data>): TransferN { TransferN(Bin(ds, 0), Bin(ds, 1), Int(ds, 2), Int(ds, 3)) }

  function ToMintF(ds: seq<Data>): MintF { MintF(Int(ds, 0), Bin(ds, 1), Int(ds, 2)) }

  function ToBurnF(ds: seq<Data>): BurnF { BurnF(Int(ds, 0), Bin(ds, 1), Int(ds, 2)) }

  function ToMintN(ds: seq<Data>): MintN { MintN(Int(ds, 0), Bin(ds, 1), Int(ds, 2), Bin(ds, 3), Bin(ds, 4)) }

  function ToBurnN(ds: seq<Data>): BurnN { BurnN(Int(ds, 0), Bin(ds, 1), Int(ds, 2)) }

  function ToCall(ds: seq<Data>): Call { CallAt(ds, 0) }

  function ToId(ds: seq<Data>): int { Int(ds, 0) }

  function ToWitness(ds: seq<Data>): Witness { Witness(Bin(ds, 0), Bin(ds, 1)) }

  /** _read_payload's dispatch, for a known type. */
  function FromData(tag: byte, ds: seq<Data>): Payload {
    match tag
    case 0 => CallOne(CallAt(ds, 0))
    case 1 => CallMulti(Untable(At(ds, 0), ToCall))
    case 2 => Trade(Untable(At(ds, 0), ToTransferF), Untable(At(ds, 1), ToTransferN), Untable(At(ds, 2), ToMintF),
                    Untable(At(ds, 3), ToBurnF), Untable(At(ds, 4), ToMintN), Untable(At(ds, 5), ToBurnN))
    case 3 => TransferFungible(Bin(ds, 0), Int(ds, 1), Int(ds, 2))
    case 4 => TransferFungibleGasPayer(ToTransferF(ds))
    case 5 => TransferNonFungibleSingle(Bin(ds, 0), Int(ds, 1), Int(ds, 2))
    case 6 => TransferNonFungibleSingleGasPayer(ToTransferN(ds))
    case 7 => TransferNonFungibleMulti(Bin(ds, 0), Int(ds, 1), Untable(At(ds, 2), ToId))
    case 8 => TransferNonFungibleMultiGasPayer(Bin(ds, 0), Bin(ds, 1), Int(ds, 2), Untable(At(ds, 3), ToId))
    case 9 => MintFungible(ToMintF(ds))
    case 10 => BurnFungible(Int(ds, 0), Int(ds, 1))
    case 11 => BurnFungibleGasPayer(ToBurnF(ds))
    case 12 => MintNonFungible(ToMintN(ds))
    case 13 => BurnNonFungible(Int(ds, 0), Int(ds, 1))
    case 14 => BurnNonFungibleGasPayer(ToBurnN(ds))
    case 15 => Phantasma(Txt(ds, 0), Txt(ds, 1), Bin(ds, 2))
    case _ => PhantasmaRaw(Bin(ds, 0))
  }

  function NormCalls(cs: seq<Call>): seq<Call> {
    seq(|cs|, i requires 0 <= i < |cs| => NormCall(cs[i]))
  }

  /** Only calls can come back changed, and only in what they did not write. */
  function NormPayload(p: Payload): Payload {
    match p
    case CallOne(c) => CallOne(NormCall(c))
    case CallMulti(cs) => CallMulti(NormCalls(cs))
    case _ => p
  }

  lemma TableBack<A>(xs: seq<A>, f: A -> seq<Data>, g: seq<Data> -> A)
    requires forall x :: x in xs ==> g(f(x)) == x
    ensures Untable(Table(xs, f), g) == xs
  {
  }

  lemma {:induction false} PlainItems(ds: seq<Data>)
    requires forall d :: d in ds ==> d.D?
    ensures NormItems(ds) == ds
  {
    if ds != [] {
      PlainItems(ds[1..]);
      assert ds == [ds[0]] + ds[1..];
    }
  }

  lemma {:induction false} PlainRecords(rs: seq<Record>)
    requires forall r :: r in rs ==> forall d :: d in r.items ==> d.D?
    ensures NormRecords(rs) == rs
  {
    if rs != [] {
      PlainItems(rs[0].items);
      PlainRecords(rs[1..]);
      assert rs == [rs[0]] + rs[1..];
    }
  }

  lemma OneCall(c: Call)
    ensures NormItems(OfCall(c)) == OfCall(NormCall(c))
  {
    assert OfCall(c)[1..] == [];
  }

  lemma {:induction false} CallRecords(cs: seq<Call>)
    ensures NormData(Table(cs, OfCall)) == Table(NormCalls(cs), OfCall)
  {
    var rs := Table(cs, OfCall).rows;
    if cs != [] {
      CallRecords(cs[1..]);
      assert rs[1..] == Table(cs[1..], OfCall).rows;
      OneCall(cs[0]);
      assert rs[0] == Record(OfCall(cs[0]));
      assert NormCalls(cs)[1..] == NormCalls(cs[1..]);
      assert Table(NormCalls(cs), OfCall).rows
          == [Record(OfCall(NormCall(cs[0])))] + Table(NormCalls(cs[1..]), OfCall).rows;
    }
  }

  lemma PlainTable<A>(xs: seq<A>, f: A -> seq<Data>)
    requires forall x :: x in xs ==> forall d :: d in f(x) ==> d.D?
    ensures NormData(Table(xs, f)) == Table(xs, f)
  {
    PlainRecords(Table(xs, f).rows);
  }

  lemma {:induction false} ItemsByOne(ds: seq<Data>, es: seq<Data>)
    requires |ds| == |es| && forall i :: 0 <= i < |ds| ==> NormData(ds[i]) == es[i]
    ensures NormItems(ds) == es
  {
    if ds != [] {
      ItemsByOne(ds[1..], es[1..]);
      assert es == [es[0]] + es[1..];
    }
  }

  lemma TradeNorm(p: Payload)
    requires p.Trade?
    ensures NormItems(ToData(p)) == ToData(p)
  {
    PlainTable(p.transferF, OfTransferF);
    PlainTable(p.transferN, OfTransferN);
    PlainTable(p.mintF, OfMintF);
    PlainTable(p.burnF, OfBurnF);
    PlainTable(p.mintN, OfMintN);
    PlainTable(p.burnN, OfBurnN);
    ItemsByOne(ToData(p), ToData(p));
  }

  lemma MultiNorm(p: Payload)
    requires p.CallMulti? || p.TransferNonFungibleMulti? || p.TransferNonFungibleMultiGasPayer?
    ensures NormItems(ToData(p)) == ToData(NormPayload(p))
  {
    hide Table;
    if p.CallMulti? { CallRecords(p.calls); } else { PlainTable(p.instanceIds, OfId); }
    ItemsByOne(ToData(p), ToData(NormPayload(p)));
  }

  lemma SimpleNorm(p: Payload)
    requires !p.Trade? && !p.CallMulti? && !p.TransferNonFungibleMulti? && !p.TransferNonFungibleMultiGasPayer?
    ensures NormItems(ToData(p)) == ToData(NormPayload(p))
  {
    if p.CallOne? { OneCall(p.call); } else { PlainItems(ToData(p)); }
  }

  /** Normalising a payload's data is normalising the payload. */
  lemma NormOfData(p: Payload)
    ensures NormItems(ToData(p)) == ToData(NormPayload(p))
  {
    hide NormItems, ToData;
    if p.Trade? { TradeNorm(p); }
    else if p.CallMulti? || p.TransferNonFungibleMulti? || p.TransferNonFungibleMultiGasPayer? { MultiNorm(p); }
    else { SimpleNorm(p); }
  }

  lemma TransferFRows(rs: seq<TransferF>)
    ensures Untable(Table(rs, OfTransferF), ToTransferF) == rs
  {
    forall r | r in rs ensures ToTransferF(OfTransferF(r)) == r { }
    TableBack(rs, OfTransferF, ToTransferF);
  }

  lemma TransferNRows(rs: seq<TransferN>)
    ensures Untable(Table(rs, OfTransferN), ToTransferN) == rs
  {
    forall r | r in rs ensures ToTransferN(OfTransferN(r)) == r { }
    TableBack(rs, OfTransferN, ToTransferN);
  }

  lemma MintFRows(rs: seq<MintF>)
    ensures Untable(Table(rs, OfMintF), ToMintF) == rs
  {
    forall r | r in rs ensures ToMintF(OfMintF(r)) == r { }
    TableBack(rs, OfMintF, ToMintF);
  }

  lemma BurnFRows(rs: seq<BurnF>)
    ensures Untable(Table(rs, OfBurnF), ToBurnF) == rs
  {
    forall r | r in rs ensures ToBurnF(OfBurnF(r)) == r { }
    TableBack(rs, OfBurnF, ToBurnF);
  }

  lemma MintNRows(rs: seq<MintN>)
    ensures Untable(Table(rs, OfMintN), ToMintN) == rs
  {
    forall r | r in rs ensures ToMintN(OfMintN(r)) == r { }
    TableBack(rs, OfMintN, ToMintN);
  }

  lemma BurnNRows(rs: seq<BurnN>)
    ensures Untable(Table(rs, OfBurnN), ToBurnN) == rs
  {
    forall r | r in rs ensures ToBurnN(OfBurnN(r)) == r { }
    TableBack(rs, OfBurnN, ToBurnN);
  }

  lemma TradeBack(p: Payload)
    requires p.Trade?
    ensures FromData(2, ToData(p)) == p
  {
    hide Table, Untable;
    TransferFRows(p.transferF);
    TransferNRows(p.transferN);
    MintFRows(p.mintF);
    BurnFRows(p.burnF);
    MintNRows(p.mintN);
    BurnNRows(p.burnN);
  }

  lemma LayoutKnown(p: Payload)
    ensures Layout(TypeTag(p)).Some?
  {
  }

  /** The payloads without tables. */
  lemma SimpleBack(p: Payload)
    requires !p.Trade? && !p.CallMulti? && !p.TransferNonFungibleMulti? && !p.TransferNonFungibleMultiGasPayer?
    ensures FromData(TypeTag(p), ToData(p)) == p
  {
  }

  lemma CallRows(cs: seq<Call>)
    ensures Untable(Table(cs, OfCall), ToCall) == cs
  {
    forall c | c in cs ensures ToCall(OfCall(c)) == c { }
    TableBack(cs, OfCall, ToCall);
  }

  lemma IdRows(ids: seq<int>)
    ensures Untable(Table(ids, OfId), ToId) == ids
  {
    forall v | v in ids ensures ToId(OfId(v)) == v { }
    TableBack(ids, OfId, ToId);
  }

  /** The payloads with one table. */
  lemma MultiBack(p: Payload)
    requires p.CallMulti? || p.TransferNonFungibleMulti? || p.TransferNonFungibleMultiGasPayer?
    ensures FromData(TypeTag(p), ToData(p)) == p
  {
    hide Table, Untable;
    if p.CallMulti? { CallRows(p.calls); } else { IdRows(p.instanceIds); }
  }

  /** Every payload can be rebuilt from its data. */
  lemma FromToData(p: Payload)
    ensures FromData(TypeTag(p), ToData(p)) == p
    ensures Layout(TypeTag(p)).Some?
  {
    hide FromData, ToData, Layout;
    LayoutKnown(p);
    if p.Trade? { TradeBack(p); }
    else if p.CallMulti? || p.TransferNonFungibleMulti? || p.TransferNonFungibleMultiGasPayer? { MultiBack(p); }
    else { SimpleBack(p); }
  }

  // ----- messages

  function HeaderData(m: Msg): seq<Data> {
    [N(m.expiry), N(m.maxGas), N(m.maxData), B(m.gasFrom), T(m.payload)]
  }

  function EncMsg(m: Msg): Option<bytes> {
    var tag := TypeTag(m.msg);
    var head :- EncParts(HEADER, HeaderData(m));
    var layout :- Layout(tag);
    var body :- EncParts(layout, ToData(m.msg));
    Some([tag] + (head + body))
  }

  function DecMsg(bs: bytes): Parsed<Msg> {
    if bs == [] || Layout(bs[0]).None? then Err
    else
      var (h, rest) :- DecParts(HEADER, bs[1..]);
      var (p, rest') :- DecParts(Layout(bs[0]).value, rest);
      Ok(Msg(Int(h, 0), Int(h, 1), Int(h, 2), Bin(h, 3), Txt(h, 4), FromData(bs[0], p)), rest')
  }

  function NormMsg(m: Msg): Msg { m.(msg := NormPayload(m.msg)) }

  /** Every IntX amount in the payload lies in [-2^255, 2^255). */
  predicate Sendable(p: Payload) {
    var layout := Layout(TypeTag(p));
    layout.Some? ==> CarriedAll(layout.value, ToData(p))
  }

  lemma HeaderBack(m: Msg, rest: bytes)
    requires EncParts(HEADER, HeaderData(m)).Some?
    ensures DecParts(HEADER, EncParts(HEADER, HeaderData(m)).value + rest) == Ok(HeaderData(m), rest)
  {
    hide EncParts, DecParts, NormItems, CarriedAll, ProperAll;
    ProperSuffixes(HEADER);
    CarriedPlain(HEADER, HeaderData(m));
    PartsBack(HEADER, HeaderData(m), rest);
    PlainItems(HeaderData(m));
  }

  lemma {:induction false} CarriedPlain(ps: seq<Part>, ds: seq<Data>)
    requires forall i :: 0 <= i < |ps| ==> ps[i].P? && ps[i].k != Prim.IntX
    ensures CarriedAll(ps, ds)
    decreases |ps|
  {
    if ps != [] && ds != [] { CarriedPlain(ps[1..], ds[1..]); }
  }

  /** Messages of every type come back, whatever follows. */
  lemma MsgBack(m: Msg, rest: bytes)
    requires EncMsg(m).Some? && Sendable(m.msg)
    ensures DecMsg(EncMsg(m).value + rest) == Ok(NormMsg(m), rest)
  {
    hide EncParts, DecParts, ToData, FromData, Layout, ProperAll, CarriedAll;
    var tag := TypeTag(m.msg);
    var head := EncParts(HEADER, HeaderData(m)).value;
    var body := EncParts(Layout(tag).value, ToData(m.msg)).value;
    assert EncMsg(m).value + rest == [tag] + (head + (body + rest));
    Prim.Split([tag], head + (body + rest));
    HeaderBack(m, body + rest);
    LayoutsProper(tag);
    PartsBack(Layout(tag).value, ToData(m.msg), rest);
    NormOfData(m.msg);
    FromToData(NormPayload(m.msg));
  }

  lemma NormMsgBytes(m: Msg)
    ensures EncMsg(NormMsg(m)) == EncMsg(m)
  {
    NormOfData(m.msg);
    FromToData(m.msg);
    PartsAgain(Layout(TypeTag(m.msg)).value, ToData(m.msg));
  }

  lemma MsgExtends(bs: bytes, q: bytes)
    requires DecMsg(bs).Ok?
    ensures DecMsg(bs + q) == Ok(DecMsg(bs).v, DecMsg(bs).rest + q)
  {
    assert (bs + q)[1..] == bs[1..] + q;
    PartsExtend(HEADER, bs[1..], q);
    PartsExtend(Layout(bs[0]).value, DecParts(HEADER, bs[1..]).rest, q);
  }

  // ----- signatures

  /** How a type carries its witnesses. */
  datatype Scheme = OneSignature | TwoSignatures | WitnessArray | NoWitness

  function SchemeOf(p: Payload): Scheme {
    match p
    case CallOne(_) => WitnessArray
    case CallMulti(_) => WitnessArray
    case Trade(_, _, _, _, _, _) => WitnessArray
    case Phantasma(_, _, _) => WitnessArray
    case PhantasmaRaw(_) => NoWitness
    case TransferFungibleGasPayer(_) => TwoSignatures
    case TransferNonFungibleSingleGasPayer(_) => TwoSignatures
    case TransferNonFungibleMultiGasPayer(_, _, _, _) => TwoSignatures
    case BurnFungibleGasPayer(_) => TwoSignatures
    case BurnNonFungibleGasPayer(_) => TwoSignatures
    case _ => OneSignature
  }

  /** _payload_from_address */
  function FromAddress(p: Payload): bytes {
    match p
    case TransferFungibleGasPayer(r) => r.from
    case TransferNonFungibleSingleGasPayer(r) => r.from
    case TransferNonFungibleMultiGasPayer(_, from, _, _) => from
    case BurnFungibleGasPayer(r) => r.from
    case BurnNonFungibleGasPayer(r) => r.from
    case _ => Fill(0, 32)
  }

  function EncWitnesses(m: Msg, ws: seq<Witness>): Option<bytes> {
    match SchemeOf(m.msg)
    case OneSignature =>
      if |ws| != 1 || ws[0].address != m.gasFrom then None
      else EncPart(B64, B(ws[0].signature))
    case TwoSignatures =>
      if |ws| != 2 || ws[0].address != m.gasFrom then None
      else
        var a :- EncPart(B64, B(ws[0].signature));
        var b :- EncPart(B64, B(ws[1].signature));
        Some(a + b)
    case WitnessArray => EncPart(WITNESSES, Table(ws, OfWitness))
    case NoWitness => if ws != [] then None else Some([])
  }

  function DecWitnesses(m: Msg, bs: bytes): Parsed<seq<Witness>> {
    match SchemeOf(m.msg)
    case OneSignature =>
      var (s, rest) :- DecPart(B64, bs);
      Ok([Witness(m.gasFrom, Bin([s], 0))], rest)
    case TwoSignatures =>
      var (s, rest) :- DecPart(B64, bs);
      var (t, rest') :- DecPart(B64, rest);
      Ok([Witness(m.gasFrom, Bin([s], 0)), Witness(FromAddress(m.msg), Bin([t], 0))], rest')
    case WitnessArray =>
      var (d, rest) :- DecPart(WITNESSES, bs);
      Ok(Untable(d, ToWitness), rest)
    case NoWitness => Ok([], bs)
  }

  function EncTx(s: Signed): Option<bytes> {
    var m :- EncMsg(s.msg);
    var w :- EncWitnesses(s.msg, s.witnesses);
    Some(m + w)
  }

  function DecTx(bs: bytes): Parsed<Signed> {
    var (m, rest) :- DecMsg(bs);
    var (ws, rest') :- DecWitnesses(m, rest);
    Ok(Signed(m, ws), rest')
  }

  /** The witnesses a reader rebuilds: a second bare signature is attributed to
      the payload's from address, whoever the writer said it was. */
  function RebuiltWitnesses(s: Signed): seq<Witness> {
    if SchemeOf(s.msg.msg) == TwoSignatures && |s.witnesses| == 2
    then [s.witnesses[0], Witness(FromAddress(s.msg.msg), s.witnesses[1].signature)]
    else s.witnesses
  }

  lemma SignatureBack(b: bytes, rest: bytes)
    requires EncPart(B64, B(b)).Some?
    ensures DecPart(B64, EncPart(B64, B(b)).value + rest) == Ok(B(b), rest)
    ensures |EncPart(B64, B(b)).value| == 64
  {
    PartBack(B64, B(b), rest);
  }

  lemma {:induction false} CarriedRows(row: seq<Part>, rs: seq<Record>)
    requires forall i :: 0 <= i < |row| ==> row[i].P? && row[i].k != Prim.IntX
    ensures CarriedRecords(row, rs)
    decreases |rs|
  {
    if rs != [] {
      CarriedPlain(row, rs[0].items);
      CarriedRows(row, rs[1..]);
    }
  }

  lemma ArrayBack(ws: seq<Witness>, rest: bytes)
    requires EncPart(WITNESSES, Table(ws, OfWitness)).Some?
    ensures DecPart(WITNESSES, EncPart(WITNESSES, Table(ws, OfWitness)).value + rest) == Ok(Table(ws, OfWitness), rest)
  {
    ProperSuffixes([B32, B64]);
    CarriedRows([B32, B64], Table(ws, OfWitness).rows);
    PartBack(WITNESSES, Table(ws, OfWitness), rest);
    PlainTable(ws, OfWitness);
  }

  lemma WitnessesBack(s: Signed, rest: bytes)
    requires EncWitnesses(s.msg, s.witnesses).Some?
    ensures DecWitnesses(NormMsg(s.msg), EncWitnesses(s.msg, s.witnesses).value + rest) == Ok(RebuiltWitnesses(s), rest)
  {
    var ws := s.witnesses;
    match SchemeOf(s.msg.msg)
    case OneSignature =>
      SignatureBack(ws[0].signature, rest);
      assert ws == [ws[0]] && ws[0] == Witness(s.msg.gasFrom, ws[0].signature);
    case TwoSignatures =>
      var a, b := EncPart(B64, B(ws[0].signature)).value, EncPart(B64, B(ws[1].signature)).value;
      assert a + b + rest == a + (b + rest);
      SignatureBack(ws[0].signature, b + rest);
      SignatureBack(ws[1].signature, rest);
    case WitnessArray =>
      ArrayBack(ws, rest);
      TableBack(ws, OfWitness, ToWitness);
    case NoWitness => assert [] + rest == rest;
  }

  /** Signed transactions of all seventeen types come back although native types
      leave witness addresses off the wire; the witnesses are unchanged exactly
      when a second bare signature belongs to the payload's from address. */
  lemma TxBack(s: Signed, rest: bytes)
    requires EncTx(s).Some? && Sendable(s.msg.msg)
    ensures DecTx(EncTx(s).value + rest) == Ok(Signed(NormMsg(s.msg), RebuiltWitnesses(s)), rest)
    ensures RebuiltWitnesses(s) == s.witnesses <==>
            (SchemeOf(s.msg.msg) == TwoSignatures ==> s.witnesses[1].address == FromAddress(s.msg.msg))
  {
    var m, w := EncMsg(s.msg).value, EncWitnesses(s.msg, s.witnesses).value;
    assert m + w + rest == m + (w + rest);
    MsgBack(s.msg, w + rest);
    WitnessesBack(s, rest);
    var ws := s.witnesses;
    if SchemeOf(s.msg.msg) == TwoSignatures {
      assert ws == [ws[0], ws[1]];
      assert ws[1] == Witness(ws[1].address, ws[1].signature);
    }
  }

  /** serialize(deserialize(raw)) == raw for every raw that serialize produced. */
  lemma TxBytesStable(s: Signed)
    requires EncTx(s).Some? && Sendable(s.msg.msg)
    ensures DecTx(EncTx(s).value).Ok? && EncTx(DecTx(EncTx(s).value).v) == EncTx(s)
  {
    var e := EncTx(s).value;
    TxBack(s, []);
    assert e + [] == e;
    NormMsgBytes(s.msg);
    assert EncWitnesses(NormMsg(s.msg), RebuiltWitnesses(s)) == EncWitnesses(s.msg, s.witnesses);
  }

  lemma WitnessesExtend(m: Msg, bs: bytes, q: bytes)
    requires DecWitnesses(m, bs).Ok?
    ensures DecWitnesses(m, bs + q) == Ok(DecWitnesses(m, bs).v, DecWitnesses(m, bs).rest + q)
  {
    match SchemeOf(m.msg)
    case OneSignature => PartExtends(B64, bs, q);
    case TwoSignatures =>
      PartExtends(B64, bs, q);
      PartExtends(B64, DecPart(B64, bs).rest, q);
    case WitnessArray => PartExtends(WITNESSES, bs, q);
    case NoWitness =>
  }

  /** No strict prefix of a complete signed transaction decodes. */
  lemma NoStrictPrefix(p: bytes, q: bytes)
    requires q != [] && DecTx(p + q).Ok? && DecTx(p + q).rest == []
    ensures DecTx(p).Err?
  {
    if DecTx(p).Ok? {
      MsgExtends(p, q);
      WitnessesExtend(DecMsg(p).v, DecMsg(p).rest, q);
    }
  }

  lemma LastPart(p: Part, d: Data)
    ensures EncParts([p], [d]) == EncPart(p, d)
  {
    assert EncParts([p][1..], [d][1..]) == Some([]);
    if EncPart(p, d).Some? { assert EncPart(p, d).value + [] == EncPart(p, d).value; }
  }
}
