/** Calls, records, messages and signed transactions as they drive a writer and
    a reader. */
module TxIO {
  import opened Bytes
  import opened CarbonIO
  import opened Streams
  import opened TxLayout
  import opened TxMessage
  import Prim

  // ----- write

  method WriteSized(b: bytes, w: CarbonWriter) returns (ok: bool)
    modifies w
    ensures Emits(old(w.buffer), EncSized(b), ok, w.buffer)
  {
    ok := w.WriteSigned(|b|, 4);
    if ok {
      w.Write(b);
      ghost var c := Prim.EncSigned(|b|, 4).value;
      assert old(w.buffer) + c + b == old(w.buffer) + (c + b);
    }
  }

  method WriteSection(s: Section, w: CarbonWriter) returns (ok: bool)
    modifies w
    ensures Emits(old(w.buffer), EncSection(s), ok, w.buffer)
  {
    if s.registerOffset < 0 {
      ok := w.WriteSigned(s.registerOffset, 4);
    } else {
      ok := WriteSized(s.args, w);
    }
  }

  /** One turn of the loop over sections, behind what has been written. */
  lemma SectionsTurn(done: bytes, ss: seq<Section>, i: nat)
    requires i < |ss|
    ensures Behind(done, EncSections(ss[i..])) ==
            var e := EncSection(ss[i]); if e.None? then None else Behind(done + e.value, EncSections(ss[i + 1..]))
  {
    assert ss[i..][0] == ss[i] && ss[i..][1..] == ss[i + 1..];
    var e := EncSection(ss[i]);
    if e.Some? { BehindMore(done, e.value, EncSections(ss[i + 1..])); }
  }

  method WriteSections(ss: seq<Section>, w: CarbonWriter) returns (ok: bool)
    modifies w
    ensures Emits(old(w.buffer), EncSections(ss), ok, w.buffer)
  {
    var i := 0;
    assert ss[i..] == ss;
    while i < |ss|
      invariant 0 <= i <= |ss|
      invariant Behind(old(w.buffer), EncSections(ss)) == Behind(w.buffer, EncSections(ss[i..]))
    {
      SectionsTurn(w.buffer, ss, i);
      ok := WriteSection(ss[i], w);
      if !ok { return; }
      i := i + 1;
    }
    assert ss[i..] == [];
    BehindAll(w.buffer);
    return true;
  }

  method WriteBody(c: Call, w: CarbonWriter) returns (ok: bool)
    modifies w
    ensures Emits(old(w.buffer), EncBody(c), ok, w.buffer)
  {
    if c.sections == [] {
      ok := WriteSized(c.args, w);
      return;
    }
    ok := w.WriteSigned(-|c.sections|, 4);
    if !ok { return; }
    ok := WriteSections(c.sections, w);
    if ok {
      ghost var n, body := Prim.EncSigned(-|c.sections|, 4).value, EncSections(c.sections).value;
      assert old(w.buffer) + n + body == old(w.buffer) + (n + body);
    }
  }

  /** TxMsgCall.write_carbon */
  method WriteCall(c: Call, w: CarbonWriter) returns (ok: bool)
    modifies w
    ensures Emits(old(w.buffer), EncCall(c), ok, w.buffer)
  {
    ok := w.WriteUnsigned(c.moduleId, 4);
    if !ok { return; }
    ok := w.WriteUnsigned(c.methodId, 4);
    if !ok { return; }
    ok := WriteBody(c, w);
    if ok {
      ghost var a, b := Prim.EncUnsigned(c.moduleId, 4).value, Prim.EncUnsigned(c.methodId, 4).value;
      ghost var body := EncBody(c).value;
      assert old(w.buffer) + a + b + body == old(w.buffer) + (a + (b + body));
    }
  }

  method WritePart(p: Part, d: Data, w: CarbonWriter) returns (ok: bool)
    modifies w
    ensures Emits(old(w.buffer), EncPart(p, d), ok, w.buffer)
    decreases p, 0
  {
    match p
    case P(k) =>
      if !d.D? { return false; }
      ok := w.WritePrim(k, d.x);
    case CallPart =>
      if !d.CallData? { return false; }
      ok := WriteCall(d.c, w);
    case Arr(row) =>
      if !d.Rows? { return false; }
      ok := w.WriteSigned(|d.rows|, 4);
      if !ok { return; }
      ok := WriteRecords(row, d.rows, w);
      if ok {
        ghost var c, body := Prim.EncCount(|d.rows|).value, EncRecords(row, d.rows).value;
        assert old(w.buffer) + c + body == old(w.buffer) + (c + body);
      }
  }

  lemma PartsTurn(done: bytes, ps: seq<Part>, ds: seq<Data>, i: nat)
    requires |ps| == |ds| && i < |ps|
    ensures Behind(done, EncParts(ps[i..], ds[i..])) ==
            var e := EncPart(ps[i], ds[i]);
            if e.None? then None else Behind(done + e.value, EncParts(ps[i + 1..], ds[i + 1..]))
  {
    assert ps[i..][0] == ps[i] && ps[i..][1..] == ps[i + 1..];
    assert ds[i..][0] == ds[i] && ds[i..][1..] == ds[i + 1..];
    var e := EncPart(ps[i], ds[i]);
    if e.Some? { BehindMore(done, e.value, EncParts(ps[i + 1..], ds[i + 1..])); }
  }

  method WriteParts(ps: seq<Part>, ds: seq<Data>, w: CarbonWriter) returns (ok: bool)
    modifies w
    ensures Emits(old(w.buffer), EncParts(ps, ds), ok, w.buffer)
    decreases ps, 1
  {
    if |ps| != |ds| { return false; }
    var i := 0;
    assert ps[i..] == ps && ds[i..] == ds;
    while i < |ps|
      invariant 0 <= i <= |ps|
      invariant Behind(old(w.buffer), EncParts(ps, ds)) == Behind(w.buffer, EncParts(ps[i..], ds[i..]))
    {
      PartsTurn(w.buffer, ps, ds, i);
      ok := WritePart(ps[i], ds[i], w);
      if !ok { return; }
      i := i + 1;
    }
    assert ps[i..] == [] && ds[i..] == [];
    BehindAll(w.buffer);
    return true;
  }

  lemma RecordsTurn(done: bytes, row: seq<Part>, rs: seq<Record>, i: nat)
    requires i < |rs|
    ensures Behind(done, EncRecords(row, rs[i..])) ==
            var e := EncParts(row, rs[i].items);
            if e.None? then None else Behind(done + e.value, EncRecords(row, rs[i + 1..]))
  {
    assert rs[i..][0] == rs[i] && rs[i..][1..] == rs[i + 1..];
    var e := EncParts(row, rs[i].items);
    if e.Some? { BehindMore(done, e.value, EncRecords(row, rs[i + 1..])); }
  }

  method WriteRecords(row: seq<Part>, rs: seq<Record>, w: CarbonWriter) returns (ok: bool)
    modifies w
    ensures Emits(old(w.buffer), EncRecords(row, rs), ok, w.buffer)
    decreases row, 2
  {
    var i := 0;
    assert rs[i..] == rs;
    while i < |rs|
      invariant 0 <= i <= |rs|
      invariant Behind(old(w.buffer), EncRecords(row, rs)) == Behind(w.buffer, EncRecords(row, rs[i..]))
    {
      RecordsTurn(w.buffer, row, rs, i);
      ok := WriteParts(row, rs[i].items, w);
      if !ok { return; }
      i := i + 1;
    }
    assert rs[i..] == [];
    BehindAll(w.buffer);
    return true;
  }

  /** TxMsg.write_carbon */
  method WriteMsg(m: Msg, w: CarbonWriter) returns (ok: bool)
    modifies w
    ensures Emits(old(w.buffer), EncMsg(m), ok, w.buffer)
  {
    ghost var start := w.buffer;
    var tag := TypeTag(m.msg);
    w.Write([tag]);
    ok := WriteParts(HEADER, HeaderData(m), w);
    if !ok { return; }
    var layout := Layout(tag);
    if layout.None? { return false; }
    ok := WriteParts(layout.value, ToData(m.msg), w);
    if ok {
      ghost var head, body := EncParts(HEADER, HeaderData(m)).value, EncParts(layout.value, ToData(m.msg)).value;
      assert start + [tag] + head + body == start + ([tag] + (head + body));
    }
  }

  method WriteWitnesses(m: Msg, ws: seq<Witness>, w: CarbonWriter) returns (ok: bool)
    modifies w
    ensures Emits(old(w.buffer), EncWitnesses(m, ws), ok, w.buffer)
  {
    match SchemeOf(m.msg)
    case OneSignature =>
      if |ws| != 1 || ws[0].address != m.gasFrom { return false; }
      ok := WritePart(B64, B(ws[0].signature), w);
    case TwoSignatures =>
      if |ws| != 2 || ws[0].address != m.gasFrom { return false; }
      ok := WritePart(B64, B(ws[0].signature), w);
      if !ok { return; }
      ok := WritePart(B64, B(ws[1].signature), w);
      if ok {
        ghost var a, b := EncPart(B64, B(ws[0].signature)).value, EncPart(B64, B(ws[1].signature)).value;
        assert old(w.buffer) + a + b == old(w.buffer) + (a + b);
      }
    case WitnessArray => ok := WritePart(WITNESSES, Table(ws, OfWitness), w);
    case NoWitness => ok := ws == [];
  }

  /** SignedTxMsg.write_carbon */
  method WriteTx(s: Signed, w: CarbonWriter) returns (ok: bool)
    modifies w
    ensures Emits(old(w.buffer), EncTx(s), ok, w.buffer)
  {
    ok := WriteMsg(s.msg, w);
    if !ok { return; }
    ok := WriteWitnesses(s.msg, s.witnesses, w);
    if ok {
      ghost var m, x := EncMsg(s.msg).value, EncWitnesses(s.msg, s.witnesses).value;
      assert old(w.buffer) + m + x == old(w.buffer) + (m + x);
    }
  }

  // ----- read

  method ReadSection(r: CarbonReader) returns (out: Option<Section>)
    requires r.Valid()
    modifies r
    ensures r.Valid() && Takes(DecSection(old(r.Rest())), out, r.Rest())
  {
    var v := r.ReadSigned(4);
    if v.None? { return None; }
    if v.value < 0 { return Some(Section(v.value, [])); }
    var b := r.Read(v.value);
    out := if b.None? then None else Some(Section(0, b.value));
  }

  method ReadSections(n: nat, r: CarbonReader) returns (out: Option<seq<Section>>)
    requires r.Valid()
    modifies r
    ensures r.Valid() && Takes(DecSections(n, old(r.Rest())), out, r.Rest())
  {
    hide DecSection;
    ghost var all := DecSections(n, r.Rest());
    var ss: seq<Section> := [];
    var i := 0;
    AfterNothing(all);
    while i < n
      invariant 0 <= i <= n && r.Valid()
      invariant all == After(ss, DecSections(n - i, r.Rest()))
    {
      var s := ReadSection(r);
      if s.None? { return None; }
      AfterMore(ss, s.value, DecSections(n - i - 1, r.Rest()));
      ss := ss + [s.value];
      i := i + 1;
    }
    assert DecSections(0, r.Rest()) == Ok([], r.Rest()) && ss + [] == ss;
    return Some(ss);
  }

  method ReadBody(r: CarbonReader) returns (out: Option<(bytes, seq<Section>)>)
    requires r.Valid()
    modifies r
    ensures r.Valid() && Takes(DecBody(old(r.Rest())), out, r.Rest())
  {
    var v := r.ReadSigned(4);
    if v.None? { return None; }
    if v.value >= 0 {
      var b := r.Read(v.value);
      out := if b.None? then None else Some((b.value, []));
    } else {
      var ss := ReadSections(-v.value, r);
      out := if ss.None? then None else Some(([], ss.value));
    }
  }

  /** TxMsgCall.read_carbon */
  method ReadCall(r: CarbonReader) returns (out: Option<Call>)
    requires r.Valid()
    modifies r
    ensures r.Valid() && Takes(DecCall(old(r.Rest())), out, r.Rest())
  {
    var a := r.ReadUnsigned(4);
    if a.None? { return None; }
    var b := r.ReadUnsigned(4);
    if b.None? { return None; }
    var body := ReadBody(r);
    out := if body.None? then None else Some(Call(a.value, b.value, body.value.0, body.value.1));
  }

  method ReadPart(p: Part, r: CarbonReader) returns (out: Option<Data>)
    requires r.Valid()
    modifies r
    ensures r.Valid() && Takes(DecPart(p, old(r.Rest())), out, r.Rest())
    decreases p, 0
  {
    match p
    case P(k) =>
      var x := r.ReadPrim(k);
      out := if x.None? then None else Some(D(x.value));
    case CallPart =>
      var c := ReadCall(r);
      out := if c.None? then None else Some(CallData(c.value));
    case Arr(row) =>
      var n := r.ReadLength();
      if n.None? { return None; }
      var rs := ReadRecords(row, n.value, r);
      out := if rs.None? then None else Some(Rows(rs.value));
  }

  lemma DecPartsStep(ps: seq<Part>, i: nat, bs: bytes)
    requires i < |ps|
    ensures DecParts(ps[i..], bs)
         == var p := DecPart(ps[i], bs); if p.Err? then Err else After([p.v], DecParts(ps[i + 1..], p.rest))
  {
    assert ps[i..][0] == ps[i] && ps[i..][1..] == ps[i + 1..];
  }

  method ReadParts(ps: seq<Part>, r: CarbonReader) returns (out: Option<seq<Data>>)
    requires r.Valid()
    modifies r
    ensures r.Valid() && Takes(DecParts(ps, old(r.Rest())), out, r.Rest())
    decreases ps, 1
  {
    ghost var all := DecParts(ps, r.Rest());
    var ds: seq<Data> := [];
    var i := 0;
    assert ps[i..] == ps;
    AfterNothing(all);
    while i < |ps|
      invariant 0 <= i <= |ps| && r.Valid()
      invariant all == After(ds, DecParts(ps[i..], r.Rest()))
    {
      DecPartsStep(ps, i, r.Rest());
      var d := ReadPart(ps[i], r);
      if d.None? { return None; }
      AfterMore(ds, d.value, DecParts(ps[i + 1..], r.Rest()));
      ds := ds + [d.value];
      i := i + 1;
    }
    assert ps[i..] == [] && ds + [] == ds;
    return Some(ds);
  }

  method ReadRecords(row: seq<Part>, n: nat, r: CarbonReader) returns (out: Option<seq<Record>>)
    requires r.Valid()
    modifies r
    ensures r.Valid() && Takes(DecRecords(row, n, old(r.Rest())), out, r.Rest())
    decreases row, 2
  {
    ghost var all := DecRecords(row, n, r.Rest());
    var rs: seq<Record> := [];
    var i := 0;
    AfterNothing(all);
    while i < n
      invariant 0 <= i <= n && r.Valid()
      invariant all == After(rs, DecRecords(row, n - i, r.Rest()))
    {
      var items := ReadParts(row, r);
      if items.None? { return None; }
      AfterMore(rs, Record(items.value), DecRecords(row, n - i - 1, r.Rest()));
      rs := rs + [Record(items.value)];
      i := i + 1;
    }
    assert DecRecords(row, 0, r.Rest()) == Ok([], r.Rest()) && rs + [] == rs;
    return Some(rs);
  }

  /** TxMsg.read_carbon */
  method ReadMsg(r: CarbonReader) returns (out: Option<Msg>)
    requires r.Valid()
    modifies r
    ensures r.Valid() && Takes(DecMsg(old(r.Rest())), out, r.Rest())
  {
    var tag := r.Read(1);
    if tag.None? { return None; }
    var t := tag.value[0];
    var layout := Layout(t);
    if layout.None? { return None; }
    var h := ReadParts(HEADER, r);
    if h.None? { return None; }
    var p := ReadParts(layout.value, r);
    if p.None? { return None; }
    var head := h.value;
    return Some(Msg(Int(head, 0), Int(head, 1), Int(head, 2), Bin(head, 3), Txt(head, 4), FromData(t, p.value)));
  }

  method ReadWitnesses(m: Msg, r: CarbonReader) returns (out: Option<seq<Witness>>)
    requires r.Valid()
    modifies r
    ensures r.Valid() && Takes(DecWitnesses(m, old(r.Rest())), out, r.Rest())
  {
    match SchemeOf(m.msg)
    case OneSignature =>
      var s := ReadPart(B64, r);
      out := if s.None? then None else Some([Witness(m.gasFrom, Bin([s.value], 0))]);
    case TwoSignatures =>
      var s := ReadPart(B64, r);
      if s.None? { return None; }
      var t := ReadPart(B64, r);
      if t.None? { return None; }
      out := Some([Witness(m.gasFrom, Bin([s.value], 0)), Witness(FromAddress(m.msg), Bin([t.value], 0))]);
    case WitnessArray =>
      var d := ReadPart(WITNESSES, r);
      out := if d.None? then None else Some(Untable(d.value, ToWitness));
    case NoWitness => out := Some([]);
  }

  /** SignedTxMsg.read_carbon */
  method ReadTx(r: CarbonReader) returns (out: Option<Signed>)
    requires r.Valid()
    modifies r
    ensures r.Valid() && Takes(DecTx(old(r.Rest())), out, r.Rest())
  {
    var m := ReadMsg(r);
    if m.None? { return None; }
    var ws := ReadWitnesses(m.value, r);
    out := if ws.None? then None else Some(Signed(m.value, ws.value));
  }

  // ----- whole transactions

  method Serialize(s: Signed) returns (r: Option<bytes>)
    ensures r == EncTx(s)
  {
    var w := new CarbonWriter();
    var ok := WriteTx(s, w);
    if !ok { return None; }
    if EncTx(s).Some? { assert [] + EncTx(s).value == EncTx(s).value; }
    return Some(w.buffer);
  }

  /** A transaction and nothing behind it. */
  method Deserialize(data: bytes) returns (out: Option<Signed>)
    ensures out.Some? <==> DecTx(data).Ok? && DecTx(data).rest == []
    ensures out.Some? ==> out.value == DecTx(data).v
  {
    var r := new CarbonReader(data);
    out := ReadTx(r);
    if out.Some? {
      var eof := r.AtEnd();
      if !eof { out := None; }
    }
  }
}
