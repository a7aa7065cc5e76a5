/** Carbon records as lists of parts.  Each payload class writes its fields in a
    fixed order; a layout is that order, and one codec serves every layout. */
module TxLayout {
  import opened Bytes
  import Int256
  import Prim

  /** CallArgSection: a register reference when the offset is negative, else
      inline bytes. */
  datatype Section = Section(registerOffset: int, args: bytes)

  /** TxMsgCall; sections win over args when there are any. */
  datatype Call = Call(moduleId: int, methodId: int, args: bytes, sections: seq<Section>)

  /** One field of a record: a primitive, a call, or a counted array of records. */
  datatype Part = P(k: Prim.Kind) | CallPart | Arr(row: seq<Part>)

  datatype Data = D(x: Prim.PVal) | CallData(c: Call) | Rows(rows: seq<Record>)

  datatype Record = Record(items: seq<Data>)

  // ----- calls and their argument sections

  /** A byte string behind its length, with no guard but the read itself. */
  function EncSized(b: bytes): Option<bytes> {
    var c :- Prim.EncSigned(|b|, 4);
    Some(c + b)
  }

  function EncSection(s: Section): Option<bytes> {
    if s.registerOffset < 0 then Prim.EncSigned(s.registerOffset, 4) else EncSized(s.args)
  }

  function EncSections(ss: seq<Section>): Option<bytes> {
    if ss == [] then Some([])
    else
      var e :- EncSection(ss[0]);
      var tail :- EncSections(ss[1..]);
      Some(e + tail)
  }

  /** What follows the two ids: the negated section count and the sections, or
      the argument length and the arguments. */
  function EncBody(c: Call): Option<bytes> {
    if c.sections == [] then EncSized(c.args)
    else
      var n :- Prim.EncSigned(-|c.sections|, 4);
      var body :- EncSections(c.sections);
      Some(n + body)
  }

  function EncCall(c: Call): Option<bytes> {
    var a :- Prim.EncUnsigned(c.moduleId, 4);
    var b :- Prim.EncUnsigned(c.methodId, 4);
    var body :- EncBody(c);
    Some(a + (b + body))
  }

  function DecSection(bs: bytes): (r: Parsed<Section>)
    ensures r.Ok? ==> |r.rest| < |bs|
  {
    var (v, rest) :- Prim.DecSigned(4, bs);
    if v < 0 then Ok(Section(v, []), rest)
    else
      var (b, rest') :- Prim.Take(v, rest);
      Ok(Section(0, b), rest')
  }

  function DecSections(n: nat, bs: bytes): Parsed<seq<Section>> {
    if n == 0 then Ok([], bs)
    else
      var (s, rest) :- DecSection(bs);
      var (tail, rest') :- DecSections(n - 1, rest);
      Ok([s] + tail, rest')
  }

  /** The sign of the length word alone tells the two forms apart. */
  function DecBody(bs: bytes): Parsed<(bytes, seq<Section>)> {
    var (v, rest) :- Prim.DecSigned(4, bs);
    if v >= 0 then
      var (b, rest') :- Prim.Take(v, rest);
      Ok((b, []), rest')
    else
      var (ss, rest') :- DecSections(-v, rest);
      Ok(([], ss), rest')
  }

  function DecCall(bs: bytes): Parsed<Call> {
    var (a, rest) :- Prim.DecUnsigned(4, bs);
    var (b, rest1) :- Prim.DecUnsigned(4, rest);
    var (body, rest2) :- DecBody(rest1);
    Ok(Call(a, b, body.0, body.1), rest2)
  }

  /** A section carries either its reference or its bytes, never both. */
  function NormSection(s: Section): Section {
    if s.registerOffset < 0 then Section(s.registerOffset, []) else Section(0, s.args)
  }

  function NormSections(ss: seq<Section>): (r: seq<Section>)
    ensures |r| == |ss|
  {
    if ss == [] then [] else [NormSection(ss[0])] + NormSections(ss[1..])
  }

  function NormCall(c: Call): Call {
    if c.sections == [] then c else Call(c.moduleId, c.methodId, [], NormSections(c.sections))
  }

  lemma SizedBack(b: bytes, rest: bytes)
    requires EncSized(b).Some?
    ensures Prim.DecSigned(4, EncSized(b).value + rest) == Ok(|b|, b + rest)
    ensures Prim.Take(|b|, b + rest) == Ok(b, rest)
  {
    var c := Prim.EncSigned(|b|, 4).value;
    assert c + b + rest == c + (b + rest);
    Prim.SignedBack(|b|, 4, b + rest);
    Prim.Split(b, rest);
  }

  lemma SectionBack(s: Section, rest: bytes)
    requires EncSection(s).Some?
    ensures DecSection(EncSection(s).value + rest) == Ok(NormSection(s), rest)
  {
    if s.registerOffset < 0 {
      Prim.SignedBack(s.registerOffset, 4, rest);
    } else {
      SizedBack(s.args, rest);
    }
  }

  lemma {:induction false} SectionsBack(ss: seq<Section>, rest: bytes)
    requires EncSections(ss).Some?
    ensures DecSections(|ss|, EncSections(ss).value + rest) == Ok(NormSections(ss), rest)
  {
    if ss == [] {
      assert [] + rest == rest;
    } else {
      var e, tail := EncSection(ss[0]).value, EncSections(ss[1..]).value;
      assert e + tail + rest == e + (tail + rest);
      SectionBack(ss[0], tail + rest);
      SectionsBack(ss[1..], rest);
    }
  }

  lemma BodyBack(c: Call, rest: bytes)
    requires EncBody(c).Some?
    ensures DecBody(EncBody(c).value + rest) == Ok((NormCall(c).args, NormCall(c).sections), rest)
  {
    if c.sections == [] {
      SizedBack(c.args, rest);
    } else {
      var n, body := Prim.EncSigned(-|c.sections|, 4).value, EncSections(c.sections).value;
      assert n + body + rest == n + (body + rest);
      Prim.SignedBack(-|c.sections|, 4, body + rest);
      SectionsBack(c.sections, rest);
    }
  }

  /** Calls come back with whichever of args and sections was written. */
  lemma CallBack(c: Call, rest: bytes)
    requires EncCall(c).Some?
    ensures DecCall(EncCall(c).value + rest) == Ok(NormCall(c), rest)
  {
    var a, b := Prim.EncUnsigned(c.moduleId, 4).value, Prim.EncUnsigned(c.methodId, 4).value;
    var body := EncBody(c).value;
    assert a + (b + body) + rest == a + (b + (body + rest));
    Prim.UnsignedBack(c.moduleId, 4, b + (body + rest));
    Prim.UnsignedBack(c.methodId, 4, body + rest);
    BodyBack(c, rest);
  }

  lemma {:induction false} NormSectionsBytes(ss: seq<Section>)
    ensures EncSections(NormSections(ss)) == EncSections(ss)
  {
    if ss != [] {
      NormSectionsBytes(ss[1..]);
      var r := NormSections(ss);
      assert r[0] == NormSection(ss[0]) && r[1..] == NormSections(ss[1..]);
      assert EncSection(r[0]) == EncSection(ss[0]);
    }
  }

  lemma NormCallBytes(c: Call)
    ensures EncCall(NormCall(c)) == EncCall(c)
  {
    NormSectionsBytes(c.sections);
  }

  lemma SectionExtends(bs: bytes, q: bytes)
    requires DecSection(bs).Ok?
    ensures DecSection(bs + q) == Ok(DecSection(bs).v, DecSection(bs).rest + q)
  {
    Prim.TakeExtends(4, bs, q);
    var v := Prim.DecSigned(4, bs);
    if v.v >= 0 { Prim.TakeExtends(v.v, v.rest, q); }
  }

  lemma {:induction false} SectionsExtend(n: nat, bs: bytes, q: bytes)
    requires DecSections(n, bs).Ok?
    ensures DecSections(n, bs + q) == Ok(DecSections(n, bs).v, DecSections(n, bs).rest + q)
  {
    if n != 0 {
      SectionExtends(bs, q);
      SectionsExtend(n - 1, DecSection(bs).rest, q);
    }
  }

  lemma BodyExtends(bs: bytes, q: bytes)
    requires DecBody(bs).Ok?
    ensures DecBody(bs + q) == Ok(DecBody(bs).v, DecBody(bs).rest + q)
  {
    Prim.TakeExtends(4, bs, q);
    var v := Prim.DecSigned(4, bs);
    if v.v >= 0 { Prim.TakeExtends(v.v, v.rest, q); } else { SectionsExtend(-v.v, v.rest, q); }
  }

  lemma CallExtends(bs: bytes, q: bytes)
    requires DecCall(bs).Ok?
    ensures DecCall(bs + q) == Ok(DecCall(bs).v, DecCall(bs).rest + q)
  {
    var a := Prim.DecUnsigned(4, bs);
    Prim.TakeExtends(4, bs, q);
    Prim.TakeExtends(4, a.rest, q);
    BodyExtends(Prim.DecUnsigned(4, a.rest).rest, q);
  }

  // ----- records

  function EncPart(p: Part, d: Data): Option<bytes>
    decreases p, 0, 0
  {
    match p
    case P(k) => if d.D? then Prim.Enc(k, d.x) else None
    case CallPart => if d.CallData? then EncCall(d.c) else None
    case Arr(row) =>
      if !d.Rows? then None
      else
        var c :- Prim.EncCount(|d.rows|);
        var body :- EncRecords(row, d.rows);
        Some(c + body)
  }

  function EncParts(ps: seq<Part>, ds: seq<Data>): Option<bytes>
    decreases ps, 1, 0
  {
    if |ps| != |ds| then None
    else if ps == [] then Some([])
    else
      var e :- EncPart(ps[0], ds[0]);
      var tail :- EncParts(ps[1..], ds[1..]);
      Some(e + tail)
  }

  function EncRecords(row: seq<Part>, rs: seq<Record>): Option<bytes>
    decreases row, 2, |rs|
  {
    if rs == [] then Some([])
    else
      var e :- EncParts(row, rs[0].items);
      var tail :- EncRecords(row, rs[1..]);
      Some(e + tail)
  }

  function DecPart(p: Part, bs: bytes): Parsed<Data>
    decreases p, 0, 0
  {
    match p
    case P(k) => var (x, rest) :- Prim.Dec(k, bs); Ok(D(x), rest)
    case CallPart => var (c, rest) :- DecCall(bs); Ok(CallData(c), rest)
    case Arr(row) =>
      var (n, rest) :- Prim.DecCount(bs);
      var (rs, rest') :- DecRecords(row, n, rest);
      Ok(Rows(rs), rest')
  }

  function DecParts(ps: seq<Part>, bs: bytes): Parsed<seq<Data>>
    decreases ps, 1, 0
  {
    if ps == [] then Ok([], bs)
    else
      var (d, rest) :- DecPart(ps[0], bs);
      var (tail, rest') :- DecParts(ps[1..], rest);
      Ok([d] + tail, rest')
  }

  function DecRecords(row: seq<Part>, n: nat, bs: bytes): Parsed<seq<Record>>
    decreases row, 2, n
  {
    if n == 0 then Ok([], bs)
    else
      var (items, rest) :- DecParts(row, bs);
      var (tail, rest') :- DecRecords(row, n - 1, rest);
      Ok([Record(items)] + tail, rest')
  }

  /** Array rows are not empty, and no part is a kind that wraps its values. */
  predicate Proper(p: Part)
    decreases p, 0
  {
    match p
    case P(k) => k != Prim.I8 && k != Prim.I256
    case CallPart => true
    case Arr(row) => row != [] && ProperAll(row)
  }

  predicate ProperAll(ps: seq<Part>)
    decreases ps, 1
  {
    ps != [] ==> Proper(ps[0]) && ProperAll(ps[1..])
  }

  /** IntX amounts lie in the range that IntX can carry. */
  predicate Carried(p: Part, d: Data)
    decreases p, 0, 0
  {
    match p
    case P(k) => d.D? ==> Prim.Readable(k, d.x)
    case CallPart => true
    case Arr(row) => d.Rows? ==> CarriedRecords(row, d.rows)
  }

  predicate CarriedAll(ps: seq<Part>, ds: seq<Data>)
    decreases ps, 1, 0
  {
    ps != [] && ds != [] ==> Carried(ps[0], ds[0]) && CarriedAll(ps[1..], ds[1..])
  }

  predicate CarriedRecords(row: seq<Part>, rs: seq<Record>)
    decreases row, 2, |rs|
  {
    rs != [] ==> CarriedAll(row, rs[0].items) && CarriedRecords(row, rs[1..])
  }

  function NormData(d: Data): Data
    decreases d, 0
  {
    match d
    case D(x) => d
    case CallData(c) => CallData(NormCall(c))
    case Rows(rs) => Rows(NormRecords(rs))
  }

  function NormItems(ds: seq<Data>): (r: seq<Data>)
    ensures |r| == |ds|
    decreases ds, 1
  {
    if ds == [] then [] else [NormData(ds[0])] + NormItems(ds[1..])
  }

  function NormRecords(rs: seq<Record>): (r: seq<Record>)
    ensures |r| == |rs|
    decreases rs, 2
  {
    if rs == [] then [] else [Record(NormItems(rs[0].items))] + NormRecords(rs[1..])
  }

  lemma PartLength(p: Part, d: Data)
    requires EncPart(p, d).Some?
    ensures EncPart(p, d).value != []
  {
    match p
    case P(k) => Prim.NonEmpty(k, d.x);
    case CallPart =>
    case Arr(row) =>
  }

  lemma {:induction false} RecordsLength(row: seq<Part>, rs: seq<Record>)
    requires row != [] && EncRecords(row, rs).Some?
    ensures |EncRecords(row, rs).value| >= |rs|
    decreases |rs|
  {
    if rs != [] {
      PartLength(row[0], rs[0].items[0]);
      RecordsLength(row, rs[1..]);
    }
  }

  lemma {:induction false} PartBack(p: Part, d: Data, rest: bytes)
    requires EncPart(p, d).Some? && Proper(p) && Carried(p, d)
    ensures DecPart(p, EncPart(p, d).value + rest) == Ok(NormData(d), rest)
    decreases p, 0, 0
  {
    match p
    case P(k) => Prim.RoundTrip(k, d.x, rest);
    case CallPart => CallBack(d.c, rest);
    case Arr(row) =>
      var c, body := Prim.EncCount(|d.rows|).value, EncRecords(row, d.rows).value;
      assert c + body + rest == c + (body + rest);
      RecordsLength(row, d.rows);
      Prim.CountBack(|d.rows|, body + rest);
      RecordsBack(row, d.rows, rest);
  }

  lemma {:induction false} PartsBack(ps: seq<Part>, ds: seq<Data>, rest: bytes)
    requires EncParts(ps, ds).Some? && ProperAll(ps) && CarriedAll(ps, ds)
    ensures DecParts(ps, EncParts(ps, ds).value + rest) == Ok(NormItems(ds), rest)
    decreases ps, 1, 0
  {
    if ps == [] {
      assert [] + rest == rest;
    } else {
      var e, tail := EncPart(ps[0], ds[0]).value, EncParts(ps[1..], ds[1..]).value;
      assert e + tail + rest == e + (tail + rest);
      PartBack(ps[0], ds[0], tail + rest);
      PartsBack(ps[1..], ds[1..], rest);
    }
  }

  lemma {:induction false} RecordsBack(row: seq<Part>, rs: seq<Record>, rest: bytes)
    requires EncRecords(row, rs).Some? && ProperAll(row) && CarriedRecords(row, rs)
    ensures DecRecords(row, |rs|, EncRecords(row, rs).value + rest) == Ok(NormRecords(rs), rest)
    decreases row, 2, |rs|
  {
    if rs == [] {
      assert [] + rest == rest;
    } else {
      var e, tail := EncParts(row, rs[0].items).value, EncRecords(row, rs[1..]).value;
      assert e + tail + rest == e + (tail + rest);
      PartsBack(row, rs[0].items, tail + rest);
      RecordsBack(row, rs[1..], rest);
    }
  }

  // ----- writing what was read back gives the same bytes

  lemma {:induction false} PartAgain(p: Part, d: Data)
    ensures EncPart(p, NormData(d)) == EncPart(p, d)
    decreases p, 0, 0
  {
    match p
    case P(k) =>
    case CallPart => if d.CallData? { NormCallBytes(d.c); }
    case Arr(row) => if d.Rows? { RecordsAgain(row, d.rows); }
  }

  lemma {:induction false} PartsAgain(ps: seq<Part>, ds: seq<Data>)
    ensures EncParts(ps, NormItems(ds)) == EncParts(ps, ds)
    decreases ps, 1, 0
  {
    if |ps| == |ds| && ps != [] {
      PartAgain(ps[0], ds[0]);
      PartsAgain(ps[1..], ds[1..]);
      assert NormItems(ds)[1..] == NormItems(ds[1..]);
    }
  }

  lemma {:induction false} RecordsAgain(row: seq<Part>, rs: seq<Record>)
    ensures EncRecords(row, NormRecords(rs)) == EncRecords(row, rs)
    decreases row, 2, |rs|
  {
    if rs != [] {
      PartsAgain(row, rs[0].items);
      RecordsAgain(row, rs[1..]);
      assert NormRecords(rs)[1..] == NormRecords(rs[1..]);
    }
  }

  // ----- more input never changes a successful read

  lemma {:induction false} PartExtends(p: Part, bs: bytes, q: bytes)
    requires DecPart(p, bs).Ok?
    ensures DecPart(p, bs + q) == Ok(DecPart(p, bs).v, DecPart(p, bs).rest + q)
    decreases p, 0, 0
  {
    match p
    case P(k) => Prim.Extends(k, bs, q);
    case CallPart => CallExtends(bs, q);
    case Arr(row) =>
      Prim.CountExtends(bs, q);
      RecordsExtend(row, Prim.DecCount(bs).v, Prim.DecCount(bs).rest, q);
  }

  lemma {:induction false} PartsExtend(ps: seq<Part>, bs: bytes, q: bytes)
    requires DecParts(ps, bs).Ok?
    ensures DecParts(ps, bs + q) == Ok(DecParts(ps, bs).v, DecParts(ps, bs).rest + q)
    decreases ps, 1, 0
  {
    if ps != [] {
      PartExtends(ps[0], bs, q);
      PartsExtend(ps[1..], DecPart(ps[0], bs).rest, q);
    }
  }

  lemma {:induction false} RecordsExtend(row: seq<Part>, n: nat, bs: bytes, q: bytes)
    requires DecRecords(row, n, bs).Ok?
    ensures DecRecords(row, n, bs + q) == Ok(DecRecords(row, n, bs).v, DecRecords(row, n, bs).rest + q)
    decreases row, 2, n
  {
    if n != 0 {
      PartsExtend(row, bs, q);
      RecordsExtend(row, n - 1, DecParts(row, bs).rest, q);
    }
  }
}
