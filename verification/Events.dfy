/** Extended events: typed by kind, and by module and method inside a special
    resolution; whatever does not fit is kept as it came. */
module Events {
  import opened Arguments
  import opened Bytes
  import opened Json
  import opened Shapes
  import opened WireShapes

  datatype Args = Typed(d: Data) | Unrecognized(j: Json)

  /** SpecialResolutionCall */
  datatype Call = Call(
    moduleId: int, moduleName: string, methodId: int, methodName: string, arguments: Option<Args>, calls: seq<Call>)

  /** SpecialResolutionData */
  datatype Resolution = Resolution(id: int, description: Option<string>, calls: seq<Call>)

  datatype EventData = Modelled(d: Data) | Resolved(r: Resolution) | Unknown(j: Json)

  /** EventExResult */
  datatype Event = Event(address: string, contract: string, kind: string, data: Option<EventData>)

  const NO_CALL := Call(0, "", 0, "", None, [])

  // ----- from the wire

  function WireStr(j: Option<Json>): string { if j.Some? && j.value.JText? then j.value.s else "" }

  function WireInt(j: Option<Json>): int { if j.Some? && j.value.JInt? then j.value.n else 0 }

  /** decode_special_resolution_arguments */
  function DecodeArgs(show: int -> string, moduleName: string, methodName: string, raw: Option<Json>): Option<Args> {
    if raw.None? || raw.value.JNull? then None
    else if !raw.value.JObj? then Some(Unrecognized(raw.value))
    else if Get(raw.value.members, RAW_WIRE).Some? then Some(TypeArgs(show, RAW, raw.value))
    else
      match ArgumentShape(moduleName, methodName)
      case None => Some(Unrecognized(raw.value))
      case Some(shape) => Some(TypeArgs(show, shape, raw.value))
  }

  function TypeArgs(show: int -> string, shape: Shape, j: Json): Args {
    match DecodeShape(show, shape, j)
    case None => Unrecognized(j)
    case Some(d) => Typed(d)
  }

  /** SpecialResolutionCall.from_wire */
  function CallFrom(show: int -> string, j: Json): Call
    decreases Size(j), 1
  {
    if !j.JObj? then NO_CALL
    else
      var ms := j.members;
      var moduleName, methodName := WireStr(Get(ms, "module")), WireStr(Get(ms, "method"));
      Call(WireInt(Get(ms, "moduleId")), moduleName, WireInt(Get(ms, "methodId")), methodName,
           DecodeArgs(show, moduleName, methodName, Get(ms, "arguments")), WireCalls(show, Get(ms, "calls")))
  }

  function WireCalls(show: int -> string, j: Option<Json>): seq<Call>
    decreases if j.Some? then Size(j.value) else 0, 0
  {
    if j.Some? && j.value.JList? then CallsFrom(show, j.value.items) else []
  }

  function CallsFrom(show: int -> string, items: seq<Json>): (r: seq<Call>)
    ensures |r| == |items|
    decreases SizeAll(items), 2
  {
    if items == [] then [] else [CallFrom(show, items[0])] + CallsFrom(show, items[1..])
  }

  /** SpecialResolutionData.from_wire */
  function ResolutionFrom(show: int -> string, j: Json): Resolution {
    if !j.JObj? then Resolution(0, None, [])
    else
      var description := Get(j.members, "description");
      Resolution(WireInt(Get(j.members, "resolutionId")),
                 if description.Some? && description.value.JText? then Some(description.value.s) else None,
                 WireCalls(show, Get(j.members, "calls")))
  }

  /** decode_event_data */
  function DecodeEvent(show: int -> string, kind: string, raw: Option<Json>): Option<EventData> {
    if raw.None? || raw.value.JNull? then None
    else if kind == "SpecialResolution" then Some(Resolved(ResolutionFrom(show, raw.value)))
    else
      match EventShape(kind)
      case None => Some(Unknown(raw.value))
      case Some(shape) =>
        match DecodeShape(show, shape, raw.value)
        case None => Some(Unknown(raw.value))
        case Some(d) => Some(Modelled(d))
  }

  /** EventExResult.from_wire */
  function EventFrom(show: int -> string, j: Json): Event {
    if !j.JObj? then Event("", "", "", None)
    else
      var kind := WireStr(Get(j.members, "kind"));
      Event(WireStr(Get(j.members, "address")), WireStr(Get(j.members, "contract")), kind,
            DecodeEvent(show, kind, Get(j.members, "data")))
  }

  // ----- to the wire

  function WriteArgs(a: Args): Json {
    match a
    case Typed(d) => WriteData(d)
    case Unrecognized(j) => j
  }

  /** A member that is written only when there is something to write. */
  function Maybe(name: string, j: Option<Json>): seq<Member> {
    if j.None? then [] else [Member(name, j.value)]
  }

  function CallTo(c: Call): Json
    decreases c
  {
    JObj([Member("moduleId", JInt(c.moduleId)), Member("module", JText(c.moduleName)),
          Member("methodId", JInt(c.methodId)), Member("method", JText(c.methodName))]
         + Maybe("arguments", if c.arguments.None? then None else Some(WriteArgs(c.arguments.value)))
         + Maybe("calls", if c.calls == [] then None else Some(JList(CallsTo(c.calls)))))
  }

  function CallsTo(calls: seq<Call>): (r: seq<Json>)
    ensures |r| == |calls|
    decreases calls
  {
    if calls == [] then [] else [CallTo(calls[0])] + CallsTo(calls[1..])
  }

  function ResolutionTo(r: Resolution): Json {
    JObj([Member("resolutionId", JInt(r.id))]
         + Maybe("description", if r.description.None? then None else Some(JText(r.description.value)))
         + [Member("calls", JList(CallsTo(r.calls)))])
  }

  function WriteEventData(d: EventData): Json {
    match d
    case Modelled(d) => WriteData(d)
    case Resolved(r) => ResolutionTo(r)
    case Unknown(j) => j
  }

  function EventTo(v: Event): Json {
    JObj([Member("address", JText(v.address)), Member("contract", JText(v.contract)), Member("kind", JText(v.kind))]
         + Maybe("data", if v.data.None? then None else Some(WriteEventData(v.data.value))))
  }

  // ----- read, write, read

  lemma {:induction false} GetConcat(a: seq<Member>, b: seq<Member>, name: string)
    ensures Get(a + b, name) == if Get(a, name).Some? then Get(a, name) else Get(b, name)
  {
    if a == [] {
      assert a + b == b;
    } else {
      assert (a + b)[1..] == a[1..] + b;
      GetConcat(a[1..], b, name);
    }
  }

  lemma GetTwo(a: Member, b: Member, name: string)
    ensures Get([a, b], name) == if a.name == name then Some(a.val) else if b.name == name then Some(b.val) else None
  {
    assert [a, b][1..] == [b] && [b][1..] == [];
  }

  lemma GetMaybe(name: string, j: Option<Json>, other: string)
    ensures Get(Maybe(name, j), other) == if name == other then j else None
  {
    if j.Some? { assert Maybe(name, j)[1..] == []; }
  }

  /** What each name of a written call holds. */
  lemma CallGets(c: Call)
    ensures var ms := CallTo(c).members;
            && Get(ms, "moduleId") == Some(JInt(c.moduleId)) && Get(ms, "module") == Some(JText(c.moduleName))
            && Get(ms, "methodId") == Some(JInt(c.methodId)) && Get(ms, "method") == Some(JText(c.methodName))
            && Get(ms, "arguments") == (if c.arguments.None? then None else Some(WriteArgs(c.arguments.value)))
            && Get(ms, "calls") == (if c.calls == [] then None else Some(JList(CallsTo(c.calls))))
  {
    hide CallsTo, WriteArgs, FirstOf, Get, Maybe;
    var a, b := Member("moduleId", JInt(c.moduleId)), Member("module", JText(c.moduleName));
    var d, f := Member("methodId", JInt(c.methodId)), Member("method", JText(c.methodName));
    var args := if c.arguments.None? then None else Some(WriteArgs(c.arguments.value));
    var calls := if c.calls == [] then None else Some(JList(CallsTo(c.calls)));
    assert CallTo(c).members == [a, b] + ([d, f] + (Maybe("arguments", args) + Maybe("calls", calls)));
    forall name: string
      ensures Get(CallTo(c).members, name) == FirstOf(a, b, d, f, args, calls, name)
    {
      SixGets(a, b, d, f, args, calls, name);
    }
    FirstOfSix(a, b, d, f, args, calls);
  }

  lemma SixGets(a: Member, b: Member, d: Member, f: Member, args: Option<Json>, calls: Option<Json>, name: string)
    ensures Get([a, b] + ([d, f] + (Maybe("arguments", args) + Maybe("calls", calls))), name)
         == FirstOf(a, b, d, f, args, calls, name)
  {
    hide Get, Maybe;
    GetConcat([a, b], [d, f] + (Maybe("arguments", args) + Maybe("calls", calls)), name);
    GetConcat([d, f], Maybe("arguments", args) + Maybe("calls", calls), name);
    GetConcat(Maybe("arguments", args), Maybe("calls", calls), name);
    GetTwo(a, b, name);
    GetTwo(d, f, name);
    GetMaybe("arguments", args, name);
    GetMaybe("calls", calls, name);
  }

  lemma FirstOfSix(a: Member, b: Member, d: Member, f: Member, args: Option<Json>, calls: Option<Json>)
    requires a.name == "moduleId" && b.name == "module" && d.name == "methodId" && f.name == "method"
    ensures FirstOf(a, b, d, f, args, calls, "moduleId") == Some(a.val)
    ensures FirstOf(a, b, d, f, args, calls, "module") == Some(b.val)
    ensures FirstOf(a, b, d, f, args, calls, "methodId") == Some(d.val)
    ensures FirstOf(a, b, d, f, args, calls, "method") == Some(f.val)
    ensures FirstOf(a, b, d, f, args, calls, "arguments") == args
    ensures FirstOf(a, b, d, f, args, calls, "calls") == calls
  {
    assert |"moduleId"| == 8 && |"module"| == 6 && |"methodId"| == 8 && |"method"| == 6;
    assert |"arguments"| == 9 && |"calls"| == 5 && "moduleId"[1] != "methodId"[1] && "module"[1] != "method"[1];
  }

  ghost function FirstOf(a: Member, b: Member, c: Member, d: Member, args: Option<Json>, calls: Option<Json>,
                         name: string): Option<Json> {
    if a.name == name then Some(a.val)
    else if b.name == name then Some(b.val)
    else if c.name == name then Some(c.val)
    else if d.name == name then Some(d.val)
    else if "arguments" == name && args.Some? then args
    else if "calls" == name then calls
    else None
  }

  lemma ArgsAgain(show: int -> string, moduleName: string, methodName: string, raw: Option<Json>)
    requires DecodeArgs(show, moduleName, methodName, raw).Some?
    ensures var a := DecodeArgs(show, moduleName, methodName, raw).value;
            DecodeArgs(show, moduleName, methodName, Some(WriteArgs(a))) == Some(a)
  {
    var j := raw.value;
    if j.JObj? {
      if Get(j.members, RAW_WIRE).Some? {
        RawAgain(show, j);
      } else if ArgumentShape(moduleName, methodName).Some? {
        ArgumentShapesGood(show, moduleName, methodName);
        TypedAgain(show, ArgumentShape(moduleName, methodName).value, j);
      }
    }
  }

  lemma RawAgain(show: int -> string, j: Json)
    requires j.JObj? && Get(j.members, RAW_WIRE).Some?
    ensures var w := WriteArgs(TypeArgs(show, RAW, j));
            w.JObj? && Get(w.members, RAW_WIRE).Some? && TypeArgs(show, RAW, w) == TypeArgs(show, RAW, j)
  {
    hide ArgumentShape;
    RawGood(show);
    var d := DecodeShape(show, RAW, j);
    if d.Some? {
      ShapeAgain(show, RAW, j);
      DecodedAt(show, RAW.fields, j.members, 0);
      WrittenAt(RAW.fields, d.value.values, 0);
    }
  }

  lemma TypedAgain(show: int -> string, shape: Shape, j: Json)
    requires j.JObj? && Get(j.members, RAW_WIRE).None? && Good(show, shape)
    ensures var w := WriteArgs(TypeArgs(show, shape, j));
            w.JObj? && Get(w.members, RAW_WIRE).None? && TypeArgs(show, shape, w) == TypeArgs(show, shape, j)
  {
    hide ArgumentShape;
    var d := DecodeShape(show, shape, j);
    if d.Some? {
      ShapeAgain(show, shape, j);
      WrittenGet(shape.fields, d.value.values, RAW_WIRE);
    }
  }

  lemma NoArgs(show: int -> string, moduleName: string, methodName: string)
    ensures DecodeArgs(show, moduleName, methodName, None) == None
  {
  }

  lemma {:induction false} CallAgain(show: int -> string, j: Json)
    ensures CallFrom(show, CallTo(CallFrom(show, j))) == CallFrom(show, j)
    decreases Size(j), 1
  {
    hide Get, CallsTo, CallsFrom, WriteArgs, DecodeArgs;
    var c := CallFrom(show, j);
    CallGets(c);
    NoArgs(show, c.moduleName, c.methodName);
    if j.JObj? {
      var raw, calls := Get(j.members, "arguments"), Get(j.members, "calls");
      if c.arguments.Some? { ArgsAgain(show, c.moduleName, c.methodName, raw); }
      if calls.Some? && calls.value.JList? { CallsAgain(show, calls.value.items); }
    }
  }

  lemma {:induction false} CallsAgain(show: int -> string, items: seq<Json>)
    ensures CallsFrom(show, CallsTo(CallsFrom(show, items))) == CallsFrom(show, items)
    decreases SizeAll(items), 2
  {
    if items != [] {
      CallAgain(show, items[0]);
      CallsAgain(show, items[1..]);
      var cs := CallsFrom(show, items);
      assert cs[1..] == CallsFrom(show, items[1..]) && CallsTo(cs)[1..] == CallsTo(cs[1..]);
    }
  }

  lemma ResolutionGets(r: Resolution)
    ensures var ms := ResolutionTo(r).members;
            && Get(ms, "resolutionId") == Some(JInt(r.id))
            && Get(ms, "description") == (if r.description.None? then None else Some(JText(r.description.value)))
            && Get(ms, "calls") == Some(JList(CallsTo(r.calls)))
  {
    var a := [Member("resolutionId", JInt(r.id))];
    var d := Maybe("description", if r.description.None? then None else Some(JText(r.description.value)));
    var c := [Member("calls", JList(CallsTo(r.calls)))];
    assert a[1..] == [] && c[1..] == [];
    forall name: string
      ensures Get(a + d + c, name)
           == if Get(a, name).Some? then Get(a, name) else if Get(d, name).Some? then Get(d, name) else Get(c, name)
    {
      GetConcat(a + d, c, name);
      GetConcat(a, d, name);
    }
    GetMaybe("description", if r.description.None? then None else Some(JText(r.description.value)), "resolutionId");
    GetMaybe("description", if r.description.None? then None else Some(JText(r.description.value)), "description");
    GetMaybe("description", if r.description.None? then None else Some(JText(r.description.value)), "calls");
  }

  lemma ResolutionAgain(show: int -> string, j: Json)
    ensures ResolutionFrom(show, ResolutionTo(ResolutionFrom(show, j))) == ResolutionFrom(show, j)
  {
    hide Get, CallsTo, CallsFrom;
    ResolutionGets(ResolutionFrom(show, j));
    if j.JObj? {
      var calls := Get(j.members, "calls");
      if calls.Some? && calls.value.JList? { CallsAgain(show, calls.value.items); }
    }
  }

  lemma DataAgain(show: int -> string, kind: string, raw: Option<Json>)
    requires DecodeEvent(show, kind, raw).Some?
    ensures var d := DecodeEvent(show, kind, raw).value;
            DecodeEvent(show, kind, Some(WriteEventData(d))) == Some(d)
  {
    hide EventShape;
    if kind == "SpecialResolution" {
      ResolutionAgain(show, raw.value);
    } else if EventShape(kind).Some? {
      EventShapesGood(show, kind);
      if DecodeShape(show, EventShape(kind).value, raw.value).Some? {
        ShapeAgain(show, EventShape(kind).value, raw.value);
      }
    }
  }

  lemma EventGets(v: Event)
    ensures var ms := EventTo(v).members;
            && Get(ms, "address") == Some(JText(v.address)) && Get(ms, "contract") == Some(JText(v.contract))
            && Get(ms, "kind") == Some(JText(v.kind))
            && Get(ms, "data") == (if v.data.None? then None else Some(WriteEventData(v.data.value)))
  {
    var a, b := Member("address", JText(v.address)), Member("contract", JText(v.contract));
    var k := Member("kind", JText(v.kind));
    var data := if v.data.None? then None else Some(WriteEventData(v.data.value));
    assert EventTo(v).members == [a, b] + ([k] + Maybe("data", data));
    assert [k][1..] == [];
    forall name: string
      ensures Get(EventTo(v).members, name)
           == if a.name == name then Some(a.val) else if b.name == name then Some(b.val)
              else if k.name == name then Some(k.val) else if "data" == name then data else None
    {
      GetConcat([a, b], [k] + Maybe("data", data), name);
      GetConcat([k], Maybe("data", data), name);
      GetTwo(a, b, name);
      GetMaybe("data", data, name);
    }
  }

  /** Decoding is total, and reading what was written for a decoded event gives
      that event, through resolutions nested to any depth. */
  lemma EventAgain(show: int -> string, j: Json)
    ensures EventFrom(show, EventTo(EventFrom(show, j))) == EventFrom(show, j)
  {
    hide EventShape;
    var v := EventFrom(show, j);
    EventGets(v);
    if v.data.Some? { DataAgain(show, v.kind, Get(j.members, "data")); }
  }

  // ----- nothing unmatched is lost

  /** Whether a payload is one this build models. */
  predicate Matches(show: int -> string, kind: string, payload: Json) {
    kind == "SpecialResolution"
    || (EventShape(kind).Some? && DecodeShape(show, EventShape(kind).value, payload).Some?)
  }

  /** A payload is kept as unknown data exactly when it does not match, and is
      then written back unchanged. */
  lemma UnmatchedKept(show: int -> string, j: Json)
    requires j.JObj? && Get(j.members, "data").Some? && !Get(j.members, "data").value.JNull?
    ensures var payload := Get(j.members, "data").value;
            var v := EventFrom(show, j);
            && v.data.Some?
            && (v.data.value.Unknown? <==> !Matches(show, v.kind, payload))
            && (!Matches(show, v.kind, payload) ==> Get(EventTo(v).members, "data") == Some(payload))
  {
    hide EventShape;
    EventGets(EventFrom(show, j));
  }

  /** The shape a call's arguments are held against. */
  function ArgShape(show: int -> string, c: Call, payload: Json): Option<Shape> {
    if !payload.JObj? then None
    else if Get(payload.members, RAW_WIRE).Some? then Some(RAW)
    else ArgumentShape(c.moduleName, c.methodName)
  }

  /** The same for the arguments of a call. */
  lemma UnmatchedArgumentsKept(show: int -> string, j: Json)
    requires j.JObj? && Get(j.members, "arguments").Some? && !Get(j.members, "arguments").value.JNull?
    ensures var payload := Get(j.members, "arguments").value;
            var c := CallFrom(show, j);
            var shape := ArgShape(show, c, payload);
            && c.arguments.Some?
            && (c.arguments.value.Unrecognized? <==> shape.None? || DecodeShape(show, shape.value, payload).None?)
            && (c.arguments.value.Unrecognized? ==> Get(CallTo(c).members, "arguments") == Some(payload))
  {
    hide ArgumentShape;
    CallGets(CallFrom(show, j));
  }

  // ----- the dictionaries, filled step by step

  method WriteCall(c: Call) returns (j: Json)
    ensures j == CallTo(c)
    decreases c
  {
    var written := [Member("moduleId", JInt(c.moduleId)), Member("module", JText(c.moduleName)),
                    Member("methodId", JInt(c.methodId)), Member("method", JText(c.methodName))];
    ghost var head := written;
    if c.arguments.Some? {
      written := written + [Member("arguments", WriteArgs(c.arguments.value))];
    }
    assert written == head + Maybe("arguments", if c.arguments.None? then None else Some(WriteArgs(c.arguments.value)));
    if c.calls != [] {
      var calls := WriteCalls(c.calls);
      written := written + [Member("calls", JList(calls))];
    }
    j := JObj(written);
  }

  method WriteCalls(calls: seq<Call>) returns (items: seq<Json>)
    ensures items == CallsTo(calls)
    decreases calls
  {
    items := [];
    var i := 0;
    assert calls[0..] == calls;
    while i < |calls|
      invariant 0 <= i <= |calls|
      invariant CallsTo(calls) == items + CallsTo(calls[i..])
    {
      assert calls[i..][0] == calls[i] && calls[i..][1..] == calls[i + 1..];
      var item := WriteCall(calls[i]);
      items := items + [item];
      i := i + 1;
    }
  }

  method WriteResolution(r: Resolution) returns (j: Json)
    ensures j == ResolutionTo(r)
  {
    var written := [Member("resolutionId", JInt(r.id))];
    if r.description.Some? {
      written := written + [Member("description", JText(r.description.value))];
    }
    var calls := WriteCalls(r.calls);
    written := written + [Member("calls", JList(calls))];
    j := JObj(written);
  }

  method WriteEvent(v: Event) returns (j: Json)
    ensures j == EventTo(v)
  {
    var written := [Member("address", JText(v.address)), Member("contract", JText(v.contract)),
                    Member("kind", JText(v.kind))];
    if v.data.Some? {
      var data: Json;
      match v.data.value {
        case Resolved(r) => data := WriteResolution(r);
        case Modelled(d) => data := WriteData(d);
        case Unknown(raw) => data := raw;
      }
      written := written + [Member("data", data)];
    }
    j := JObj(written);
  }
}
