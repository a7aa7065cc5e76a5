/** What reading an extended event and writing it back keeps, down to the arguments
    of nested calls. */
module EventsKept {
  import opened Arguments
  import opened Bytes
  import opened Events
  import opened Json
  import opened Shapes
  import opened WireKept
  import opened WireShapes

  /** A text member stays; anything else becomes the empty text. */
  predicate TextKept(ms: seq<Member>, ws: seq<Member>, name: string) {
    var j := Get(ms, name);
    Get(ws, name) == if j.Some? && j.value.JText? then j else Some(JText(""))
  }

  /** An integer member stays; anything else becomes 0. */
  predicate IntKept(ms: seq<Member>, ws: seq<Member>, name: string) {
    var j := Get(ms, name);
    Get(ws, name) == if j.Some? && j.value.JInt? then j else Some(JInt(0))
  }

  function TextOf(ms: seq<Member>, name: string): string {
    var j := Get(ms, name);
    if j.Some? && j.value.JText? then j.value.s else ""
  }

  /** An object of a shape keeps its members; JSON of no known shape is kept whole. */
  ghost predicate PayloadKept(show: int -> string, shape: Option<Shape>, j: Json, w: Json) {
    if shape.Some? && Takes(TShape(shape.value), j) then Keeps(show, TShape(shape.value), j, w) else w == j
  }

  /** Arguments are held against the shape of the method, a dump against its own. */
  ghost predicate ArgumentsKept(show: int -> string, ms: seq<Member>, ws: seq<Member>) {
    var raw, written := Get(ms, "arguments"), Get(ws, "arguments");
    if raw.None? || raw.value.JNull? then written.None?
    else
      var j := raw.value;
      var dump := j.JObj? && Get(j.members, "rawArgs").Some?;
      var shape := if dump then Some(RAW) else ArgumentShape(TextOf(ms, "module"), TextOf(ms, "method"));
      written.Some? && PayloadKept(show, shape, j, written.value)
  }

  ghost predicate CallKept(show: int -> string, j: Json, w: Json)
    decreases Size(j), 1
  {
    w.JObj? &&
    var ms := if j.JObj? then j.members else [];
    && IntKept(ms, w.members, "moduleId") && TextKept(ms, w.members, "module")
    && IntKept(ms, w.members, "methodId") && TextKept(ms, w.members, "method")
    && ArgumentsKept(show, ms, w.members)
    && var calls, written := Get(ms, "calls"), Get(w.members, "calls");
       if calls.Some? && calls.value.JList? && calls.value.items != []
       then written.Some? && written.value.JList? && CallsKept(show, calls.value.items, written.value.items)
       else written.None?
  }

  ghost predicate CallsKept(show: int -> string, items: seq<Json>, ws: seq<Json>)
    decreases SizeAll(items), 2
  {
    |ws| == |items| && (items != [] ==> CallKept(show, items[0], ws[0]) && CallsKept(show, items[1..], ws[1..]))
  }

  ghost predicate ResolutionKept(show: int -> string, j: Json, w: Json) {
    w.JObj? &&
    var ms := if j.JObj? then j.members else [];
    && IntKept(ms, w.members, "resolutionId")
    && (var text := Get(ms, "description");
        Get(w.members, "description") == if text.Some? && text.value.JText? then text else None)
    && var calls, written := Get(ms, "calls"), Get(w.members, "calls");
       && written.Some? && written.value.JList?
       && CallsKept(show, if calls.Some? && calls.value.JList? then calls.value.items else [], written.value.items)
  }

  ghost predicate EventKept(show: int -> string, j: Json, w: Json) {
    w.JObj? &&
    var ms := if j.JObj? then j.members else [];
    && TextKept(ms, w.members, "address") && TextKept(ms, w.members, "contract") && TextKept(ms, w.members, "kind")
    && var kind, data, written := TextOf(ms, "kind"), Get(ms, "data"), Get(w.members, "data");
       if data.None? || data.value.JNull? then written.None?
       else
         && written.Some?
         && if kind == "SpecialResolution" then ResolutionKept(show, data.value, written.value)
            else PayloadKept(show, EventShape(kind), data.value, written.value)
  }

  // ----- is what happens

  lemma Objects(c: Call, r: Resolution, v: Event)
    ensures CallTo(c).JObj? && ResolutionTo(r).JObj? && EventTo(v).JObj?
  {
  }

  lemma ArgsKept(show: int -> string, ms: seq<Member>, c: Call)
    requires c.moduleName == TextOf(ms, "module") && c.methodName == TextOf(ms, "method")
    requires c.arguments == DecodeArgs(show, c.moduleName, c.methodName, Get(ms, "arguments"))
    ensures ArgumentsKept(show, ms, CallTo(c).members)
  {
    hide CallTo, ArgumentShape;
    CallGets(c);
    var raw := Get(ms, "arguments");
    if raw.Some? && raw.value.JObj? {
      if Get(raw.value.members, "rawArgs").Some? {
        ShapeKept(show, RAW, raw.value);
      } else if ArgumentShape(c.moduleName, c.methodName).Some? {
        ShapeKept(show, ArgumentShape(c.moduleName, c.methodName).value, raw.value);
      }
    }
  }

  lemma {:induction false} CallIsKept(show: int -> string, j: Json)
    ensures CallKept(show, j, CallTo(CallFrom(show, j)))
    decreases Size(j), 1
  {
    hide DecodeArgs, CallTo, ArgumentsKept;
    var ms := if j.JObj? then j.members else [];
    var c := CallFrom(show, j);
    CallGets(c);
    Objects(c, ResolutionFrom(show, j), EventFrom(show, j));
    NoArgs(show, "", "");
    ArgsKept(show, ms, c);
    var calls := Get(ms, "calls");
    if calls.Some? && calls.value.JList? { CallsAreKept(show, calls.value.items); }
  }

  lemma {:induction false} CallsAreKept(show: int -> string, items: seq<Json>)
    ensures CallsKept(show, items, CallsTo(CallsFrom(show, items)))
    decreases SizeAll(items), 2
  {
    if items != [] {
      CallIsKept(show, items[0]);
      CallsAreKept(show, items[1..]);
      var cs := CallsFrom(show, items);
      assert cs[1..] == CallsFrom(show, items[1..]) && CallsTo(cs)[1..] == CallsTo(cs[1..]);
    }
  }

  lemma ResolutionIsKept(show: int -> string, j: Json)
    ensures ResolutionKept(show, j, ResolutionTo(ResolutionFrom(show, j)))
  {
    hide ResolutionTo;
    ResolutionGets(ResolutionFrom(show, j));
    Objects(CallFrom(show, j), ResolutionFrom(show, j), EventFrom(show, j));
    if j.JObj? {
      var calls := Get(j.members, "calls");
      if calls.Some? && calls.value.JList? { CallsAreKept(show, calls.value.items); }
    }
  }

  lemma DataIsKept(show: int -> string, kind: string, j: Json)
    requires kind != "SpecialResolution" && !j.JNull?
    ensures DecodeEvent(show, kind, Some(j)).Some?
    ensures PayloadKept(show, EventShape(kind), j, WriteEventData(DecodeEvent(show, kind, Some(j)).value))
  {
    hide EventShape;
    if EventShape(kind).Some? { ShapeKept(show, EventShape(kind).value, j); }
  }

  /** Reading an event and writing it back keeps its address, contract and kind, and
      its payload: member by member where the kind's shape takes it, call by call in a
      resolution, and otherwise whole. */
  lemma EventIsKept(show: int -> string, j: Json)
    ensures EventKept(show, j, EventTo(EventFrom(show, j)))
  {
    hide EventTo, ResolutionTo, ResolutionFrom, EventShape, PayloadKept, ResolutionKept;
    var ms := if j.JObj? then j.members else [];
    var v := EventFrom(show, j);
    EventGets(v);
    Objects(CallFrom(show, j), ResolutionFrom(show, j), v);
    var data := Get(ms, "data");
    if data.Some? && !data.value.JNull? {
      if v.kind == "SpecialResolution" {
        ResolutionIsKept(show, data.value);
      } else {
        DataIsKept(show, v.kind, data.value);
      }
    }
  }
}
