/** Dataclasses as shapes, and the shapes of extended-event data. */
module Shapes {
  import opened Bytes
  import opened FieldNames
  import opened Json
  import opened WireShapes

  /** A dataclass as its fields' names, under which they travel once in camel
      case, and their annotations. */
  datatype Class = Class(names: seq<FieldName>, tys: seq<Ty>)

  function Texts(names: seq<FieldName>): Class { Class(names, seq(|names|, _ => TText)) }

  function Optionals(names: seq<FieldName>): Class { Class(names, seq(|names|, _ => TOptional(TText))) }

  /** A subclass lists its base's fields first. */
  function Extend(base: Class, more: Class): Class { Class(base.names + more.names, base.tys + more.tys) }

  /** The default the dataclasses give a field of each annotation. */
  function DefaultOf(ty: Ty): Data {
    match ty
    case TText => DText("")
    case TBool => DBool(false)
    case TInt => DInt(0)
    case TVm => DVm(VText(""))
    case TList(_) => DList([])
    case TDict(_) => DDict([])
    case TShape(shape) => DNull
    case TOptional(_) => DNull
  }

  function Dataclass(c: Class): Shape
    requires |c.names| == |c.tys|
  {
    Shape(seq(|c.names|, i requires 0 <= i < |c.names| => Decl(c.names[i], None, c.tys[i], DefaultOf(c.tys[i]))))
  }

  /** The field that travels as a Python keyword, and is named otherwise. */
  function Spelled(s: Shape, i: nat, name: string): Shape
    requires i < |s.fields|
  {
    Shape(s.fields[i := s.fields[i].(name := name, override := Some(s.fields[i].name))])
  }

  /** A text field with a default of its own. */
  function Starting(s: Shape, i: nat, text: string): Shape
    requires i < |s.fields|
  {
    Shape(s.fields[i := s.fields[i].(default := DText(text))])
  }

  // ----- event data

  const TOKEN_CREATE := Class(
    [SYMBOL, MAX_SUPPLY, DECIMALS, IS_NON_FUNGIBLE, CARBON_TOKEN_ID, METADATA],
    [TText, TText, TInt, TBool, TInt, TDict(TText)])

  const TOKEN_SERIES_CREATE := Class(
    [SYMBOL, SERIES_ID, MAX_MINT, MAX_SUPPLY, OWNER, CARBON_TOKEN_ID, CARBON_SERIES_ID, METADATA],
    [TText, TText, TInt, TInt, TText, TInt, TInt, TDict(TText)])

  const MARKET_ORDER := Class(
    [BASE_SYMBOL, QUOTE_SYMBOL, TOKEN_ID, CARBON_BASE_TOKEN_ID, CARBON_QUOTE_TOKEN_ID, CARBON_INSTANCE_ID,
     SELLER, BUYER, PRICE, END_PRICE, START_DATE, END_DATE, TYPE],
    [TText, TText, TText, TInt, TInt, TInt, TText, TText, TText, TText, TInt, TInt, TText])

  /** EVENT_SHAPES: the three market kinds share one shape. */
  function EventShape(kind: string): Option<Shape> {
    if kind == "TokenCreate" then Some(Dataclass(TOKEN_CREATE))
    else if kind == "TokenSeriesCreate" then Some(Dataclass(TOKEN_SERIES_CREATE))
    else if kind == "OrderCreated" || kind == "OrderCancelled" || kind == "OrderFilled" then
      Some(Dataclass(MARKET_ORDER))
    else None
  }

  /** RawArguments: the undecoded argument buffer. */
  const RAW := Dataclass(Class([RAW_ARGS], [TText]))

  // ----- shapes that decode what they write

  /** The wire name that marks an undecoded argument buffer. */
  const RAW_WIRE := "rawArgs"

  /** Decodes what it writes, and never writes a field as "rawArgs". */
  ghost predicate Good(show: int -> string, shape: Shape) {
    GoodShape(show, shape) && forall i :: 0 <= i < |shape.fields| ==> Wire(shape.fields[i]) != RAW_WIRE
  }

  predicate AllDistinct(names: seq<string>) { forall i, j :: 0 <= i < j < |names| ==> names[i] != names[j] }

  predicate NoneRaw(names: seq<string>) { forall i :: 0 <= i < |names| ==> names[i] != RAW_ARGS }

  /** The annotations a dataclass of the tables gives its own default. */
  ghost predicate Defaulted(show: int -> string, ty: Ty) { GoodTy(show, ty) && !ty.TVm? && !ty.TShape? }

  /** What the classes of the tables have to meet: distinct names. */
  ghost predicate Fit(show: int -> string, c: Class) {
    && |c.names| == |c.tys| && AllDistinct(c.names)
    && forall i :: 0 <= i < |c.tys| ==> Defaulted(show, c.tys[i])
  }

  /** A shape whose fields have usual defaults and distinct snake-case keys. */
  ghost predicate Table(show: int -> string, s: Shape) {
    DistinctKeys(s.fields) && forall i :: 0 <= i < |s.fields| ==> Tabled(show, s.fields[i])
  }

  predicate NoRaw(s: Shape) { forall i :: 0 <= i < |s.fields| ==> Key(s.fields[i]) != RAW_ARGS }

  lemma CamelHead(c: char, s: string, up: bool)
    ensures Camel([c] + s, up) == if c == '_' then Camel(s, true) else [if up then Upper(c) else c] + Camel(s, false)
  {
    assert ([c] + s)[1..] == s;
  }

  lemma CamelBreak(c: char, y: string)
    requires c != '_' && '_' !in y
    ensures Camel(['_'] + ([c] + y), false) == [Upper(c)] + y
  {
    hide Camel;
    CamelHead('_', [c] + y, false);
    CamelHead(c, y, true);
    CamelDrops(y, false);
  }

  lemma {:induction false} CamelPrefix(x: string, t: string)
    requires '_' !in x
    ensures Camel(x + t, false) == x + Camel(t, false)
  {
    hide Camel;
    if x == [] {
      assert x + t == t && x + Camel(t, false) == Camel(t, false);
    } else {
      assert x[0] in x;
      CamelPrefix(x[1..], t);
      CamelHead(x[0], x[1..] + t, false);
      assert x + t == [x[0]] + (x[1..] + t);
      assert x + Camel(t, false) == [x[0]] + (x[1..] + Camel(t, false));
    }
  }

  lemma CamelJoin(x: string, c: char, y: string)
    requires '_' !in x && c != '_' && '_' !in y
    ensures SnakeToCamel(x + (['_'] + ([c] + y))) == x + ([Upper(c)] + y)
  {
    CamelPrefix(x, ['_'] + ([c] + y));
    CamelBreak(c, y);
  }

  lemma RawWire()
    ensures SnakeToCamel(RAW_ARGS) == RAW_WIRE
  {
    CamelJoin("raw", 'a', "rgs");
    assert "raw_args" == "raw" + (['_'] + (['a'] + "rgs"));
    assert RAW_WIRE == "raw" + (['A'] + "rgs");
  }

  lemma NotRaw(f: Decl)
    requires Named(f) && Key(f) != RAW_ARGS
    ensures Wire(f) != RAW_WIRE
  {
    hide Camel, SnakeName;
    RawWire();
    WireOfKey(f);
    WireOfName(Key(f), RAW_ARGS);
  }

  lemma WireOfName(a: FieldName, b: FieldName)
    requires a != b
    ensures SnakeToCamel(a) != SnakeToCamel(b)
  {
    hide Camel, SnakeName;
    SnakeFrom(a, 0);
    SnakeFrom(b, 0);
    assert a[0..] == a && b[0..] == b;
    CamelDistinct(a, b);
  }

  /** Any such shape decodes what it writes. */
  lemma TableIsGood(show: int -> string, s: Shape)
    requires Table(show, s)
    ensures GoodShape(show, s) && (NoRaw(s) ==> Good(show, s))
  {
    TableGood(show, s);
    if NoRaw(s) {
      forall i | 0 <= i < |s.fields| ensures Wire(s.fields[i]) != RAW_WIRE {
        assert Tabled(show, s.fields[i]);
        NotRaw(s.fields[i]);
      }
    }
  }

  /** Any dataclass with distinct names does. */
  lemma DataclassTable(show: int -> string, c: Class)
    requires Fit(show, c)
    ensures Table(show, Dataclass(c)) && (NoneRaw(c.names) ==> NoRaw(Dataclass(c)))
  {
    hide SnakeName;
    var s := Dataclass(c);
    forall i | 0 <= i < |c.names| ensures Tabled(show, s.fields[i]) && Key(s.fields[i]) == c.names[i] {
      assert Defaulted(show, c.tys[i]);
      var name: FieldName := c.names[i];
    }
  }

  lemma DataclassGood(show: int -> string, c: Class)
    requires Fit(show, c) && NoneRaw(c.names)
    ensures Good(show, Dataclass(c))
  {
    DataclassTable(show, c);
    TableIsGood(show, Dataclass(c));
  }

  /** And so does one with a keyword's field spelled otherwise, */
  lemma SpelledTable(show: int -> string, s: Shape, i: nat, name: string)
    requires Table(show, s) && i < |s.fields| && s.fields[i].override == None
    requires '_' !in s.fields[i].name && '_' in name
    ensures Table(show, Spelled(s, i, name)) && (NoRaw(s) ==> NoRaw(Spelled(s, i, name)))
  {
    hide SnakeName, GoodTy;
    var t := Spelled(s, i, name);
    assert Tabled(show, s.fields[i]);
    assert s.fields[i].name != "" by { EmptyIsNoName(s.fields[i].name); }
    forall k | 0 <= k < |t.fields| ensures Tabled(show, t.fields[k]) && Key(t.fields[k]) == Key(s.fields[k]) {
      assert Tabled(show, s.fields[k]);
    }
  }

  lemma EmptyIsNoName(s: string)
    requires SnakeName(s)
    ensures s != ""
  {
  }

  /** or with a text default of its own. */
  lemma StartingTable(show: int -> string, s: Shape, i: nat, text: string)
    requires Table(show, s) && i < |s.fields| && s.fields[i].ty == TText
    ensures Table(show, Starting(s, i, text)) && (NoRaw(s) ==> NoRaw(Starting(s, i, text)))
  {
    hide SnakeName, GoodTy;
    var t := Starting(s, i, text);
    forall k | 0 <= k < |t.fields| ensures Tabled(show, t.fields[k]) && Key(t.fields[k]) == Key(s.fields[k]) {
      assert Tabled(show, s.fields[k]);
    }
  }

  lemma TextsFit(show: int -> string, names: seq<FieldName>)
    requires AllDistinct(names)
    ensures Fit(show, Texts(names))
  {
  }

  lemma OptionalsFit(show: int -> string, names: seq<FieldName>)
    requires AllDistinct(names)
    ensures Fit(show, Optionals(names))
  {
  }

  predicate Disjoint(a: seq<string>, b: seq<string>) {
    forall i, j :: 0 <= i < |a| && 0 <= j < |b| ==> a[i] != b[j]
  }

  lemma DisjointJoin(a: seq<string>, b: seq<string>, c: seq<string>)
    requires Disjoint(a, b) && Disjoint(a, c)
    ensures Disjoint(a, b + c)
  {
  }

  lemma ExtendFits(show: int -> string, base: Class, more: Class)
    requires Fit(show, base) && Fit(show, more) && Disjoint(base.names, more.names)
    ensures Fit(show, Extend(base, more))
    ensures NoneRaw(base.names) && NoneRaw(more.names) ==> NoneRaw(Extend(base, more).names)
  {
    hide SnakeName, GoodTy;
  }

  // ----- the event shapes do

  lemma RawGood(show: int -> string)
    ensures GoodShape(show, RAW) && Wire(RAW.fields[0]) == RAW_WIRE
  {
    hide SnakeName;
    RawWire();
    DataclassTable(show, Class([RAW_ARGS], [TText]));
    TableIsGood(show, RAW);
  }

  lemma TokenCreateFits(show: int -> string)
    ensures Fit(show, TOKEN_CREATE) && NoneRaw(TOKEN_CREATE.names)
  {
  }

  lemma SeriesCreateFits(show: int -> string)
    ensures Fit(show, TOKEN_SERIES_CREATE) && NoneRaw(TOKEN_SERIES_CREATE.names)
  {
  }

  lemma MarketOrderDistinct()
    ensures AllDistinct(MARKET_ORDER.names)
  {
  }

  lemma MarketOrderFits(show: int -> string)
    ensures Fit(show, MARKET_ORDER) && NoneRaw(MARKET_ORDER.names)
  {
    MarketOrderDistinct();
    hide SnakeName;
  }

  lemma EventShapesGood(show: int -> string, kind: string)
    requires EventShape(kind).Some?
    ensures Good(show, EventShape(kind).value)
  {
    hide Good;
    TokenCreateFits(show);
    DataclassGood(show, TOKEN_CREATE);
    SeriesCreateFits(show);
    DataclassGood(show, TOKEN_SERIES_CREATE);
    MarketOrderFits(show);
    DataclassGood(show, MARKET_ORDER);
  }
}
