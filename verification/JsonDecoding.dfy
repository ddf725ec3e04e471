/**
 What the fluent parser computes, as functions: conversions, one `get` expression with its chain of modifiers,
 a sequence of such expressions, and nested objects. The object-level parser is proved to compute these.
 */
module JsonDecoding {
  import opened Common

  // ---------------------------------------------------------------- values and shapes

  /** A parsed document. JInvalid is what parsing malformed text yields. */
  datatype JValue =
    | JInvalid | JNull | JBool(truth: bool) | JNum(number: real) | JStr(text: string)
    | JArr(items: seq<JValue>) | JObj(members: map<string, JValue>)

  /** The content of a destination variable. VUndefined is the result of an undefined conversion. */
  datatype Value =
    | VUndefined | VBool(truth: bool) | VInt(n: int) | VReal(r: real) | VStr(text: string) | VJson(json: JValue)
    | VArr(items: seq<Value>) | VObj(slots: map<string, Value>)

  /**
   The type of a destination. Obj is a class whose parseFromJson gets these fields and then finishes or throws;
   Custom is any type together with a parse function the client passes, the one of that number.
   */
  datatype Shape =
    | U8 | I8 | U16 | I16 | I32 | U32 | I64 | U64 | Dbl | Bool | Str | Json
    | Obj(initial: map<string, Value>, fields: seq<Field>, strict: bool)
    | Custom(parser: nat, initialValue: Value)

  /** Which member function is called: get, getFromString, getArray or getAndMap. */
  datatype Source =
    | Plain(shape: Shape) | FromString(shape: Shape) | Array(element: Shape)
    | Mapped(key: Shape, table: seq<(Value, Value)>)

  datatype Modifier =
    | Optional(on: bool) | AllowNull(on: bool) | DefaultValue(value: Value)
    | Min(value: Value) | Max(value: Value) | AllowedValues(values: seq<Value>)

  /** One request: an expression `parser.get…(name, slot).m1().m2()…`, or `slot = parser.getObject(name)`. */
  datatype Field =
    | Field(name: string, slot: string, source: Source, chain: seq<Modifier>)
    | SubParser(name: string, slot: string)

  datatype Reason =
    | Mandatory | NullNotAllowed | BelowMinimum | AboveMaximum | NotInList | NotInMap | ArrayExpected | ObjectExpected
    | OutOfBounds | NotNumeric | Fractional | NotANumber | NotABoolean | NotAString | NotAnObject
    | ExtraFields | Inner(error: ParseError)

  datatype ParseError = MalformedJson | AtField(name: string, reason: Reason)

  /**
   What the platform provides: parsing a numeric string, parsing a whole document, rounding to a double and whether
   a number is beyond the range of doubles. And the parse functions of the client.
   */
  datatype Env = Env(
    numeral: string -> Option<real>,
    document: string -> JValue,
    rounded: real -> real,
    beyond: real -> bool,
    custom: (nat, JValue, Value) -> Outcome)

  // ---------------------------------------------------------------- numbers

  datatype Flags = Flags(overflow: bool, notANumber: bool, precisionLoss: bool)

  const OK := Flags(false, false, false)

  /** checkConversionResultOrThrow: the exception for a set of conversion flags, if any. */
  function Thrown(f: Flags): Option<Reason> {
    if f.overflow then Some(OutOfBounds)
    else if f.notANumber then Some(NotNumeric)
    else if f.precisionLoss then Some(Fractional)
    else None
  }

  /** The number a value stands for: None if its type is neither number nor string, Some(None) for other text. */
  function Numeric(env: Env, v: JValue): Option<Option<real>> {
    match v
    case JNum(r) => Some(Some(r))
    case JStr(s) => Some(env.numeral(s))
    case _ => None
  }

  function Truncate(r: real): int {
    if r >= 0.0 then r.Floor else -((-r).Floor)
  }

  /** The library's conversion to an integer type: truncate, saturate, report. */
  function ConvertInt(src: Option<real>, lo: int, hi: int): (r: (Flags, int))
  {
    if src.None? then (Flags(false, true, false), 0)
    else
      var t := Truncate(src.value);
      if t < lo then (Flags(true, false, false), lo)
      else if t > hi then (Flags(true, false, false), hi)
      else (Flags(false, false, t as real != src.value), t)
  }

  const I32_MIN := -0x8000_0000
  const I32_MAX := 0x7fff_ffff
  const I64_MIN := -0x8000_0000_0000_0000
  const I64_MAX := 0x7fff_ffff_ffff_ffff
  const TWO_TO_64 := 0x1_0000_0000_0000_0000

  /** What a parse function leaves behind: the destination, and the exception it threw, if any. */
  datatype Outcome = Outcome(dest: Value, thrown: Option<Reason>)

  /** Through a wider signed integer, then a range check, then assignment. */
  function DecodeNarrow(env: Env, v: JValue, lo: int, hi: int, wideLo: int, wideHi: int, cur: Value): Outcome {
    var src := Numeric(env, v);
    if src.None? then Outcome(cur, Some(NotANumber))
    else
      var (f, val) := ConvertInt(src.value, wideLo, wideHi);
      var f' := if val < lo || val > hi then f.(overflow := true) else f;
      if f' == OK then Outcome(VInt(val), None) else Outcome(cur, Thrown(f'))
  }

  /** Straight into the destination, which is written even when the conversion is then rejected. */
  function DecodeDirect(env: Env, v: JValue, lo: int, hi: int, cur: Value): Outcome {
    var src := Numeric(env, v);
    if src.None? then Outcome(cur, Some(NotANumber))
    else
      var (f, val) := ConvertInt(src.value, lo, hi);
      Outcome(VInt(val), Thrown(f))
  }

  /** The range and fraction checks on the double; 2^64 itself passes them and reaches the undefined cast. */
  function CastU64(val: real, overflow: bool, cur: Value): Outcome {
    var outside := val < 0.0 || val > TWO_TO_64 as real;
    var f := Flags(overflow || outside, false, !outside && val.Floor as real != val);
    if f == OK then Outcome(if val.Floor < TWO_TO_64 then VInt(val.Floor) else VUndefined, None)
    else Outcome(cur, Thrown(f))
  }

  /** Through a double, whose own rounding raises no flag except beyond the range of doubles. */
  function DecodeU64(env: Env, v: JValue, cur: Value): Outcome {
    var src := Numeric(env, v);
    if src.None? then Outcome(cur, Some(NotANumber))
    else if src.value.None? then Outcome(cur, Thrown(Flags(false, true, false)))
    else CastU64(env.rounded(src.value.value), env.beyond(src.value.value), cur)
  }

  /** Precision loss is ignored. */
  function DecodeDouble(env: Env, v: JValue, cur: Value): Outcome {
    var src := Numeric(env, v);
    if src.None? then Outcome(cur, Some(NotANumber))
    else if src.value.None? then Outcome(VReal(0.0), Thrown(Flags(false, true, false)))
    else
      var r := src.value.value;
      Outcome(VReal(env.rounded(r)), Thrown(Flags(env.beyond(r), false, false)))
  }

  function DecodeString(v: JValue, cur: Value): Outcome {
    if v.JStr? then Outcome(VStr(v.text), None) else Outcome(cur, Some(NotAString))
  }

  // ---------------------------------------------------------------- one get expression

  /** JsonParseContext: the field, its destination, the four flags, and the errors this expression has recorded. */
  datatype Context = Context(name: string, dest: Value, read: bool, isNull: bool, optional: bool, allowNull: bool,
                             errors: seq<ParseError>)

  predicate HasKey(json: JValue, name: string) {
    json.JObj? && name in json.members
  }

  function Lookup(json: JValue, name: string): JValue {
    if HasKey(json, name) then json.members[name] else JNull
  }

  /** getImpl, given what the parse function would do. */
  function Got(name: string, v: JValue, found: bool, cur: Value, o: Outcome, errors: seq<ParseError>): Context {
    var isNull := found && v.JNull?;
    if !found || isNull then Context(name, cur, false, isNull, false, false, errors)
    else if o.thrown.None? then Context(name, o.dest, true, false, false, false, errors)
    else Context(name, o.dest, false, isNull, false, false, errors + [AtField(name, o.thrown.value)])
  }

  /** Lexicographic order on strings. */
  predicate StringLess(a: string, b: string) {
    if b == [] then false
    else if a == [] then true
    else a[0] < b[0] || (a[0] == b[0] && StringLess(a[1..], b[1..]))
  }

  /** How two values of one destination type compare: negative, zero or positive; vectors lexicographically. */
  function Order(a: Value, b: Value): int
    decreases a
  {
    match (a, b)
    case (VBool(x), VBool(y)) => (if x then 1 else 0) - (if y then 1 else 0)
    case (VInt(m), VInt(n)) => m - n
    case (VReal(x), VReal(y)) => if x < y then -1 else if x > y then 1 else 0
    case (VStr(x), VStr(y)) => if StringLess(x, y) then -1 else if StringLess(y, x) then 1 else 0
    case (VArr(xs), VArr(ys)) => ItemsOrder(xs, ys)
    case _ => 0
  }

  function ItemsOrder(a: seq<Value>, b: seq<Value>): int
    decreases a
  {
    if a == [] || b == [] then |a| - |b|
    else
      var first := Order(a[0], b[0]);
      if first != 0 then first else ItemsOrder(a[1..], b[1..])
  }

  /** operator< of the destination type. */
  predicate Less(a: Value, b: Value) {
    Order(a, b) < 0
  }

  function Note(c: Context, failed: bool, reason: Reason): Context {
    if failed then c.(errors := c.errors + [AtField(c.name, reason)]) else c
  }

  /** One modifier call. */
  function Apply(c: Context, m: Modifier): Context {
    match m
    case Optional(on) => c.(optional := on)
    case AllowNull(on) => c.(allowNull := on)
    case DefaultValue(v) => if c.read then c else c.(dest := v)
    case Min(v) => Note(c, c.read && Less(c.dest, v), BelowMinimum)
    case Max(v) => Note(c, c.read && Less(v, c.dest), AboveMaximum)
    case AllowedValues(vs) => Note(c, c.read && c.dest !in vs, NotInList)
  }

  function Chain(c: Context, ms: seq<Modifier>): Context {
    if ms == [] then c else Apply(Chain(c, Front(ms)), Last(ms))
  }

  /** The destructor of the context. */
  function Finish(c: Context): Context {
    if c.read then c
    else if !c.optional then Note(c, true, Mandatory)
    else Note(c, c.isNull && !c.allowNull, NullNotAllowed)
  }

  // ---------------------------------------------------------------- decoding

  /** A default-constructed destination. */
  function Zero(s: Shape): Value {
    match s
    case Dbl => VReal(0.0)
    case Bool => VBool(false)
    case Str => VStr("")
    case Json => VJson(JNull)
    case Obj(initial, _, _) => VObj(initial)
    case Custom(_, initialValue) => initialValue
    case _ => VInt(0)
  }

  /** parseValueOrDataObject. */
  function Decode(env: Env, s: Shape, v: JValue, cur: Value): Outcome
    decreases s, 0
  {
    match s
    case U8 => DecodeNarrow(env, v, 0, 0xff, I32_MIN, I32_MAX, cur)
    case I8 => DecodeNarrow(env, v, -0x80, 0x7f, I32_MIN, I32_MAX, cur)
    case U16 => DecodeNarrow(env, v, 0, 0xffff, I32_MIN, I32_MAX, cur)
    case I16 => DecodeNarrow(env, v, -0x8000, 0x7fff, I32_MIN, I32_MAX, cur)
    case I32 => DecodeDirect(env, v, I32_MIN, I32_MAX, cur)
    case U32 => DecodeNarrow(env, v, 0, 0xffff_ffff, I64_MIN, I64_MAX, cur)
    case I64 => DecodeDirect(env, v, I64_MIN, I64_MAX, cur)
    case U64 => DecodeU64(env, v, cur)
    case Dbl => DecodeDouble(env, v, cur)
    case Bool => if v.JBool? then Outcome(VBool(v.truth), None) else Outcome(cur, Some(NotABoolean))
    case Str => DecodeString(v, cur)
    case Json => Outcome(VJson(v), None)
    case Custom(parser, _) => env.custom(parser, v, cur)
    case Obj(initial, fields, strict) =>
      if !v.JObj? then Outcome(cur, Some(NotAnObject))
      else
        var r := RunFields(env, v, fields, if cur.VObj? then cur.slots else initial);
        var errors := FinalErrors(v, r, strict);
        Outcome(VObj(r.slots), if errors == [] then None else Some(Inner(errors[0])))
  }

  function Getting(env: Env, name: string, v: JValue, found: bool, s: Shape, cur: Value,
                   errors: seq<ParseError>): Context
    decreases s, 1
  {
    Got(name, v, found, cur, Decode(env, s, v, cur), errors)
  }

  /** The context a get function returns, before any modifier. */
  function FieldContext(env: Env, json: JValue, name: string, source: Source, cur: Value): (c: Context)
    ensures !c.optional && !c.allowNull
    decreases source
  {
    var v, found := Lookup(json, name), HasKey(json, name);
    match source
    case Plain(s) =>
      Getting(env, name, v, found, s, cur, [])
    case FromString(s) =>
      var inner := Finish(Got(name, v, found, VStr(""), DecodeString(v, VStr("")), []).(optional := true));
      var w := if inner.read && inner.dest.VStr? then env.document(inner.dest.text) else JNull;
      Getting(env, name, w, inner.read, s, cur, inner.errors)
    case Mapped(key, table) =>
      var inner := Finish(Getting(env, name, v, found, key, Zero(key), []).(optional := true));
      var i := FindKey(table, inner.dest);
      if inner.read && i < |table| then Context(name, table[i].1, true, false, false, false, inner.errors)
      else Note(Context(name, cur, false, false, false, false, inner.errors), inner.read, NotInMap)
    case Array(element) =>
      var inner := Finish(Got(name, v, found, VJson(JNull), Outcome(VJson(v), None), []).(optional := true));
      if !inner.read then Context(name, cur, false, false, false, false, inner.errors)
      else if !v.JArr? then Note(Context(name, cur, true, false, false, false, inner.errors), true, ArrayExpected)
      else
        var (items, errors) := Elements(env, name, element, v.items);
        Context(name, VArr(items), true, false, false, false, inner.errors + errors)
  }

  /** The first row of the table with the given key, or |table|. */
  function FindKey(table: seq<(Value, Value)>, key: Value): (r: nat)
    ensures r <= |table|
    ensures r < |table| ==> table[r].0 == key
    ensures forall j :: 0 <= j < r ==> table[j].0 != key
  {
    if table == [] || table[0].0 == key then 0 else 1 + FindKey(table[1..], key)
  }

  /** The loop of getArray: every element gets a slot, and a context without modifiers. */
  function Elements(env: Env, name: string, s: Shape, items: seq<JValue>): (r: (seq<Value>, seq<ParseError>))
    ensures |r.0| == |items|
    decreases s, 2, |items|
  {
    if items == [] then ([], [])
    else
      var (slots, errors) := Elements(env, name, s, Front(items));
      var c := Finish(Getting(env, name, Last(items), true, s, Zero(s), []));
      (slots + [c.dest], errors + c.errors)
  }

  lemma ElementsStep(env: Env, name: string, s: Shape, items: seq<JValue>, i: nat)
    requires i < |items|
    ensures var (c, before, after) := (Finish(Getting(env, name, items[i], true, s, Zero(s), [])),
                                       Elements(env, name, s, items[..i]), Elements(env, name, s, items[..i + 1]));
      after == (before.0 + [c.dest], before.1 + c.errors)
  {
    assert Front(items[..i + 1]) == items[..i] && Last(items[..i + 1]) == items[i];
  }

  function RunField(env: Env, json: JValue, f: Field, cur: Value): Context
    decreases f
  {
    match f
    case Field(name, _, source, chain) => Finish(Chain(FieldContext(env, json, name, source, cur), chain))
    case SubParser(name, _) => SubParsing(json, name)
  }

  /** getObject: a mandatory get, then a parser on the object, or on nothing and an error. Its slot is that document. */
  function SubParsing(json: JValue, name: string): Context {
    var v, found := Lookup(json, name), HasKey(json, name);
    var inner := Finish(Got(name, v, found, VJson(JNull), Outcome(VJson(v), None), []));
    Note(inner.(dest := VJson(SubDocument(json, name))), !v.JObj?, ObjectExpected)
  }

  function SubDocument(json: JValue, name: string): JValue {
    if Lookup(json, name).JObj? then Lookup(json, name) else JNull
  }

  /** The destinations, the recorded errors and the count of fields met, after a sequence of get expressions. */
  datatype Progress = Progress(slots: map<string, Value>, errors: seq<ParseError>, count: nat)

  function SlotOf(slots: map<string, Value>, slot: string): Value {
    if slot in slots then slots[slot] else VUndefined
  }

  function RunFields(env: Env, json: JValue, fields: seq<Field>, slots: map<string, Value>): Progress
    decreases fields
  {
    if fields == [] then Progress(slots, [], 0)
    else
      var p := RunFields(env, json, Front(fields), slots);
      var f := Last(fields);
      var c := RunField(env, json, f, SlotOf(p.slots, f.slot));
      Progress(p.slots[f.slot := c.dest], p.errors + c.errors, p.count + if HasKey(json, f.name) then 1 else 0)
  }

  lemma RunFieldsStep(env: Env, json: JValue, fields: seq<Field>, slots: map<string, Value>, i: nat)
    requires i < |fields|
    ensures var p := RunFields(env, json, fields[..i], slots);
      var c := RunField(env, json, fields[i], SlotOf(p.slots, fields[i].slot));
      RunFields(env, json, fields[..i + 1], slots) ==
      Progress(p.slots[fields[i].slot := c.dest], p.errors + c.errors,
               p.count + if HasKey(json, fields[i].name) then 1 else 0)
  {
    assert Front(fields[..i + 1]) == fields[..i] && Last(fields[..i + 1]) == fields[i];
  }

  function ObjectSize(json: JValue): nat {
    if json.JObj? then |json.members| else 0
  }

  /** All errors once finishParse has run. */
  function FinalErrors(json: JValue, p: Progress, strict: bool): seq<ParseError> {
    p.errors + if strict && p.count != ObjectSize(json) then [AtField("", ExtraFields)] else []
  }
}
