/**
 What a document means for a set of fields, stated without running the parser: which destination contents a
 value denotes, when a field is acceptable, and when a whole object is.
 */
module JsonSpec {
  import opened Common
  import opened JsonDecoding

  // ---------------------------------------------------------------- documents and values

  predicate Present(json: JValue, name: string) {
    json.JObj? && name in json.members
  }

  /** A destination before anything is read. */
  function ContentOf(start: map<string, Value>, slot: string): Value {
    if slot in start then start[slot] else VUndefined
  }

  /** What v is as a number: numbers, and text read as a numeral, which may fail; nothing else is one. */
  function NumberOf(env: Env, v: JValue): Option<Option<real>> {
    if v.JNum? then Some(Some(v.number)) else if v.JStr? then Some(env.numeral(v.text)) else None
  }

  /** The content of a default-constructed destination. */
  function Default(s: Shape): Value {
    match s
    case Dbl => VReal(0.0)
    case Bool => VBool(false)
    case Str => VStr("")
    case Json => VJson(JNull)
    case Obj(initial, _, _) => VObj(initial)
    case Custom(_, initialValue) => initialValue
    case U8 => VInt(0)
    case I8 => VInt(0)
    case U16 => VInt(0)
    case I16 => VInt(0)
    case U32 => VInt(0)
    case I32 => VInt(0)
    case U64 => VInt(0)
    case I64 => VInt(0)
  }

  /** a is less than b as text: they differ first at i, or a ends there. */
  ghost predicate TextBelowAt(a: string, b: string, i: int) {
    0 <= i < |b| && i <= |a| && a[..i] == b[..i] && (i == |a| || a[i] < b[i])
  }

  ghost predicate TextBelow(a: string, b: string) {
    exists i :: TextBelowAt(a, b, i)
  }

  /** a is less than b or, with less == false, greater. Vectors compare at the first items that are not equivalent. */
  ghost predicate Compares(a: Value, b: Value, less: bool)
    decreases a
  {
    match (a, b)
    case (VBool(x), VBool(y)) => if less then !x && y else x && !y
    case (VInt(m), VInt(n)) => if less then m < n else m > n
    case (VReal(x), VReal(y)) => if less then x < y else x > y
    case (VStr(x), VStr(y)) => if less then TextBelow(x, y) else TextBelow(y, x)
    case (VArr(xs), VArr(ys)) =>
      ItemsCompare(xs, ys, less)
    case _ => false
  }

  ghost predicate ItemsCompare(xs: seq<Value>, ys: seq<Value>, less: bool)
    decreases xs
  {
    if xs == [] || ys == [] then (if less then xs == [] && ys != [] else xs != [] && ys == [])
    else if Compares(xs[0], ys[0], true) || Compares(xs[0], ys[0], false) then Compares(xs[0], ys[0], less)
    else ItemsCompare(xs[1..], ys[1..], less)
  }

  ghost predicate Below(a: Value, b: Value) {
    Compares(a, b, true)
  }

  // ---------------------------------------------------------------- modifiers

  /** The last optional() of the chain says true. */
  ghost predicate IsOptional(ms: seq<Modifier>) {
    exists i :: 0 <= i < |ms| && ms[i] == Optional(true) && forall j :: i < j < |ms| ==> !ms[j].Optional?
  }

  ghost predicate AllowsNull(ms: seq<Modifier>) {
    exists i :: 0 <= i < |ms| && ms[i] == AllowNull(true) && forall j :: i < j < |ms| ==> !ms[j].AllowNull?
  }

  /** What an unread destination holds: the last default, or what it held before. */
  ghost predicate Defaulted(ms: seq<Modifier>, cur: Value, d: Value) {
    || (d == cur && forall i :: 0 <= i < |ms| ==> !ms[i].DefaultValue?)
    || exists i :: LastDefault(ms, i, d)
  }

  ghost predicate LastDefault(ms: seq<Modifier>, i: int, d: Value) {
    0 <= i < |ms| && ms[i] == DefaultValue(d) && forall j :: i < j < |ms| ==> !ms[j].DefaultValue?
  }

  ghost predicate Passes(m: Modifier, d: Value) {
    match m
    case Min(v) => !Below(d, v)
    case Max(v) => !Below(v, d)
    case AllowedValues(vs) => d in vs
    case _ => true
  }

  /** What is reported when a check fails. */
  function CheckReason(m: Modifier): Reason {
    match m
    case Min(_) => BelowMinimum
    case Max(_) => AboveMaximum
    case _ => NotInList
  }

  /** Every bound and every list of the chain admits d. */
  ghost predicate Admitted(ms: seq<Modifier>, d: Value) {
    forall i :: 0 <= i < |ms| ==> Passes(ms[i], d)
  }

  // ---------------------------------------------------------------- meaning

  /** The first row for key k maps to d. */
  ghost predicate MapsTo(table: seq<(Value, Value)>, k: Value, d: Value) {
    exists i :: 0 <= i < |table| && table[i] == (k, d) && forall j :: 0 <= j < i ==> table[j].0 != k
  }

  /** v is the integer d within the bounds, as a number or as text. */
  ghost predicate IntegerIn(env: Env, v: JValue, lo: int, hi: int, d: Value) {
    d.VInt? && lo <= d.n <= hi && NumberOf(env, v) == Some(Some(d.n as real))
  }

  /** r rounds to the integer n, from 0 to 2^64; d is that integer, or undefined at 2^64. */
  ghost predicate RoundsTo(env: Env, r: real, n: int, d: Value) {
    && env.rounded(r) == n as real
    && 0 <= n <= 0x1_0000_0000_0000_0000
    && d == if n == 0x1_0000_0000_0000_0000 then VUndefined else VInt(n)
  }

  ghost predicate RoundedUnsigned(env: Env, v: JValue, d: Value) {
    match NumberOf(env, v)
    case Some(Some(r)) => !env.beyond(r) && exists n :: RoundsTo(env, r, n, d)
    case _ => false
  }

  /** v decodes as shape s, turning a destination holding cur into d. */
  ghost predicate Denotes(env: Env, s: Shape, v: JValue, cur: Value, d: Value)
    decreases s, 0
  {
    match s
    case U8 => IntegerIn(env, v, 0, 255, d)
    case I8 => IntegerIn(env, v, -128, 127, d)
    case U16 => IntegerIn(env, v, 0, 65535, d)
    case I16 => IntegerIn(env, v, -32768, 32767, d)
    case I32 => IntegerIn(env, v, -2147483648, 2147483647, d)
    case U32 => IntegerIn(env, v, 0, 4294967295, d)
    case I64 => IntegerIn(env, v, -9223372036854775808, 9223372036854775807, d)
    case U64 => RoundedUnsigned(env, v, d)
    case Dbl =>
      && NumberOf(env, v).Some? && NumberOf(env, v).value.Some? && !env.beyond(NumberOf(env, v).value.value)
      && d == VReal(env.rounded(NumberOf(env, v).value.value))
    case Bool => v.JBool? && d == VBool(v.truth)
    case Str => v.JStr? && d == VStr(v.text)
    case Json => d == VJson(v)
    case Custom(parser, _) => env.custom(parser, v, cur) == Outcome(d, None)
    case Obj(initial, fields, strict) =>
      && v.JObj? && d.VObj?
      && FieldsDenote(env, v, fields, if cur.VObj? then cur.slots else initial, d.slots)
      && (strict ==> StrictlyRead(v, fields))
  }

  /** Every field is acceptable, and turns its destination from what it holds in start into what it holds in slots. */
  ghost predicate FieldsDenote(env: Env, json: JValue, fields: seq<Field>, start: map<string, Value>,
                               slots: map<string, Value>)
    decreases fields
  {
    && OthersKept(fields, start, slots)
    && forall i :: 0 <= i < |fields| ==>
         && fields[i].slot in slots
         && FieldDenotes(env, json, fields[i], ContentOf(start, fields[i].slot), slots[fields[i].slot])
  }

  /** Destinations no field writes are as before. */
  ghost predicate OthersKept(fields: seq<Field>, start: map<string, Value>, slots: map<string, Value>) {
    && (forall k :: k in slots.Keys <==> k in start.Keys || exists i :: 0 <= i < |fields| && fields[i].slot == k)
    && (forall k :: k in start.Keys && (forall i :: 0 <= i < |fields| ==> fields[i].slot != k) ==> slots[k] == start[k])
  }

  /** The keys of the object that some request names. */
  ghost function Read(json: JValue, fields: seq<Field>): set<string> {
    set i | 0 <= i < |fields| && Present(json, fields[i].name) :: fields[i].name
  }

  /** The keys nobody requests. */
  ghost function Unread(json: JValue, fields: seq<Field>): set<string> {
    if json.JObj? then json.members.Keys - Read(json, fields) else {}
  }

  /** The requests for a key that an earlier request has already named. */
  ghost function Repeats(json: JValue, fields: seq<Field>): set<nat> {
    set i: nat | i < |fields| && RepeatsAt(json, fields, i)
  }

  ghost predicate RepeatsAt(json: JValue, fields: seq<Field>, i: nat)
    requires i < |fields|
  {
    Present(json, fields[i].name) && exists j :: 0 <= j < i && fields[j].name == fields[i].name
  }

  /** Every key of the object is requested. */
  ghost predicate Covered(json: JValue, fields: seq<Field>) {
    json.JObj? ==> forall k :: k in json.members ==> exists i :: 0 <= i < |fields| && fields[i].name == k
  }

  /** What strict mode asks for: as many repeated requests as unread keys. Without repeats, that is coverage. */
  ghost predicate StrictlyRead(json: JValue, fields: seq<Field>) {
    |Unread(json, fields)| == |Repeats(json, fields)|
  }

  /** No key of the object is requested twice; names it does not have may be. */
  ghost predicate ReadOnce(json: JValue, fields: seq<Field>) {
    forall i, j :: 0 <= i < j < |fields| && Present(json, fields[i].name) ==> fields[i].name != fields[j].name
  }

  /** The field is acceptable in json, and turns a destination holding cur into d. */
  ghost predicate FieldDenotes(env: Env, json: JValue, f: Field, cur: Value, d: Value)
    decreases f
  {
    match f
    case Field(name, _, source, chain) =>
      if !Present(json, name) then IsOptional(chain) && Defaulted(chain, cur, d)
      else SourceDenotes(env, json.members[name], source, chain, cur, d)
    case SubParser(name, _) =>
      Present(json, name) && json.members[name].JObj? && d == VJson(json.members[name])
  }

  /** A present value v is acceptable to the source and its chain. Only get and getFromString can allow null. */
  ghost predicate SourceDenotes(env: Env, v: JValue, source: Source, ms: seq<Modifier>, cur: Value, d: Value)
    decreases source
  {
    match source
    case Plain(s) =>
      if v.JNull? then IsOptional(ms) && AllowsNull(ms) && Defaulted(ms, cur, d)
      else Denotes(env, s, v, cur, d) && Admitted(ms, d)
    case FromString(s) =>
      v.JStr? &&
      if env.document(v.text).JNull? then IsOptional(ms) && AllowsNull(ms) && Defaulted(ms, cur, d)
      else Denotes(env, s, env.document(v.text), cur, d) && Admitted(ms, d)
    case Mapped(key, table) =>
      && !v.JNull?
      && (exists k :: Denotes(env, key, v, Default(key), k) && MapsTo(table, k, d))
      && Admitted(ms, d)
    case Array(element) =>
      && v.JArr? && d.VArr? && |d.items| == |v.items|
      && (forall i :: 0 <= i < |v.items| ==>
            !v.items[i].JNull? && Denotes(env, element, v.items[i], Default(element), d.items[i]))
      && Admitted(ms, d)
  }

  // ---------------------------------------------------------------- well-formed field lists

  /** Distinct destinations, recursively. */
  ghost predicate WellFormed(s: Shape)
    decreases s, 0
  {
    s.Obj? ==> WellFormedFields(s.fields)
  }

  ghost predicate WellFormedFields(fields: seq<Field>)
    decreases fields
  {
    Distinct(fields) && forall i :: 0 <= i < |fields| ==> WellFormedField(fields[i])
  }

  ghost predicate WellFormedField(f: Field)
    decreases f
  {
    f.Field? ==> WellFormedSource(f.source)
  }

  ghost predicate WellFormedSource(source: Source)
    decreases source
  {
    match source
    case Plain(s) => WellFormed(s)
    case FromString(s) => WellFormed(s)
    case Array(s) => WellFormed(s)
    case Mapped(s, _) => WellFormed(s)
  }

  ghost predicate Distinct(fields: seq<Field>) {
    forall i, j :: 0 <= i < j < |fields| ==> fields[i].slot != fields[j].slot
  }
}
