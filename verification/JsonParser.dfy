/**
 The fluent parser as objects: a parser with a sticky error and a field count, destinations written by
 reference, and the short-lived context on which modifiers are chained. Each method is proved to compute the
 corresponding function of JsonDecoding.
 */
module JsonParsers {
  import opened Common
  import opened JsonDecoding

  /** A destination variable. */
  class Cell {
    var value: Value

    constructor (value: Value)
      ensures this.value == value
    {
      this.value := value;
    }
  }

  /** The stored error after recording es on top of base: only the first is kept. */
  function Sticky(base: Option<ParseError>, es: seq<ParseError>): Option<ParseError> {
    if base.Some? then base else if es == [] then None else Some(es[0])
  }

  class JsonParser {
    const jsonValue: JValue
    var parseError: Option<ParseError>
    var numberOfFields: nat
    ghost var base: Option<ParseError>
    ghost var recorded: seq<ParseError>

    /** The stored error is the first one recorded since construction or since clearError. */
    ghost predicate Valid()
      reads this
    {
      parseError == Sticky(base, recorded)
    }

    constructor (json: JValue)
      ensures Valid() && jsonValue == json && numberOfFields == 0 && recorded == []
      ensures parseError == if json.JInvalid? then Some(MalformedJson) else None
    {
      jsonValue, numberOfFields, recorded := json, 0, [];
      parseError := if json.JInvalid? then Some(MalformedJson) else None;
      base := if json.JInvalid? then Some(MalformedJson) else None;
    }

    method RecordError(name: string, reason: Reason)
      requires Valid()
      modifies this`parseError, this`recorded
      ensures Valid()
      ensures recorded == old(recorded) + [AtField(name, reason)]
      ensures old(parseError).Some? ==> parseError == old(parseError)
    {
      if parseError.None? {
        parseError := Some(AtField(name, reason));
      }
      recorded := recorded + [AtField(name, reason)];
    }

    method ClearError()
      modifies this`parseError, this`base, this`recorded
      ensures Valid() && parseError.None? && recorded == []
    {
      parseError, base, recorded := None, None, [];
    }

    /** True iff no error is stored; in strict mode a field that was never met is an error. */
    method FinishParse(strict: bool) returns (ok: bool)
      requires Valid()
      modifies this`parseError, this`recorded
      ensures Valid()
      ensures recorded == old(recorded) +
              if strict && numberOfFields != ObjectSize(jsonValue) then [AtField("", ExtraFields)] else []
      ensures ok <==> parseError.None?
    {
      if strict && numberOfFields != ObjectSize(jsonValue) {
        RecordError("", ExtraFields);
      }
      ok := parseError.None?;
    }

    method FinishParseOrThrow(strict: bool) returns (thrown: Option<ParseError>)
      requires Valid()
      modifies this`parseError, this`recorded
      ensures Valid()
      ensures recorded == old(recorded) +
              if strict && numberOfFields != ObjectSize(jsonValue) then [AtField("", ExtraFields)] else []
      ensures thrown == parseError
    {
      var ok := FinishParse(strict);
      thrown := parseError;
    }

    /** getImpl; start marks where the errors of the whole get expression begin. */
    method GetImpl(env: Env, ghost start: nat, name: string, value: JValue, hasKey: bool, s: Shape, destination: Cell)
      returns (c: JsonParseContext)
      requires Valid() && start <= |recorded|
      modifies this`parseError, this`recorded, destination
      ensures fresh(c) && c.parser == this && c.destination == destination && c.start == start && c.Valid()
      ensures recorded[..start] == old(recorded[..start])
      ensures c.View() == Getting(env, name, value, hasKey, s, old(destination.value), old(recorded[start..]))
      decreases s.Obj?, s, 1
    {
      var isNull := hasKey && value.JNull?;
      if !hasKey || isNull {
        c := new JsonParseContext(this, start, name, destination, false, isNull);
        return;
      }
      var thrown := ParseValue(env, s, value, destination);
      c := Conclude(start, name, value, thrown, destination);
    }

    /** The end of the try block and the catch clause of getImpl, for a value that is not null. */
    method Conclude(ghost start: nat, name: string, value: JValue, thrown: Option<Reason>, destination: Cell)
      returns (c: JsonParseContext)
      requires Valid() && start <= |recorded| && !value.JNull?
      modifies this`parseError, this`recorded
      ensures fresh(c) && c.parser == this && c.destination == destination && c.start == start && c.Valid()
      ensures recorded[..start] == old(recorded[..start])
      ensures c.View() ==
              Got(name, value, true, destination.value, Outcome(destination.value, thrown), old(recorded[start..]))
    {
      if thrown.None? {
        c := new JsonParseContext(this, start, name, destination, true, false);
      } else {
        RecordError(name, thrown.value);
        assert recorded[start..] == old(recorded[start..]) + [AtField(name, thrown.value)];
        c := new JsonParseContext(this, start, name, destination, false, false);
      }
    }

    /** The end of a statement: the context is destroyed. view is what the context amounts to by then. */
    method EndStatement(c: JsonParseContext, ghost before: seq<ParseError>, ghost view: Context)
      requires c.For(this, c.destination, before) && c.View() == view
      modifies this`parseError, this`recorded
      ensures Valid()
      ensures c.destination.value == Finish(view).dest
      ensures recorded == before + Finish(view).errors && recorded[|before|..] == Finish(view).errors
    {
      c.FinishParse();
      assert recorded == recorded[..c.start] + recorded[c.start..];
    }

    method Get(env: Env, name: string, s: Shape, destination: Cell) returns (c: JsonParseContext)
      requires Valid()
      modifies this`parseError, this`recorded, this`numberOfFields, destination
      ensures fresh(c) && c.For(this, destination, old(recorded))
      ensures c.View() == FieldContext(env, jsonValue, name, Plain(s), old(destination.value))
      ensures numberOfFields == old(numberOfFields) + if HasKey(jsonValue, name) then 1 else 0
      decreases s.Obj?, s, 2
    {
      var hasKey := HasKey(jsonValue, name);
      var v := JNull;
      if hasKey {
        v := jsonValue.members[name];
        numberOfFields := numberOfFields + 1;
      }
      assert recorded[..|recorded|] == recorded;
      c := GetImpl(env, |recorded|, name, v, hasKey, s, destination);
    }

    /** The shared first statement of the other get functions: `get(name, x).optional().checkValueRead(read)`. */
    method ReadOptional(env: Env, name: string, s: Shape, destination: Cell) returns (read: bool)
      requires Valid()
      modifies this`parseError, this`recorded, this`numberOfFields, destination
      ensures Valid()
      ensures var inner :=
          Finish(FieldContext(env, jsonValue, name, Plain(s), old(destination.value)).(optional := true));
        && read == inner.read && destination.value == inner.dest
        && recorded == old(recorded) + inner.errors && recorded[|old(recorded)|..] == inner.errors
      ensures numberOfFields == old(numberOfFields) + if HasKey(jsonValue, name) then 1 else 0
      decreases s.Obj?, s, 3
    {
      var inner := Get(env, name, s, destination);
      inner.SetOptional(true);
      read := inner.valueRead;
      EndStatement(inner, old(recorded), inner.View());
    }

    method GetFromString(env: Env, name: string, s: Shape, destination: Cell) returns (c: JsonParseContext)
      requires Valid()
      modifies this`parseError, this`recorded, this`numberOfFields, destination
      ensures fresh(c) && c.For(this, destination, old(recorded))
      ensures c.View() == FieldContext(env, jsonValue, name, FromString(s), old(destination.value))
      ensures numberOfFields == old(numberOfFields) + if HasKey(jsonValue, name) then 1 else 0
      decreases true, s, 4
    {
      ghost var start := |recorded|;
      var valueSet, value := ReadText(env, name);
      c := GetImpl(env, start, name, value, valueSet, s, destination);
    }

    /** The first half of getFromString: read the string and parse it as a document of its own. */
    method ReadText(env: Env, name: string) returns (valueSet: bool, value: JValue)
      requires Valid()
      modifies this`parseError, this`recorded, this`numberOfFields
      ensures Valid()
      ensures var (v, found) := (Lookup(jsonValue, name), HasKey(jsonValue, name));
        var inner := Finish(Got(name, v, found, VStr(""), DecodeString(v, VStr("")), []).(optional := true));
        && valueSet == inner.read
        && value == (if inner.read && inner.dest.VStr? then env.document(inner.dest.text) else JNull)
        && recorded == old(recorded) + inner.errors && recorded[|old(recorded)|..] == inner.errors
      ensures numberOfFields == old(numberOfFields) + if HasKey(jsonValue, name) then 1 else 0
      decreases false, Str, 4
    {
      var stringValue := new Cell(VStr(""));
      valueSet := ReadOptional(env, name, Str, stringValue);
      value := JNull;
      if valueSet && stringValue.value.VStr? {
        value := env.document(stringValue.value.text);
      }
    }

    /** The search loop of getAndMap. */
    static method FindRow(table: seq<(Value, Value)>, key: Value) returns (i: nat)
      ensures i == FindKey(table, key)
    {
      i := 0;
      while i < |table| && table[i].0 != key
        invariant i <= |table|
        invariant forall j :: 0 <= j < i ==> table[j].0 != key
      {
        i := i + 1;
      }
    }

    method GetAndMap(env: Env, name: string, key: Shape, table: seq<(Value, Value)>, destination: Cell)
      returns (c: JsonParseContext)
      requires Valid()
      modifies this`parseError, this`recorded, this`numberOfFields, destination
      ensures fresh(c) && c.For(this, destination, old(recorded))
      ensures c.View() == FieldContext(env, jsonValue, name, Mapped(key, table), old(destination.value))
      ensures numberOfFields == old(numberOfFields) + if HasKey(jsonValue, name) then 1 else 0
      decreases true, key, 4
    {
      ghost var start := |recorded|;
      var intermediateValue := new Cell(Zero(key));
      var valueRead := ReadOptional(env, name, key, intermediateValue);

      var found := false;
      if valueRead {
        var i := FindRow(table, intermediateValue.value);
        if i < |table| {
          found := true;
          destination.value := table[i].1;
        } else {
          RecordError(name, NotInMap);
        }
      }
      c := new JsonParseContext(this, start, name, destination, valueRead && found, false);
    }

    method GetArray(env: Env, name: string, element: Shape, destination: Cell) returns (c: JsonParseContext)
      requires Valid()
      modifies this`parseError, this`recorded, this`numberOfFields, destination
      ensures fresh(c) && c.For(this, destination, old(recorded))
      ensures c.View() == FieldContext(env, jsonValue, name, Array(element), old(destination.value))
      ensures numberOfFields == old(numberOfFields) + if HasKey(jsonValue, name) then 1 else 0
      decreases true, element, 4
    {
      ghost var start := |recorded|;
      var valueRead, v := ReadArrayValue(env, name);
      if valueRead {
        if !v.JArr? {
          RecordError(name, ArrayExpected);
          assert recorded[start..] == [AtField(name, ArrayExpected)];
          c := new JsonParseContext(this, start, name, destination, valueRead, false);
          return;
        }
        ReadElements(env, name, element, v.items, destination);
        assert recorded[start..] == Elements(env, name, element, v.items).1;
      }
      c := new JsonParseContext(this, start, name, destination, valueRead, false);
    }

    /** The first statement of getArray: `get(name, array).optional().checkValueRead(valueRead)`. */
    method ReadArrayValue(env: Env, name: string) returns (valueRead: bool, value: JValue)
      requires Valid()
      modifies this`parseError, this`recorded, this`numberOfFields
      ensures Valid()
      ensures var (v, found) := (Lookup(jsonValue, name), HasKey(jsonValue, name));
        var inner := Finish(Got(name, v, found, VJson(JNull), Outcome(VJson(v), None), []).(optional := true));
        && valueRead == inner.read && value == v
        && (valueRead ==> inner.errors == [])
        && recorded == old(recorded) + inner.errors && recorded[|old(recorded)|..] == inner.errors
      ensures numberOfFields == old(numberOfFields) + if HasKey(jsonValue, name) then 1 else 0
      decreases false, Json, 4
    {
      var cell := new Cell(VJson(JNull));
      valueRead := ReadOptional(env, name, Json, cell);
      value := if cell.value.VJson? then cell.value.json else JNull;
    }

    /** One element: a default-constructed slot at the end, a context without modifiers. */
    method ReadElement(env: Env, name: string, s: Shape, item: JValue, destination: Cell)
      requires Valid() && destination.value.VArr?
      modifies this`parseError, this`recorded, destination
      ensures Valid()
      ensures var c := Finish(Getting(env, name, item, true, s, Zero(s), []));
        destination.value == VArr(old(destination.value.items) + [c.dest]) && recorded == old(recorded) + c.errors
      decreases s.Obj?, s, 2
    {
      var cell := new Cell(Zero(s));
      assert recorded[|recorded|..] == [] && recorded[..|recorded|] == recorded;
      var c := GetImpl(env, |recorded|, name, item, true, s, cell);
      EndStatement(c, old(recorded), c.View());
      destination.value := VArr(destination.value.items + [cell.value]);
    }

    /** The element loop of getArray: clear, then grow by one slot and parse into it. */
    method ReadElements(env: Env, name: string, s: Shape, items: seq<JValue>, destination: Cell)
      requires Valid()
      modifies this`parseError, this`recorded, destination
      ensures Valid()
      ensures destination.value == VArr(Elements(env, name, s, items).0)
      ensures recorded == old(recorded) + Elements(env, name, s, items).1
      decreases true, s, 3
    {
      destination.value := VArr([]);
      var i := 0;
      assert items[..0] == [];
      while i < |items|
        invariant i <= |items| && Valid()
        invariant ElementsRead(env, name, s, items[..i], destination.value, old(recorded), recorded)
      {
        ghost var value, now := destination.value, recorded;
        ReadElement(env, name, s, items[i], destination);
        ElementsReadStep(env, name, s, items, i, value, old(recorded), now, destination.value, recorded);
        i := i + 1;
      }
      assert items[..i] == items;
    }

    /** The loop after these items: the slots of the destination, and the errors recorded since before. */
    static ghost predicate ElementsRead(env: Env, name: string, s: Shape, items: seq<JValue>, value: Value,
                                        before: seq<ParseError>, now: seq<ParseError>) {
      value == VArr(Elements(env, name, s, items).0) && now == before + Elements(env, name, s, items).1
    }

    static lemma ElementsReadStep(env: Env, name: string, s: Shape, items: seq<JValue>, i: nat, value: Value,
                                  before: seq<ParseError>, now: seq<ParseError>, value': Value, now': seq<ParseError>)
      requires i < |items| && ElementsRead(env, name, s, items[..i], value, before, now)
      requires var c := Finish(Getting(env, name, items[i], true, s, Zero(s), []));
        value' == VArr(value.items + [c.dest]) && now' == now + c.errors
      ensures ElementsRead(env, name, s, items[..i + 1], value', before, now')
    {
      ElementsStep(env, name, s, items, i);
    }

    /** The statement `get(name, obj)` on a document, without modifiers. */
    method GetDocument(env: Env, name: string, obj: Cell)
      requires Valid() && obj.value == VJson(JNull)
      modifies this`parseError, this`recorded, this`numberOfFields, obj
      ensures Valid()
      ensures var v := Lookup(jsonValue, name);
        var inner := Finish(Got(name, v, HasKey(jsonValue, name), VJson(JNull), Outcome(VJson(v), None), []));
        obj.value == inner.dest && recorded == old(recorded) + inner.errors
      ensures numberOfFields == old(numberOfFields) + if HasKey(jsonValue, name) then 1 else 0
      decreases false, Json, 3
    {
      var c := Get(env, name, Json, obj);
      EndStatement(c, old(recorded), c.View());
    }

    /** A parser for a sub-object; on failure the error goes to this parser and the sub-parser is empty. */
    method GetObject(env: Env, name: string) returns (sub: JsonParser)
      requires Valid()
      modifies this`parseError, this`recorded, this`numberOfFields
      ensures Valid() && fresh(sub) && sub.Valid() && sub.recorded == [] && sub.numberOfFields == 0
      ensures sub.jsonValue == SubDocument(jsonValue, name)
      ensures recorded == old(recorded) + SubParsing(jsonValue, name).errors
      ensures numberOfFields == old(numberOfFields) + if HasKey(jsonValue, name) then 1 else 0
      decreases false, Json, 4
    {
      var obj := new Cell(VJson(JNull));
      GetDocument(env, name, obj);
      var v := if obj.value.VJson? then obj.value.json else JNull;
      if !v.JObj? {
        RecordError(name, ObjectExpected);
        sub := new JsonParser(JNull);
      } else {
        sub := new JsonParser(v);
      }
    }

    /** The get function a client statement names. */
    method GetField(env: Env, name: string, source: Source, destination: Cell) returns (c: JsonParseContext)
      requires Valid()
      modifies this`parseError, this`recorded, this`numberOfFields, destination
      ensures fresh(c) && c.For(this, destination, old(recorded))
      ensures c.View() == FieldContext(env, jsonValue, name, source, old(destination.value))
      ensures numberOfFields == old(numberOfFields) + if HasKey(jsonValue, name) then 1 else 0
      decreases true, source, 0
    {
      match source {
        case Plain(s) => c := Get(env, name, s, destination);
        case FromString(s) => c := GetFromString(env, name, s, destination);
        case Mapped(key, table) => c := GetAndMap(env, name, key, table, destination);
        case Array(element) => c := GetArray(env, name, element, destination);
      }
    }

    /** One client statement: the get function, the chain, the end of the expression; or getObject. */
    method RunExpression(env: Env, f: Field, destination: Cell)
      requires Valid()
      modifies this`parseError, this`recorded, this`numberOfFields, destination
      ensures Valid()
      ensures destination.value == RunField(env, jsonValue, f, old(destination.value)).dest
      ensures recorded == old(recorded) + RunField(env, jsonValue, f, old(destination.value)).errors
      ensures numberOfFields == old(numberOfFields) + if HasKey(jsonValue, f.name) then 1 else 0
      decreases true, f, 0
    {
      match f
      case Field(name, _, source, chain) =>
        var c := GetField(env, name, source, destination);
        c.ApplyAll(chain);
        EndStatement(c, old(recorded), c.View());
      case SubParser(name, _) =>
        var sub := GetObject(env, name);
        destination.value := VJson(sub.jsonValue);
    }

    /** A client's statements, one after the other, on a parser just constructed. */
    method RunRequests(env: Env, fields: seq<Field>, start: map<string, Value>) returns (slots: map<string, Value>)
      requires Valid() && recorded == [] && numberOfFields == 0
      modifies this`parseError, this`recorded, this`numberOfFields
      ensures Valid()
      ensures Progress(slots, recorded, numberOfFields) == RunFields(env, jsonValue, fields, start)
      decreases true, fields, 0
    {
      slots := start;
      var i := 0;
      assert fields[..0] == [];
      while i < |fields|
        invariant i <= |fields| && Valid()
        invariant Progress(slots, recorded, numberOfFields) == RunFields(env, jsonValue, fields[..i], start)
      {
        RunFieldsStep(env, jsonValue, fields, start, i);
        var member := new Cell(SlotOf(slots, fields[i].slot));
        RunExpression(env, fields[i], member);
        slots := slots[fields[i].slot := member.value];
        i := i + 1;
      }
      assert fields[..i] == fields;
    }

    /** parseValueOrDataObject: writes the destination, returns the exception. */
    static method ParseValue(env: Env, s: Shape, value: JValue, destination: Cell) returns (thrown: Option<Reason>)
      modifies destination
      ensures Outcome(destination.value, thrown) == Decode(env, s, value, old(destination.value))
      decreases s.Obj?, s, 0
    {
      match s
      case U8 => thrown := ParseNarrow(env, value, 0, 0xff, I32_MIN, I32_MAX, destination);
      case I8 => thrown := ParseNarrow(env, value, -0x80, 0x7f, I32_MIN, I32_MAX, destination);
      case U16 => thrown := ParseNarrow(env, value, 0, 0xffff, I32_MIN, I32_MAX, destination);
      case I16 => thrown := ParseNarrow(env, value, -0x8000, 0x7fff, I32_MIN, I32_MAX, destination);
      case I32 => thrown := ParseDirect(env, value, I32_MIN, I32_MAX, destination);
      case U32 => thrown := ParseNarrow(env, value, 0, 0xffff_ffff, I64_MIN, I64_MAX, destination);
      case I64 => thrown := ParseDirect(env, value, I64_MIN, I64_MAX, destination);
      case U64 => thrown := ParseU64(env, value, destination);
      case Dbl => thrown := ParseDouble(env, value, destination);
      case Bool =>
        if !value.JBool? {
          return Some(NotABoolean);
        }
        destination.value := VBool(value.truth);
        thrown := None;
      case Str =>
        if !value.JStr? {
          return Some(NotAString);
        }
        destination.value := VStr(value.text);
        thrown := None;
      case Json =>
        destination.value := VJson(value);
        thrown := None;
      case Custom(parser, _) =>
        var o := env.custom(parser, value, destination.value);
        destination.value := o.dest;
        thrown := o.thrown;
      case Obj(initial, fields, strict) =>
        if !value.JObj? {
          return Some(NotAnObject);
        }
        thrown := ParseObject(env, value, initial, fields, strict, destination);
    }

    /** parseValue for the small and 32-bit unsigned types: flags gather in a local, the destination is written last. */
    static method ParseNarrow(env: Env, value: JValue, lo: int, hi: int, wideLo: int, wideHi: int, destination: Cell)
      returns (thrown: Option<Reason>)
      modifies destination
      ensures Outcome(destination.value, thrown) ==
          DecodeNarrow(env, value, lo, hi, wideLo, wideHi, old(destination.value))
    {
      var source := Numeric(env, value);
      if source.None? {
        return Some(NotANumber);
      }
      var (f, val) := ConvertInt(source.value, wideLo, wideHi);
      if val < lo {
        f := f.(overflow := true);
      } else if val > hi {
        f := f.(overflow := true);
      }
      thrown := Thrown(f);
      if thrown.None? {
        destination.value := VInt(val);
      }
    }

    /** parseValue for int32_t and int64_t: the conversion writes the destination before the flags are looked at. */
    static method ParseDirect(env: Env, value: JValue, lo: int, hi: int, destination: Cell)
        returns (thrown: Option<Reason>)
      modifies destination
      ensures Outcome(destination.value, thrown) == DecodeDirect(env, value, lo, hi, old(destination.value))
    {
      var source := Numeric(env, value);
      if source.None? {
        return Some(NotANumber);
      }
      var (f, val) := ConvertInt(source.value, lo, hi);
      destination.value := VInt(val);
      thrown := Thrown(f);
    }

    static method ParseU64(env: Env, value: JValue, destination: Cell) returns (thrown: Option<Reason>)
      modifies destination
      ensures Outcome(destination.value, thrown) == DecodeU64(env, value, old(destination.value))
    {
      var source := Numeric(env, value);
      if source.None? {
        return Some(NotANumber);
      }
      var f := Flags(source.value.Some? && env.beyond(source.value.value), source.value.None?, false);
      var val := if source.value.None? then 0.0 else env.rounded(source.value.value);
      var intVal := 0;
      if val < 0.0 {
        f := f.(overflow := true);
      } else if val > TWO_TO_64 as real {
        f := f.(overflow := true);
      } else {
        intVal := val.Floor;
        if intVal as real != val {
          f := f.(precisionLoss := true);
        }
      }
      thrown := Thrown(f);
      if thrown.None? {
        destination.value := if intVal < TWO_TO_64 then VInt(intVal) else VUndefined;
      }
    }

    static method ParseDouble(env: Env, value: JValue, destination: Cell) returns (thrown: Option<Reason>)
      modifies destination
      ensures Outcome(destination.value, thrown) == DecodeDouble(env, value, old(destination.value))
    {
      var source := Numeric(env, value);
      if source.None? {
        return Some(NotANumber);
      }
      destination.value := VReal(if source.value.None? then 0.0 else env.rounded(source.value.value));
      thrown := Thrown(Flags(source.value.Some? && env.beyond(source.value.value), source.value.None?, false));
    }

    /** A parseFromJson that gets its fields and ends in finishParseOrThrow. */
    static method ParseObject(env: Env, value: JValue, initial: map<string, Value>, fields: seq<Field>, strict: bool,
                              destination: Cell)
      returns (thrown: Option<Reason>)
      requires value.JObj?
      modifies destination
      ensures var start := if old(destination.value).VObj? then old(destination.value).slots else initial;
        var r := RunFields(env, value, fields, start);
        var errors := FinalErrors(value, r, strict);
        destination.value == VObj(r.slots) && thrown == if errors == [] then None else Some(Inner(errors[0]))
      decreases true, fields, 1
    {
      var p := new JsonParser(value);
      var slots := p.RunRequests(env, fields, if destination.value.VObj? then destination.value.slots else initial);
      destination.value := VObj(slots);
      var e := p.FinishParseOrThrow(strict);
      thrown := if e.None? then None else Some(Inner(e.value));
    }
  }

  class JsonParseContext {
    const parser: JsonParser
    const fieldName: string
    const destination: Cell
    var valueRead: bool
    var valueNull: bool
    var optional: bool
    var allowNull: bool
    ghost const start: nat

    ghost predicate Valid()
      reads this, parser
    {
      start <= |parser.recorded| && parser.Valid()
    }

    /** This context belongs to a get expression on p that began when p had recorded before. */
    ghost predicate For(p: JsonParser, d: Cell, before: seq<ParseError>)
      reads this, parser
    {
      && Valid() && parser == p && destination == d && start == |before|
      && parser.recorded[..start] == before
    }

    ghost function View(): Context
      requires Valid()
      reads this, parser, destination
    {
      Context(fieldName, destination.value, valueRead, valueNull, optional, allowNull, parser.recorded[start..])
    }

    constructor (parser: JsonParser, ghost start: nat, fieldName: string, destination: Cell, valueRead: bool,
                 valueNull: bool)
      requires start <= |parser.recorded| && parser.Valid()
      ensures this.parser == parser && this.start == start && this.destination == destination && Valid()
      ensures View() == Context(fieldName, destination.value, valueRead, valueNull, false, false,
                                parser.recorded[start..])
    {
      this.parser, this.start, this.fieldName, this.destination := parser, start, fieldName, destination;
      this.valueRead, this.valueNull, this.optional, this.allowNull := valueRead, valueNull, false, false;
    }

    method SetOptional(isOptional: bool)
      requires Valid()
      modifies this`optional
      ensures Valid() && View() == Apply(old(View()), Optional(isOptional))
    {
      optional := isOptional;
    }

    method SetAllowNull(on: bool)
      requires Valid()
      modifies this`allowNull
      ensures Valid() && View() == Apply(old(View()), AllowNull(on))
    {
      allowNull := on;
    }

    method SetDefault(value: Value)
      requires Valid()
      modifies destination
      ensures Valid() && View() == Apply(old(View()), DefaultValue(value))
    {
      if !valueRead {
        destination.value := value;
      }
    }

    method Record(reason: Reason)
      requires Valid()
      modifies parser`parseError, parser`recorded
      ensures Valid() && View() == Note(old(View()), true, reason)
      ensures parser.recorded[..start] == old(parser.recorded[..start])
    {
      parser.RecordError(fieldName, reason);
      assert parser.recorded[start..] == old(parser.recorded[start..]) + [AtField(fieldName, reason)];
    }

    method CheckMin(value: Value)
      requires Valid()
      modifies parser`parseError, parser`recorded
      ensures Valid() && View() == Apply(old(View()), Min(value))
      ensures parser.recorded[..start] == old(parser.recorded[..start])
    {
      if valueRead && Less(destination.value, value) {
        Record(BelowMinimum);
      }
    }

    method CheckMax(value: Value)
      requires Valid()
      modifies parser`parseError, parser`recorded
      ensures Valid() && View() == Apply(old(View()), Max(value))
      ensures parser.recorded[..start] == old(parser.recorded[..start])
    {
      if valueRead && Less(value, destination.value) {
        Record(AboveMaximum);
      }
    }

    method CheckAllowed(values: seq<Value>)
      requires Valid()
      modifies parser`parseError, parser`recorded
      ensures Valid() && View() == Apply(old(View()), AllowedValues(values))
      ensures parser.recorded[..start] == old(parser.recorded[..start])
    {
      if valueRead {
        var i := 0;
        while i < |values|
          invariant i <= |values|
          invariant destination.value !in values[..i]
        {
          if values[i] == destination.value {
            return;
          }
          i := i + 1;
        }
        Record(NotInList);
      }
    }

    /** The whole chain, left to right. */
    method ApplyAll(ms: seq<Modifier>)
      requires Valid()
      modifies this`optional, this`allowNull, destination, parser`parseError, parser`recorded
      ensures Valid() && View() == Chain(old(View()), ms)
      ensures parser.recorded[..start] == old(parser.recorded[..start])
    {
      var i := 0;
      assert ms[..0] == [];
      while i < |ms|
        invariant i <= |ms|
        invariant Valid() && View() == Chain(old(View()), ms[..i])
        invariant parser.recorded[..start] == old(parser.recorded[..start])
      {
        assert Front(ms[..i + 1]) == ms[..i] && Last(ms[..i + 1]) == ms[i];
        match ms[i] {
          case Optional(on) => SetOptional(on);
          case AllowNull(on) => SetAllowNull(on);
          case DefaultValue(v) => SetDefault(v);
          case Min(v) => CheckMin(v);
          case Max(v) => CheckMax(v);
          case AllowedValues(vs) => CheckAllowed(vs);
        }
        i := i + 1;
      }
      assert ms[..i] == ms;
    }

    /** The destructor. */
    method FinishParse()
      requires Valid()
      modifies parser`parseError, parser`recorded
      ensures Valid() && View() == Finish(old(View()))
      ensures parser.recorded[..start] == old(parser.recorded[..start])
    {
      if !valueRead {
        if !optional {
          Record(Mandatory);
        } else if valueNull && !allowNull {
          Record(NullNotAllowed);
        }
      }
    }
  }
}
