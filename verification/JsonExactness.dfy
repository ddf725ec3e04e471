/**
 The main results about the parser: soundness and completeness of field lists against the specification,
 through nested objects and arrays; strict mode as coverage; arrays element by element; order of modifiers.
 */
module JsonExactness {
  import opened Common
  import opened JsonDecoding
  import opened JsonSpec
  import opened JsonProofs

  // ---------------------------------------------------------------- sequences of get expressions

  /** A get expression run on its own, against the initial destinations. */
  function Solo(env: Env, json: JValue, start: map<string, Value>): Field -> Context {
    (f: Field) => RunField(env, json, f, SlotOf(start, f.slot))
  }

  /** A sequence of get expressions, each given by its effect on its own destination. */
  function Folded(json: JValue, fields: seq<Field>, start: map<string, Value>,
                  run: (Field, Value) -> Context): Progress {
    if fields == [] then Progress(start, [], 0)
    else
      var p, f := Folded(json, Front(fields), start, run), Last(fields);
      var c := run(f, SlotOf(p.slots, f.slot));
      Progress(p.slots[f.slot := c.dest], p.errors + c.errors, p.count + if HasKey(json, f.name) then 1 else 0)
  }

  function Runner(env: Env, json: JValue): (Field, Value) -> Context {
    (f, cur) => RunField(env, json, f, cur)
  }

  lemma {:induction false} RunIsFold(env: Env, json: JValue, fields: seq<Field>, start: map<string, Value>)
    ensures RunFields(env, json, fields, start) == Folded(json, fields, start, Runner(env, json))
  {
    if fields != [] {
      RunIsFold(env, json, Front(fields), start);
    }
  }

  /** A destination no field names is left alone. */
  lemma {:induction false} FoldUntouched(json: JValue, fields: seq<Field>, start: map<string, Value>,
                                         run: (Field, Value) -> Context, k: string)
    requires forall i :: 0 <= i < |fields| ==> fields[i].slot != k
    ensures var p := Folded(json, fields, start, run);
      (k in p.slots <==> k in start) && (k in start ==> p.slots[k] == start[k])
  {
    if fields != [] {
      FoldUntouched(json, Front(fields), start, run, k);
      assert Last(fields).slot != k;
    }
  }

  /** Each destination holds what its own expression makes of its initial content. */
  lemma {:induction false} FoldSlot(json: JValue, fields: seq<Field>, start: map<string, Value>,
                                    run: (Field, Value) -> Context, i: nat)
    requires Distinct(fields) && i < |fields|
    ensures var p := Folded(json, fields, start, run);
      fields[i].slot in p.slots && p.slots[fields[i].slot] == run(fields[i], SlotOf(start, fields[i].slot)).dest
  {
    if i == |fields| - 1 {
      FoldUntouched(json, Front(fields), start, run, fields[i].slot);
    } else {
      FoldSlot(json, Front(fields), start, run, i);
    }
  }

  /** No error is recorded iff each expression on its own records none. */
  lemma {:induction false} FoldErrors(json: JValue, fields: seq<Field>, start: map<string, Value>,
                                      run: (Field, Value) -> Context)
    requires Distinct(fields)
    ensures Folded(json, fields, start, run).errors == [] <==>
            forall i :: 0 <= i < |fields| ==> run(fields[i], SlotOf(start, fields[i].slot)).errors == []
  {
    if fields != [] {
      var front := Front(fields);
      FoldErrors(json, front, start, run);
      FoldLastErrors(json, fields, start, run);
      assert forall i :: 0 <= i < |front| ==> front[i] == fields[i];
    }
  }

  lemma FoldKeeps(json: JValue, fields: seq<Field>, start: map<string, Value>, run: (Field, Value) -> Context)
    requires Distinct(fields)
    ensures OthersKept(fields, start, Folded(json, fields, start, run).slots)
  {
    var slots := Folded(json, fields, start, run).slots;
    forall k
      ensures k in slots.Keys <==> k in start.Keys || exists i :: 0 <= i < |fields| && fields[i].slot == k
      ensures k in start.Keys && (forall i :: 0 <= i < |fields| ==> fields[i].slot != k) ==>
          k in slots && slots[k] == start[k]
    {
      if i :| 0 <= i < |fields| && fields[i].slot == k {
        FoldSlot(json, fields, start, run, i);
      } else {
        FoldUntouched(json, fields, start, run, k);
      }
    }
  }

  /** With distinct destinations, get expressions do not influence each other. */
  lemma FieldsIndependent(env: Env, json: JValue, fields: seq<Field>, start: map<string, Value>)
    requires Distinct(fields)
    ensures var p := RunFields(env, json, fields, start);
      && OthersKept(fields, start, p.slots)
      && (forall i :: 0 <= i < |fields| ==>
            fields[i].slot in p.slots && p.slots[fields[i].slot] == Solo(env, json, start)(fields[i]).dest)
      && (p.errors == [] <==> forall i :: 0 <= i < |fields| ==> Solo(env, json, start)(fields[i]).errors == [])
  {
    var run := Runner(env, json);
    RunIsFold(env, json, fields, start);
    FoldKeeps(json, fields, start, run);
    FoldErrors(json, fields, start, run);
    forall i | 0 <= i < |fields|
      ensures fields[i].slot in RunFields(env, json, fields, start).slots
      ensures RunFields(env, json, fields, start).slots[fields[i].slot] == Solo(env, json, start)(fields[i]).dest
      ensures run(fields[i], SlotOf(start, fields[i].slot)) == Solo(env, json, start)(fields[i])
    {
      FoldSlot(json, fields, start, run, i);
    }
  }

  /** The first error of a sequence of requests is the first failing request's own first error. */
  lemma FirstFailingField(env: Env, json: JValue, fields: seq<Field>, start: map<string, Value>, i: nat)
    requires Distinct(fields) && i < |fields| && Solo(env, json, start)(fields[i]).errors != []
    requires forall j :: 0 <= j < i ==> Solo(env, json, start)(fields[j]).errors == []
    ensures RunFields(env, json, fields, start).errors != []
    ensures RunFields(env, json, fields, start).errors[0] == Solo(env, json, start)(fields[i]).errors[0]
  {
    var run := Runner(env, json);
    RunIsFold(env, json, fields, start);
    assert forall j :: 0 <= j <= i ==>
        run(fields[j], SlotOf(start, fields[j].slot)) == Solo(env, json, start)(fields[j]);
    FoldFirstError(json, fields, start, run, i);
  }

  lemma {:induction false} FoldFirstError(json: JValue, fields: seq<Field>, start: map<string, Value>,
                                          run: (Field, Value) -> Context, i: nat)
    requires Distinct(fields) && i < |fields| && run(fields[i], SlotOf(start, fields[i].slot)).errors != []
    requires forall j :: 0 <= j < i ==> run(fields[j], SlotOf(start, fields[j].slot)).errors == []
    ensures var errors := Folded(json, fields, start, run).errors;
      errors != [] && errors[0] == run(fields[i], SlotOf(start, fields[i].slot)).errors[0]
  {
    FoldLastErrors(json, fields, start, run);
    if i < |fields| - 1 {
      FoldFirstError(json, Front(fields), start, run, i);
    } else {
      FoldErrors(json, Front(fields), start, run);
    }
  }

  lemma FoldLastErrors(json: JValue, fields: seq<Field>, start: map<string, Value>, run: (Field, Value) -> Context)
    requires Distinct(fields) && fields != []
    ensures Folded(json, fields, start, run).errors ==
            Folded(json, Front(fields), start, run).errors + run(Last(fields), SlotOf(start, Last(fields).slot)).errors
  {
    FoldUntouched(json, Front(fields), start, run, Last(fields).slot);
  }

  // ---------------------------------------------------------------- strict mode

  /** For any list of requests whatever: the count is the number of keys read plus the number of repeated requests. */
  lemma {:induction false} CountIsReadPlusRepeats(env: Env, json: JValue, fields: seq<Field>, start: map<string, Value>)
    ensures RunFields(env, json, fields, start).count == |Read(json, fields)| + |Repeats(json, fields)|
  {
    if fields != [] {
      CountIsReadPlusRepeats(env, json, Front(fields), start);
      var name := Last(fields).name;
      ReadAppend(json, fields);
      AddedSize(Read(json, Front(fields)), Read(json, fields), name, HasKey(json, name));
      RepeatsAppend(json, fields);
      CountStep(env, json, fields, start);
    } else {
      assert Read(json, fields) == {} && Repeats(json, fields) == {};
    }
  }

  lemma CountStep(env: Env, json: JValue, fields: seq<Field>, start: map<string, Value>)
    requires fields != []
    ensures RunFields(env, json, fields, start).count ==
            RunFields(env, json, Front(fields), start).count + if HasKey(json, Last(fields).name) then 1 else 0
    ensures Last(fields).name in Read(json, Front(fields)) ==> HasKey(json, Last(fields).name)
  {
  }

  lemma ReadAppend(json: JValue, fields: seq<Field>)
    requires fields != []
    ensures Read(json, fields) ==
            Read(json, Front(fields)) + if HasKey(json, Last(fields).name) then {Last(fields).name} else {}
  {
    var front, f := Front(fields), Last(fields);
    forall k | k in Read(json, fields) ensures k in Read(json, front) || (k == f.name && HasKey(json, f.name)) {
      var i :| 0 <= i < |fields| && HasKey(json, fields[i].name) && fields[i].name == k;
      assert i < |front| ==> front[i] == fields[i];
    }
    forall k | k in Read(json, front) ensures k in Read(json, fields) {
      var i :| 0 <= i < |front| && HasKey(json, front[i].name) && front[i].name == k;
      assert fields[i] == front[i];
    }
    if HasKey(json, f.name) {
      assert fields[|fields| - 1].name == f.name;
    }
  }

  /** Adding a name to a set of names. */
  lemma AddedSize(before: set<string>, after: set<string>, name: string, present: bool)
    requires after == before + if present then {name} else {}
    ensures |after| == |before| + if present && name !in before then 1 else 0
  {
    if !present || name in before {
      assert after == before;
    }
  }

  lemma RepeatsAppend(json: JValue, fields: seq<Field>)
    requires fields != []
    ensures |Repeats(json, fields)| ==
            |Repeats(json, Front(fields))| + if Last(fields).name in Read(json, Front(fields)) then 1 else 0
  {
    var front, f, n: nat := Front(fields), Last(fields), |fields| - 1;
    forall i: nat | i < n ensures RepeatsAt(json, fields, i) <==> RepeatsAt(json, front, i) {
      RepeatsBefore(json, fields, i);
    }
    RepeatsLast(json, fields);
    assert Repeats(json, fields) == Repeats(json, front) + if f.name in Read(json, front) then {n} else {};
  }

  lemma RepeatsBefore(json: JValue, fields: seq<Field>, i: nat)
    requires i < |fields| - 1
    ensures RepeatsAt(json, fields, i) <==> RepeatsAt(json, Front(fields), i)
  {
    assert forall j :: 0 <= j <= i ==> Front(fields)[j] == fields[j];
  }

  lemma RepeatsLast(json: JValue, fields: seq<Field>)
    requires fields != []
    ensures RepeatsAt(json, fields, |fields| - 1) <==> Last(fields).name in Read(json, Front(fields))
  {
    assert forall j :: 0 <= j < |fields| - 1 ==> Front(fields)[j] == fields[j];
  }

  /** The size of the object is the number of keys read plus the number of unread ones. */
  lemma SizeIsReadPlusUnread(json: JValue, fields: seq<Field>)
    ensures ObjectSize(json) == |Read(json, fields)| + |Unread(json, fields)|
    ensures Covered(json, fields) <==> Unread(json, fields) == {}
  {
    var read, unread := Read(json, fields), Unread(json, fields);
    if json.JObj? {
      assert |json.members| == |json.members.Keys|;
      assert json.members.Keys == read + unread;
      forall k | k in json.members ensures k in read <==> exists i :: 0 <= i < |fields| && fields[i].name == k {
      }
      assert Covered(json, fields) <==> forall k :: k in json.members ==> k in read;
    } else {
      assert read == {};
    }
  }

  /** The strict check, for any list of requests: it passes iff repeats and unread keys are equally many. */
  lemma StrictExact(env: Env, json: JValue, fields: seq<Field>, start: map<string, Value>)
    ensures RunFields(env, json, fields, start).count == ObjectSize(json) <==> StrictlyRead(json, fields)
  {
    CountIsReadPlusRepeats(env, json, fields, start);
    SizeIsReadPlusUnread(json, fields);
  }

  /**
   When strict mode decides coverage, for any list of requests: iff no key is requested twice, or some key is
   unread and the repeats are not as many as the unread keys.
   */
  lemma StrictIsCoverageIff(env: Env, json: JValue, fields: seq<Field>, start: map<string, Value>)
    ensures var (repeats, unread) := (|Repeats(json, fields)|, |Unread(json, fields)|);
      (RunFields(env, json, fields, start).count == ObjectSize(json) <==> Covered(json, fields)) <==>
      repeats == 0 || (unread != 0 && unread != repeats)
  {
    StrictExact(env, json, fields, start);
    SizeIsReadPlusUnread(json, fields);
  }

  lemma NoRepeats(json: JValue, fields: seq<Field>)
    requires ReadOnce(json, fields)
    ensures Repeats(json, fields) == {}
  {
  }

  /** With no present key requested twice, whatever the mix of requests, the count is the number of keys read. */
  lemma CountIsCardinality(env: Env, json: JValue, fields: seq<Field>, start: map<string, Value>)
    requires ReadOnce(json, fields)
    ensures RunFields(env, json, fields, start).count == |Read(json, fields)|
  {
    CountIsReadPlusRepeats(env, json, fields, start);
    NoRepeats(json, fields);
  }

  /** Then strict mode is coverage: the count equals the size of the object iff every key was read. */
  lemma StrictMeansCoverage(env: Env, json: JValue, fields: seq<Field>, start: map<string, Value>)
    requires ReadOnce(json, fields)
    ensures RunFields(env, json, fields, start).count == ObjectSize(json) <==> Covered(json, fields)
  {
    StrictIsCoverageIff(env, json, fields, start);
    NoRepeats(json, fields);
  }

  const TWICE := [Field("a", "x", Plain(Json), []), Field("a", "y", Plain(Json), [])]

  lemma ReadTwice(env: Env, json: JValue, start: map<string, Value>)
    requires HasKey(json, "a") && !json.members["a"].JNull?
    ensures RunFields(env, json, TWICE, start).errors == []
    ensures Read(json, TWICE) == {"a"} && Repeats(json, TWICE) == {1}
  {
    var x := TWICE[0];
    assert Front([x]) == [] && Front(TWICE) == [x];
    assert RunFields(env, json, [], start).errors == [];
    assert RunFields(env, json, [x], start).errors == [];
    assert TWICE[0].name == TWICE[1].name == "a";
    assert RepeatsAt(json, TWICE, 1) && !RepeatsAt(json, TWICE, 0);
  }

  /** Requesting one key twice makes up for a key that nothing reads: strict mode passes. */
  lemma RepeatedRequestHidesKey(env: Env, start: map<string, Value>)
    ensures var json := JObj(map["a" := JNum(1.0), "b" := JNum(2.0)]);
      !Covered(json, TWICE) && FinalErrors(json, RunFields(env, json, TWICE, start), true) == []
  {
    var json := JObj(map["a" := JNum(1.0), "b" := JNum(2.0)]);
    assert "a"[0] != "b"[0];
    ReadTwice(env, json, start);
    assert Unread(json, TWICE) == {"b"};
    StrictExact(env, json, TWICE, start);
    SizeIsReadPlusUnread(json, TWICE);
  }

  /** And requesting the only key twice reads every key, yet strict mode refuses. */
  lemma RepeatedRequestRefused(env: Env, start: map<string, Value>)
    ensures var json := JObj(map["a" := JNum(1.0)]);
      Covered(json, TWICE) && FinalErrors(json, RunFields(env, json, TWICE, start), true) == [AtField("", ExtraFields)]
  {
    var json := JObj(map["a" := JNum(1.0)]);
    ReadTwice(env, json, start);
    assert Unread(json, TWICE) == {};
    StrictExact(env, json, TWICE, start);
    SizeIsReadPlusUnread(json, TWICE);
  }

  // ---------------------------------------------------------------- arrays

  /** What one element of an array comes to. */
  function Element(env: Env, name: string, s: Shape, item: JValue): Context {
    Finish(Getting(env, name, item, true, s, Zero(s), []))
  }

  function Reader(env: Env, name: string, s: Shape): JValue -> Context {
    item => Element(env, name, s, item)
  }

  /** The element loop, with what reading one element does as a parameter. */
  function Gathered(items: seq<JValue>, read: JValue -> Context): (seq<Value>, seq<ParseError>) {
    if items == [] then ([], [])
    else
      var (slots, errors) := Gathered(Front(items), read);
      var c := read(Last(items));
      (slots + [c.dest], errors + c.errors)
  }

  lemma {:induction false} ElementsAreGathered(env: Env, name: string, s: Shape, items: seq<JValue>)
    ensures Elements(env, name, s, items) == Gathered(items, Reader(env, name, s))
  {
    if items != [] {
      ElementsAreGathered(env, name, s, Front(items));
    }
  }

  lemma {:induction false} GatheredOneByOne(items: seq<JValue>, read: JValue -> Context)
    ensures var (slots, errors) := Gathered(items, read);
      && |slots| == |items|
      && (forall i :: 0 <= i < |items| ==> slots[i] == read(items[i]).dest)
      && (errors == [] <==> forall i :: 0 <= i < |items| ==> read(items[i]).errors == [])
  {
    if items != [] {
      GatheredOneByOne(Front(items), read);
      assert forall i :: 0 <= i < |items| - 1 ==> items[i] == Front(items)[i];
    }
  }

  /** As many slots as elements, each the element's own result; an error iff some element has one. */
  lemma ElementsOneByOne(env: Env, name: string, s: Shape, items: seq<JValue>)
    ensures var (slots, errors) := Elements(env, name, s, items);
      && |slots| == |items|
      && (forall i :: 0 <= i < |items| ==> slots[i] == Element(env, name, s, items[i]).dest)
      && (errors == [] <==> forall i :: 0 <= i < |items| ==> Element(env, name, s, items[i]).errors == [])
  {
    var read := Reader(env, name, s);
    ElementsAreGathered(env, name, s, items);
    GatheredOneByOne(items, read);
    assert forall i :: 0 <= i < |items| ==> read(items[i]) == Element(env, name, s, items[i]);
  }

  function Concat<T>(ss: seq<seq<T>>): seq<T> {
    if ss == [] then [] else Concat(Front(ss)) + Last(ss)
  }

  lemma {:induction false} FirstNonEmpty<T>(ss: seq<seq<T>>, i: nat)
    requires i < |ss| && ss[i] != [] && forall j :: 0 <= j < i ==> ss[j] == []
    ensures Concat(ss) != [] && Concat(ss)[0] == ss[i][0]
  {
    if i < |ss| - 1 {
      FirstNonEmpty(Front(ss), i);
    } else {
      AllEmpty(Front(ss));
    }
  }

  lemma {:induction false} AllEmpty<T>(ss: seq<seq<T>>)
    requires forall j :: 0 <= j < |ss| ==> ss[j] == []
    ensures Concat(ss) == []
  {
    if ss != [] {
      AllEmpty(Front(ss));
    }
  }

  function ErrorsOf(items: seq<JValue>, read: JValue -> Context): seq<seq<ParseError>> {
    seq(|items|, i requires 0 <= i < |items| => read(items[i]).errors)
  }

  lemma {:induction false} ErrorsInOrder(items: seq<JValue>, read: JValue -> Context)
    ensures Gathered(items, read).1 == Concat(ErrorsOf(items, read))
  {
    if items != [] {
      ErrorsInOrder(Front(items), read);
      assert Front(ErrorsOf(items, read)) == ErrorsOf(Front(items), read);
    }
  }

  /** The element at i fails, and none before it does. */
  ghost predicate FirstFails(env: Env, name: string, s: Shape, items: seq<JValue>, i: int) {
    && 0 <= i < |items| && Element(env, name, s, items[i]).errors != []
    && forall j :: 0 <= j < i ==> Element(env, name, s, items[j]).errors == []
  }

  /** The first recorded error is the first failing element's, whatever follows. */
  lemma FirstFailingElement(env: Env, name: string, s: Shape, items: seq<JValue>, i: nat)
    requires FirstFails(env, name, s, items, i)
    ensures Elements(env, name, s, items).1 != []
    ensures Elements(env, name, s, items).1[0] == Element(env, name, s, items[i]).errors[0]
  {
    var read := Reader(env, name, s);
    ElementsAreGathered(env, name, s, items);
    ErrorsInOrder(items, read);
    assert forall j :: 0 <= j <= i ==> read(items[j]) == Element(env, name, s, items[j]);
    FirstNonEmpty(ErrorsOf(items, read), i);
  }

  /** An element succeeds exactly when it is not null and its value decodes. */
  lemma ElementMeaning(env: Env, name: string, s: Shape, item: JValue, d: Value)
    requires Denotes(env, s, item, Zero(s), d) <==> Decode(env, s, item, Zero(s)) == Outcome(d, None)
    ensures var c := Element(env, name, s, item);
      (c.errors == [] && c.dest == d) <==> (!item.JNull? && Denotes(env, s, item, Zero(s), d))
  {
  }

  // ---------------------------------------------------------------- exactness

  /** A value decodes without an exception, to d, exactly when it denotes d. */
  lemma {:induction false} DecodeExact(env: Env, s: Shape, v: JValue, cur: Value, d: Value)
    requires WellFormed(s)
    ensures Denotes(env, s, v, cur, d) <==> Decode(env, s, v, cur) == Outcome(d, None)
    decreases s, 0
  {
    match s
    case U8 => NarrowExact(env, v, 0, 255, I32_MIN, I32_MAX, cur, d);
    case I8 => NarrowExact(env, v, -128, 127, I32_MIN, I32_MAX, cur, d);
    case U16 => NarrowExact(env, v, 0, 65535, I32_MIN, I32_MAX, cur, d);
    case I16 => NarrowExact(env, v, -32768, 32767, I32_MIN, I32_MAX, cur, d);
    case I32 => DirectExact(env, v, I32_MIN, I32_MAX, cur, d);
    case U32 => NarrowExact(env, v, 0, 4294967295, I64_MIN, I64_MAX, cur, d);
    case I64 => DirectExact(env, v, I64_MIN, I64_MAX, cur, d);
    case U64 => U64Exact(env, v, cur, d);
    case Dbl =>
    case Bool =>
    case Str =>
    case Json =>
    case Custom(_, _) =>
    case Obj(initial, fields, strict) =>
      if v.JObj? {
        var start := if cur.VObj? then cur.slots else initial;
        ObjectExact(env, fields, strict, v, start, d);
      }
  }

  lemma {:induction false} ObjectExact(env: Env, fields: seq<Field>, strict: bool, v: JValue,
                                       start: map<string, Value>, d: Value)
    requires WellFormedFields(fields)
    ensures var p := RunFields(env, v, fields, start);
      (FinalErrors(v, p, strict) == [] && d == VObj(p.slots)) <==>
      d.VObj? && FieldsDenote(env, v, fields, start, d.slots) && (strict ==> StrictlyRead(v, fields))
    decreases fields, 1
  {
    if strict {
      StrictExact(env, v, fields, start);
    }
    if d.VObj? {
      FieldsExact(env, fields, v, start, d.slots);
    }
  }

  lemma {:induction false} FieldsExact(env: Env, fields: seq<Field>, v: JValue, start: map<string, Value>,
                                       slots: map<string, Value>)
    requires WellFormedFields(fields)
    ensures var p := RunFields(env, v, fields, start);
      (p.errors == [] && slots == p.slots) <==> FieldsDenote(env, v, fields, start, slots)
    decreases fields, 0
  {
    var p := RunFields(env, v, fields, start);
    var alone, meant := Solo(env, v, start), Meaning(env, v, start);
    FieldsIndependent(env, v, fields, start);
    forall i, e | 0 <= i < |fields|
      ensures meant(fields[i], e) <==> alone(fields[i]).errors == [] && alone(fields[i]).dest == e
    {
      MeaningIsSolo(env, v, fields[i], start, e);
    }
    SlotsMeant(fields, start, p.slots, p.errors == [], alone, meant, slots);
    FieldsDenoteMeaning(env, v, fields, start, slots);
  }

  ghost function Meaning(env: Env, v: JValue, start: map<string, Value>): (Field, Value) -> bool {
    (f: Field, e: Value) => FieldDenotes(env, v, f, ContentOf(start, f.slot), e)
  }

  lemma {:induction false} MeaningIsSolo(env: Env, v: JValue, f: Field, start: map<string, Value>, e: Value)
    requires WellFormedField(f)
    ensures Meaning(env, v, start)(f, e) <==>
            Solo(env, v, start)(f).errors == [] && Solo(env, v, start)(f).dest == e
    decreases f, 1
  {
    var cur := ContentOf(start, f.slot);
    assert cur == SlotOf(start, f.slot);
    FieldExact(env, v, f, cur, e);
    assert Meaning(env, v, start)(f, e) == FieldDenotes(env, v, f, cur, e);
    assert Solo(env, v, start)(f) == RunField(env, v, f, cur);
  }

  lemma FieldsDenoteMeaning(env: Env, v: JValue, fields: seq<Field>, start: map<string, Value>,
                            slots: map<string, Value>)
    ensures FieldsDenote(env, v, fields, start, slots) <==>
            && OthersKept(fields, start, slots)
            && forall i :: 0 <= i < |fields| ==>
                 fields[i].slot in slots && Meaning(env, v, start)(fields[i], slots[fields[i].slot])
  {
  }

  /** From what each field means alone to what all destinations mean together. */
  lemma SlotsMeant(fields: seq<Field>, start: map<string, Value>, slots: map<string, Value>, ok: bool,
                   alone: Field -> Context, meant: (Field, Value) -> bool, d: map<string, Value>)
    requires OthersKept(fields, start, slots)
    requires forall i :: 0 <= i < |fields| ==> fields[i].slot in slots && slots[fields[i].slot] == alone(fields[i]).dest
    requires ok <==> forall i :: 0 <= i < |fields| ==> alone(fields[i]).errors == []
    requires forall i, e :: 0 <= i < |fields| ==>
        (meant(fields[i], e) <==> alone(fields[i]).errors == [] && alone(fields[i]).dest == e)
    ensures (ok && d == slots) <==>
            && OthersKept(fields, start, d)
            && forall i :: 0 <= i < |fields| ==> fields[i].slot in d && meant(fields[i], d[fields[i].slot])
  {
    if && OthersKept(fields, start, d)
       && forall i :: 0 <= i < |fields| ==> fields[i].slot in d && meant(fields[i], d[fields[i].slot])
    {
      SlotsAgree(fields, start, slots, d);
    }
  }

  /** Two contents that agree on the fields and on everything untouched are equal. */
  lemma SlotsAgree(fields: seq<Field>, start: map<string, Value>, a: map<string, Value>, b: map<string, Value>)
    requires OthersKept(fields, start, a) && OthersKept(fields, start, b)
    requires forall i :: 0 <= i < |fields| ==>
        fields[i].slot in a && fields[i].slot in b && a[fields[i].slot] == b[fields[i].slot]
    ensures a == b
  {
    assert a.Keys == b.Keys;
    forall k | k in a.Keys ensures a[k] == b[k] {
      if i :| 0 <= i < |fields| && fields[i].slot == k {
        assert a[fields[i].slot] == b[fields[i].slot];
      }
    }
  }

  /** One get expression records no error and leaves d exactly when the field is acceptable and denotes d. */
  lemma {:induction false} FieldExact(env: Env, json: JValue, f: Field, cur: Value, d: Value)
    requires WellFormedField(f)
    ensures FieldDenotes(env, json, f, cur, d) <==>
            RunField(env, json, f, cur).errors == [] && RunField(env, json, f, cur).dest == d
    decreases f, 0
  {
    if f.SubParser? {
      SubParserExact(json, f.name, d);
      return;
    }
    RunFieldMeaning(env, json, f, cur, d);
    if HasKey(json, f.name) {
      SourceExact(env, json, f.name, f.source, f.chain, cur, d);
    } else {
      AbsentField(env, json, f.name, f.source, f.chain, cur, d);
    }
  }

  /** Why a plain field is refused: for its absence, for null, for its type, or for its first failing check. */
  ghost predicate PlainRefusal(env: Env, json: JValue, name: string, s: Shape, ms: seq<Modifier>, cur: Value,
                               why: Reason) {
    if !Present(json, name) then why == Mandatory && !IsOptional(ms)
    else if json.members[name].JNull? then
      if IsOptional(ms) then why == NullNotAllowed && !AllowsNull(ms) else why == Mandatory
    else
      var o := Decode(env, s, json.members[name], cur);
      if o.thrown.Some? then Some(why) == o.thrown
      else exists i :: FirstFailing(ms, o.dest, i) && why == CheckReason(ms[i])
  }

  /** The first error of a plain field names the field and says why it is refused. */
  lemma PlainFirstError(env: Env, json: JValue, f: Field, cur: Value)
    requires f.Field? && f.source.Plain? && RunField(env, json, f, cur).errors != []
    ensures var e := RunField(env, json, f, cur).errors[0];
      e.AtField? && e.name == f.name && PlainRefusal(env, json, f.name, f.source.shape, f.chain, cur, e.reason)
  {
    var c := FieldContext(env, json, f.name, f.source, cur);
    ChainMeaning(c, f.chain);
    PlainContextIs(env, json, f.name, f.source.shape, cur);
    if c.read {
      var i := SomeFirstFailing(f.chain, c.dest);
      ChainFirstError(c, f.chain, i);
    } else {
      ChainSilent(c, f.chain);
    }
  }

  /** Why a present value is refused by a get function, before any modifier. */
  ghost predicate SourceRefusal(env: Env, v: JValue, name: string, source: Source, cur: Value, why: Reason) {
    match source
    case Plain(s) => Some(why) == Decode(env, s, v, cur).thrown
    case FromString(s) =>
      if v.JNull? then why == NullNotAllowed
      else if !v.JStr? then why == NotAString
      else Some(why) == Decode(env, s, env.document(v.text), cur).thrown
    case Mapped(key, table) =>
      var o := Decode(env, key, v, Default(key));
      if v.JNull? then why == NullNotAllowed
      else if o.thrown.Some? then Some(why) == o.thrown
      else why == NotInMap && forall i :: 0 <= i < |table| ==> table[i].0 != o.dest
    case Array(s) =>
      if v.JNull? then why == NullNotAllowed
      else if !v.JArr? then why == ArrayExpected
      else ElementRefusal(env, v.items, name, s, why)
  }

  /** The reason is the first failing element's. */
  ghost predicate ElementRefusal(env: Env, items: seq<JValue>, name: string, s: Shape, why: Reason) {
    exists i ::
      FirstFails(env, name, s, items, i) && Element(env, name, s, items[i]).errors[0] == AtField(name, why)
  }

  /** The first error of a get function names the field and says why the value is refused. */
  lemma SourceFirstError(env: Env, json: JValue, name: string, source: Source, cur: Value)
    requires Present(json, name) && FieldContext(env, json, name, source, cur).errors != []
    ensures var e := FieldContext(env, json, name, source, cur).errors[0];
      e.AtField? && e.name == name && SourceRefusal(env, json.members[name], name, source, cur, e.reason)
  {
    match source
    case Array(s) =>
      ArrayFirstError(env, json, name, s, cur);
    case _ =>
  }

  lemma ArrayFirstError(env: Env, json: JValue, name: string, s: Shape, cur: Value)
    requires Present(json, name) && FieldContext(env, json, name, Array(s), cur).errors != []
    ensures var e := FieldContext(env, json, name, Array(s), cur).errors[0];
      e.AtField? && e.name == name && SourceRefusal(env, json.members[name], name, Array(s), cur, e.reason)
  {
    var v := json.members[name];
    ArrayValue(env, json, name, s, cur);
    if v.JArr? {
      ElementsFirstError(env, name, s, v.items);
    } else {
      NotAnArray(env, json, name, s, cur);
    }
  }

  lemma NotAnArray(env: Env, json: JValue, name: string, s: Shape, cur: Value)
    requires Present(json, name) && !json.members[name].JArr?
    ensures FieldContext(env, json, name, Array(s), cur).errors ==
            [AtField(name, if json.members[name].JNull? then NullNotAllowed else ArrayExpected)]
  {
  }

  lemma ElementsFirstError(env: Env, name: string, s: Shape, items: seq<JValue>)
    requires Elements(env, name, s, items).1 != []
    ensures var e := Elements(env, name, s, items).1[0];
      e.AtField? && e.name == name && ElementRefusal(env, items, name, s, e.reason)
  {
    ElementsOneByOne(env, name, s, items);
    var k :| 0 <= k < |items| && Element(env, name, s, items[k]).errors != [];
    var i := FirstFailure(env, name, s, items, k);
    FirstFailingElement(env, name, s, items, i);
    ElementNamed(env, name, s, items[i]);
  }

  lemma ElementNamed(env: Env, name: string, s: Shape, item: JValue)
    requires Element(env, name, s, item).errors != []
    ensures Element(env, name, s, item).errors[0].AtField? && Element(env, name, s, item).errors[0].name == name
  {
  }

  lemma {:induction false} FirstFailure(env: Env, name: string, s: Shape, items: seq<JValue>, k: nat) returns (i: nat)
    requires k < |items| && Element(env, name, s, items[k]).errors != []
    ensures FirstFails(env, name, s, items, i)
    decreases k
  {
    if j :| 0 <= j < k && Element(env, name, s, items[j]).errors != [] {
      i := FirstFailure(env, name, s, items, j);
    } else {
      i := k;
    }
  }

  /** An element that fails reports its reason first; a null one leaves a default-constructed slot. */
  lemma ElementRefused(env: Env, name: string, s: Shape, item: JValue)
    ensures item.JNull? ==> Element(env, name, s, item).errors == [AtField(name, Mandatory)]
    ensures item.JNull? ==> Element(env, name, s, item).dest == Default(s)
    ensures !item.JNull? && Decode(env, s, item, Default(s)).thrown.Some? ==>
      Element(env, name, s, item).errors ==
      [AtField(name, Decode(env, s, item, Default(s)).thrown.value), AtField(name, Mandatory)]
  {
  }

  lemma PlainContextIs(env: Env, json: JValue, name: string, s: Shape, cur: Value)
    ensures var c := FieldContext(env, json, name, Plain(s), cur);
      c == if !Present(json, name) then Context(name, cur, false, false, false, false, [])
           else
             var v := json.members[name];
             var o := Decode(env, s, v, cur);
             if v.JNull? then Context(name, cur, false, true, false, false, [])
             else if o.thrown.None? then Context(name, o.dest, true, false, false, false, [])
             else Context(name, o.dest, false, false, false, false, [AtField(name, o.thrown.value)])
  {
  }

  lemma {:induction false} SomeFirstFailing(ms: seq<Modifier>, d: Value) returns (i: int)
    requires !Admitted(ms, d)
    ensures FirstFailing(ms, d, i)
  {
    if Admitted(Front(ms), d) {
      i := |ms| - 1;
      AdmittedLast(ms, d);
      assert forall j :: 0 <= j < i ==> Passes(Front(ms)[j], d) && Front(ms)[j] == ms[j];
    } else {
      i := SomeFirstFailing(Front(ms), d);
      assert forall j :: 0 <= j <= i ==> Front(ms)[j] == ms[j];
    }
  }

  /** When nothing was read, a chain records nothing. */
  lemma {:induction false} ChainSilent(c: Context, ms: seq<Modifier>)
    requires !c.read
    ensures Chain(c, ms).errors == c.errors && !Chain(c, ms).read
  {
    if ms != [] {
      ChainSilent(c, Front(ms));
    }
  }

  /** A 32-bit field with bounds, on a number: refused iff it is no integer of the type within the bounds. */
  lemma BoundedInteger(env: Env, json: JValue, name: string, slot: string, n: int, a: int, b: int, cur: Value)
    requires json.JObj? && name in json.members && json.members[name] == JNum(n as real)
    ensures var r := RunField(env, json, Field(name, slot, Plain(I32), [Min(VInt(a)), Max(VInt(b))]), cur);
      && (r.errors == [] <==> -2147483648 <= n <= 2147483647 && a <= n <= b)
      && (r.errors == [] ==> r.dest == VInt(n))
  {
    var f := Field(name, slot, Plain(I32), [Min(VInt(a)), Max(VInt(b))]);
    var r := RunField(env, json, f, cur);
    FieldExact(env, json, f, cur, VInt(n));
    FieldExact(env, json, f, cur, r.dest);
    assert Passes(f.chain[0], VInt(n)) <==> a <= n;
    assert Passes(f.chain[1], VInt(n)) <==> n <= b;
    assert Admitted(f.chain, VInt(n)) <==> a <= n <= b;
  }

  /** getObject reports no error, and yields a parser on d, exactly when the key holds the object d. */
  lemma SubParserExact(json: JValue, name: string, d: Value)
    ensures SubParsing(json, name).errors == [] && SubParsing(json, name).dest == d <==>
            Present(json, name) && json.members[name].JObj? && d == VJson(json.members[name])
    ensures !(Present(json, name) && json.members[name].JObj?) ==>
      && SubParsing(json, name).dest == VJson(JNull)
      && SubParsing(json, name).errors ==
         (if Present(json, name) && !json.members[name].JNull? then [] else [AtField(name, Mandatory)])
         + [AtField(name, ObjectExpected)]
  {
  }

  lemma RunFieldMeaning(env: Env, json: JValue, f: Field, cur: Value, d: Value)
    requires f.Field?
    ensures RunField(env, json, f, cur).errors == [] && RunField(env, json, f, cur).dest == d <==>
            Accepts(FieldContext(env, json, f.name, f.source, cur), f.chain, d)
  {
    FinishedMeaning(FieldContext(env, json, f.name, f.source, cur), f.chain, d);
  }

  lemma AbsentField(env: Env, json: JValue, name: string, source: Source, ms: seq<Modifier>, cur: Value, d: Value)
    requires !HasKey(json, name)
    ensures Accepts(FieldContext(env, json, name, source, cur), ms, d) <==> IsOptional(ms) && Defaulted(ms, cur, d)
  {
    assert FieldContext(env, json, name, source, cur) == Context(name, cur, false, false, false, false, []);
  }

  lemma {:induction false} SourceExact(env: Env, json: JValue, name: string, source: Source, ms: seq<Modifier>,
                                       cur: Value, d: Value)
    requires HasKey(json, name) && WellFormedSource(source)
    ensures SourceDenotes(env, json.members[name], source, ms, cur, d) <==>
            Accepts(FieldContext(env, json, name, source, cur), ms, d)
    decreases source
  {
    var v := json.members[name];
    match source
    case Plain(s) =>
      DecodeExact(env, s, v, cur, d);
      PlainContext(env, json, name, s, ms, cur, d);
    case FromString(s) =>
      if v.JStr? {
        DecodeExact(env, s, env.document(v.text), cur, d);
      }
      FromStringContext(env, json, name, s, ms, cur, d);
    case Mapped(key, table) =>
      forall k ensures Denotes(env, key, v, Zero(key), k) <==> Decode(env, key, v, Zero(key)) == Outcome(k, None) {
        DecodeExact(env, key, v, Zero(key), k);
      }
      MappedValue(env, json, name, key, table, cur);
      MappedContext(env, v, key, table, ms, cur, d, FieldContext(env, json, name, source, cur));
    case Array(element) =>
      forall item, e
        ensures Denotes(env, element, item, Zero(element), e) <==>
                Decode(env, element, item, Zero(element)) == Outcome(e, None)
      {
        DecodeExact(env, element, item, Zero(element), e);
      }
      ArrayValue(env, json, name, element, cur);
      ArrayContext(env, v, name, element, ms, cur, d, FieldContext(env, json, name, source, cur));
  }

  lemma PlainContext(env: Env, json: JValue, name: string, s: Shape, ms: seq<Modifier>, cur: Value, d: Value)
    requires HasKey(json, name)
    requires Denotes(env, s, json.members[name], cur, d) <==>
        Decode(env, s, json.members[name], cur) == Outcome(d, None)
    ensures SourceDenotes(env, json.members[name], Plain(s), ms, cur, d) <==>
            Accepts(FieldContext(env, json, name, Plain(s), cur), ms, d)
  {
  }

  lemma FromStringContext(env: Env, json: JValue, name: string, s: Shape, ms: seq<Modifier>, cur: Value, d: Value)
    requires HasKey(json, name)
    requires var v := json.members[name];
      v.JStr? ==> (Denotes(env, s, env.document(v.text), cur, d) <==>
          Decode(env, s, env.document(v.text), cur) == Outcome(d, None))
    ensures SourceDenotes(env, json.members[name], FromString(s), ms, cur, d) <==>
            Accepts(FieldContext(env, json, name, FromString(s), cur), ms, d)
  {
    var v := json.members[name];
    var inner := Finish(Got(name, v, true, VStr(""), DecodeString(v, VStr("")), []).(optional := true));
    assert inner.errors == [] <==> v.JStr?;
    assert v.JStr? ==> inner.read && inner.dest == VStr(v.text);
  }

  lemma MappedContext(env: Env, v: JValue, key: Shape, table: seq<(Value, Value)>, ms: seq<Modifier>, cur: Value,
                      d: Value, c: Context)
    requires forall k :: Denotes(env, key, v, Zero(key), k) <==> Decode(env, key, v, Zero(key)) == Outcome(k, None)
    requires MappedTo(v, Decode(env, key, v, Zero(key)), table, c)
    ensures SourceDenotes(env, v, Mapped(key, table), ms, cur, d) <==> Accepts(c, ms, d)
  {
    var o := Decode(env, key, v, Zero(key));
    TableRow(table, o.dest, d);
    SomeRow(env, key, v, table, d, o);
  }

  /** The context getAndMap returns, from the outcome o of reading the key. */
  ghost predicate MappedTo(v: JValue, o: Outcome, table: seq<(Value, Value)>, c: Context) {
    var i := FindKey(table, o.dest);
    if v.JNull? || o.thrown.Some? || i == |table| then c.errors != []
    else c.errors == [] && c.read && c.dest == table[i].1
  }

  lemma SomeRow(env: Env, key: Shape, v: JValue, table: seq<(Value, Value)>, d: Value, o: Outcome)
    requires forall k :: Denotes(env, key, v, Zero(key), k) <==> o == Outcome(k, None)
    ensures (exists k :: Denotes(env, key, v, Zero(key), k) && MapsTo(table, k, d)) <==>
        o.thrown.None? && MapsTo(table, o.dest, d)
  {
    if o.thrown.None? {
      assert Denotes(env, key, v, Zero(key), o.dest);
    }
  }

  lemma MappedValue(env: Env, json: JValue, name: string, key: Shape, table: seq<(Value, Value)>, cur: Value)
    requires HasKey(json, name)
    ensures MappedTo(json.members[name], Decode(env, key, json.members[name], Zero(key)), table,
                     FieldContext(env, json, name, Mapped(key, table), cur))
  {
  }

  /** getAndMap finds the first row for its key. */
  lemma TableRow(table: seq<(Value, Value)>, k: Value, d: Value)
    ensures MapsTo(table, k, d) <==> FindKey(table, k) < |table| && table[FindKey(table, k)].1 == d
  {
    var r := FindKey(table, k);
    if r < |table| && table[r].1 == d {
      assert table[r] == (k, d);
    }
  }

  lemma ArrayContext(env: Env, v: JValue, name: string, s: Shape, ms: seq<Modifier>, cur: Value, d: Value, c: Context)
    requires forall item, e :: Denotes(env, s, item, Zero(s), e) <==> Decode(env, s, item, Zero(s)) == Outcome(e, None)
    requires ArrayRead(env, v, name, s, c)
    ensures SourceDenotes(env, v, Array(s), ms, cur, d) <==> Accepts(c, ms, d)
  {
    if v.JArr? {
      ArrayMeaning(env, name, s, v.items, d);
    }
  }

  /** The context getArray returns. */
  ghost predicate ArrayRead(env: Env, v: JValue, name: string, s: Shape, c: Context) {
    if !v.JArr? then c.errors != []
    else c.read && c.dest == VArr(Elements(env, name, s, v.items).0) && c.errors == Elements(env, name, s, v.items).1
  }

  lemma ArrayValue(env: Env, json: JValue, name: string, s: Shape, cur: Value)
    requires HasKey(json, name)
    ensures ArrayRead(env, json.members[name], name, s, FieldContext(env, json, name, Array(s), cur))
  {
  }

  /** No error and these slots iff there are as many elements, each of which means its slot. */
  lemma GatheredMeaning(items: seq<JValue>, read: JValue -> Context, means: (JValue, Value) -> bool, d: Value)
    requires forall item, e :: means(item, e) <==> read(item).errors == [] && read(item).dest == e
    ensures (Gathered(items, read).1 == [] && d == VArr(Gathered(items, read).0)) <==>
            (d.VArr? && |d.items| == |items| && forall i :: 0 <= i < |items| ==> means(items[i], d.items[i]))
  {
    GatheredOneByOne(items, read);
    var slots := Gathered(items, read).0;
    if d.VArr? && |d.items| == |items| && forall i :: 0 <= i < |items| ==> means(items[i], d.items[i]) {
      assert d.items == slots;
    }
  }

  ghost function ItemMeaning(env: Env, s: Shape): (JValue, Value) -> bool {
    (item: JValue, e: Value) => !item.JNull? && Denotes(env, s, item, Zero(s), e)
  }

  lemma ArrayMeaning(env: Env, name: string, s: Shape, items: seq<JValue>, d: Value)
    requires forall item, e ::
      Denotes(env, s, item, Zero(s), e) <==> Decode(env, s, item, Zero(s)) == Outcome(e, None)
    ensures (Elements(env, name, s, items).1 == [] && d == VArr(Elements(env, name, s, items).0)) <==>
            (&& d.VArr? && |d.items| == |items|
             && forall i :: 0 <= i < |items| ==> !items[i].JNull? && Denotes(env, s, items[i], Zero(s), d.items[i]))
  {
    var read, means := Reader(env, name, s), ItemMeaning(env, s);
    forall item, e ensures means(item, e) <==> read(item).errors == [] && read(item).dest == e {
      ElementMeaning(env, name, s, item, e);
    }
    ElementsAreGathered(env, name, s, items);
    GatheredMeaning(items, read, means, d);
  }

  /** The document satisfies the field list, with these destinations. */
  ghost predicate Satisfied(env: Env, json: JValue, fields: seq<Field>, strict: bool,
                            start: map<string, Value>, slots: map<string, Value>) {
    && !json.JInvalid?
    && FieldsDenote(env, json, fields, start, slots)
    && (strict ==> StrictlyRead(json, fields))
  }

  /**
   The parser as a whole: construct, run the requests, finishParse. No error is stored exactly when the text was
   well-formed, every field is acceptable and, in strict mode, the strict check passes; the destinations are then
   the denoted ones. A document that is no object has no field at all.
   */
  lemma ParserExact(env: Env, fields: seq<Field>, strict: bool, json: JValue,
                    start: map<string, Value>, slots: map<string, Value>)
    requires WellFormedFields(fields)
    ensures var p := RunFields(env, json, fields, start);
      (!json.JInvalid? && FinalErrors(json, p, strict) == [] && slots == p.slots) <==>
      Satisfied(env, json, fields, strict, start, slots)
  {
    ObjectExact(env, fields, strict, json, start, VObj(slots));
  }

  /** If no present key is requested twice, satisfaction in strict mode asks for every key to be requested. */
  lemma SatisfiedMeansCovered(env: Env, json: JValue, fields: seq<Field>, strict: bool,
                              start: map<string, Value>, slots: map<string, Value>)
    requires ReadOnce(json, fields)
    ensures Satisfied(env, json, fields, strict, start, slots) <==>
            && !json.JInvalid?
            && FieldsDenote(env, json, fields, start, slots)
            && (strict ==> Covered(json, fields))
  {
    NoRepeats(json, fields);
    SizeIsReadPlusUnread(json, fields);
  }

  /**
   The error of a parser after the requests and finishParse: that of the first failing request, or of the strict
   check if none fails.
   */
  ghost predicate StoredError(env: Env, json: JValue, fields: seq<Field>, strict: bool, start: map<string, Value>,
                              error: Option<ParseError>) {
    if json.JInvalid? then error == Some(MalformedJson)
    else if forall i :: 0 <= i < |fields| ==> Solo(env, json, start)(fields[i]).errors == [] then
      error == if strict && !StrictlyRead(json, fields) then Some(AtField("", ExtraFields)) else None
    else
      exists i ::
        FirstRefused(env, json, fields, start, i) && error == Some(Solo(env, json, start)(fields[i]).errors[0])
  }

  ghost predicate FirstRefused(env: Env, json: JValue, fields: seq<Field>, start: map<string, Value>, i: int) {
    && 0 <= i < |fields| && Solo(env, json, start)(fields[i]).errors != []
    && forall j :: 0 <= j < i ==> Solo(env, json, start)(fields[j]).errors == []
  }

  function FirstError(errors: seq<ParseError>): Option<ParseError> {
    if errors == [] then None else Some(errors[0])
  }

  lemma StoredErrorIs(env: Env, json: JValue, fields: seq<Field>, strict: bool, start: map<string, Value>)
    requires Distinct(fields) && !json.JInvalid?
    ensures StoredError(env, json, fields, strict, start,
                        FirstError(FinalErrors(json, RunFields(env, json, fields, start), strict)))
  {
    FieldsIndependent(env, json, fields, start);
    if k :| 0 <= k < |fields| && Solo(env, json, start)(fields[k]).errors != [] {
      var i := FindRefused(env, json, fields, start, k);
      FirstFailingField(env, json, fields, start, i);
      assert FirstRefused(env, json, fields, start, i);
    } else {
      StrictExact(env, json, fields, start);
    }
  }

  lemma {:induction false} FindRefused(env: Env, json: JValue, fields: seq<Field>, start: map<string, Value>, k: nat)
    returns (i: nat)
    requires k < |fields| && Solo(env, json, start)(fields[k]).errors != []
    ensures FirstRefused(env, json, fields, start, i)
    decreases k
  {
    if j :| 0 <= j < k && Solo(env, json, start)(fields[j]).errors != [] {
      i := FindRefused(env, json, fields, start, j);
    } else {
      i := k;
    }
  }

  /** A nested object is refused for not being one, or for the error its own parser stores. */
  lemma ObjectRefused(env: Env, s: Shape, v: JValue, cur: Value) returns (error: Option<ParseError>)
    requires s.Obj? && Distinct(s.fields)
    ensures !v.JObj? ==> Decode(env, s, v, cur).thrown == Some(NotAnObject)
    ensures v.JObj? ==> StoredError(env, v, s.fields, s.strict, if cur.VObj? then cur.slots else s.initial, error)
    ensures v.JObj? ==> Decode(env, s, v, cur).thrown == if error == None then None else Some(Inner(error.value))
  {
    error := None;
    if v.JObj? {
      var start := if cur.VObj? then cur.slots else s.initial;
      error := FirstError(FinalErrors(v, RunFields(env, v, s.fields, start), s.strict));
      StoredErrorIs(env, v, s.fields, s.strict, start);
      ObjectThrows(env, s, v, cur, start);
    }
  }

  lemma ObjectThrows(env: Env, s: Shape, v: JValue, cur: Value, start: map<string, Value>)
    requires s.Obj? && v.JObj? && start == if cur.VObj? then cur.slots else s.initial
    ensures var error := FirstError(FinalErrors(v, RunFields(env, v, s.fields, start), s.strict));
      Decode(env, s, v, cur).thrown == if error == None then None else Some(Inner(error.value))
  {
  }

  // ---------------------------------------------------------------- order of modifiers

  /** At most one optional, one allowNull and one defaultValue. */
  ghost predicate SingleFlags(ms: seq<Modifier>) {
    forall i, j :: 0 <= i < j < |ms| ==>
      && !(ms[i].Optional? && ms[j].Optional?)
      && !(ms[i].AllowNull? && ms[j].AllowNull?)
      && !(ms[i].DefaultValue? && ms[j].DefaultValue?)
  }

  lemma ByMembership(ms: seq<Modifier>, cur: Value, d: Value)
    requires SingleFlags(ms)
    ensures IsOptional(ms) <==> Optional(true) in ms
    ensures AllowsNull(ms) <==> AllowNull(true) in ms
    ensures Defaulted(ms, cur, d) <==> DefaultValue(d) in ms || (d == cur && forall m :: m in ms ==> !m.DefaultValue?)
    ensures Admitted(ms, d) <==> forall m :: m in ms ==> Passes(m, d)
  {
    if DefaultValue(d) in ms {
      var i :| 0 <= i < |ms| && ms[i] == DefaultValue(d);
      assert LastDefault(ms, i, d);
    }
  }

  /**
   Order of modifiers: rearranging a chain with at most one optional, one allowNull and one defaultValue changes
   neither the destination, nor the read flag, nor whether an error is recorded.
   */
  lemma ModifierOrder(c: Context, ms: seq<Modifier>, ns: seq<Modifier>)
    requires !c.optional && !c.allowNull
    requires multiset(ms) == multiset(ns) && SingleFlags(ms) && SingleFlags(ns)
    ensures var a, b := Finish(Chain(c, ms)), Finish(Chain(c, ns));
      a.dest == b.dest && a.read == b.read && (a.errors == [] <==> b.errors == [])
  {
    ChainMeaning(c, ms);
    ChainMeaning(c, ns);
    assert forall m :: m in ms <==> m in multiset(ms);
    assert forall m :: m in ns <==> m in multiset(ns);
    var d := Chain(c, ms).dest;
    ByMembership(ms, c.dest, d);
    ByMembership(ns, c.dest, d);
    if !c.read {
      DefaultedUnique(ns, c.dest, d, Chain(c, ns).dest);
    }
  }
}
