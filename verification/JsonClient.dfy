/** A client of the parser: construct it, run get expressions, finish. */
module JsonClients {
  import opened Common
  import opened JsonDecoding
  import opened JsonSpec
  import opened JsonExactness
  import opened JsonParsers

  /**
   The statement `parser.getArray(name, destination)`. On an array, the destination ends with one slot per element;
   an error stored before stays, otherwise the stored error is the first failing element's, if any fails.
   */
  method ParseArray(env: Env, p: JsonParser, name: string, element: Shape, destination: Cell)
    requires p.Valid()
    modifies p`parseError, p`recorded, p`numberOfFields, destination
    ensures p.Valid()
    ensures old(p.parseError).Some? ==> p.parseError == old(p.parseError)
    ensures Lookup(p.jsonValue, name).JArr? ==>
      WholeArrayRead(env, name, element, Lookup(p.jsonValue, name).items, destination.value,
                     old(p.parseError), p.parseError)
  {
    var c := p.GetArray(env, name, element, destination);
    p.EndStatement(c, old(p.recorded), c.View());
    var v := Lookup(p.jsonValue, name);
    if v.JArr? {
      ArrayValue(env, p.jsonValue, name, element, old(destination.value));
      ElementsOneByOne(env, name, element, v.items);
      forall i | FirstFails(env, name, element, v.items, i)
        ensures Elements(env, name, element, v.items).1 != []
        ensures Elements(env, name, element, v.items).1[0] == Element(env, name, element, v.items[i]).errors[0]
      {
        FirstFailingElement(env, name, element, v.items, i);
      }
    }
  }

  /** What getArray makes of an array: the slots, and the stored error before and after. */
  ghost predicate WholeArrayRead(env: Env, name: string, element: Shape, items: seq<JValue>, value: Value,
                            before: Option<ParseError>, after: Option<ParseError>) {
    && value.VArr? && |value.items| == |items|
    && (forall i :: 0 <= i < |items| ==> value.items[i] == Element(env, name, element, items[i]).dest)
    && (before.None? ==>
          && (after.None? <==> forall i :: 0 <= i < |items| ==> Element(env, name, element, items[i]).errors == [])
          && forall i :: FirstFails(env, name, element, items, i) ==>
               after == Some(Element(env, name, element, items[i]).errors[0]))
  }

  /** Succeeds exactly when some destinations satisfy the field list, and then leaves those. */
  method ParseDocument(env: Env, json: JValue, fields: seq<Field>, start: map<string, Value>, strict: bool)
    returns (ok: bool, slots: map<string, Value>, error: Option<ParseError>)
    requires WellFormedFields(fields)
    ensures ok ==> Satisfied(env, json, fields, strict, start, slots)
    ensures !ok ==> forall other :: !Satisfied(env, json, fields, strict, start, other)
    ensures ok ==> forall other :: Satisfied(env, json, fields, strict, start, other) ==> other == slots
    ensures ok <==> error == None
    ensures StoredError(env, json, fields, strict, start, error)
  {
    var p := new JsonParser(json);
    slots := p.RunRequests(env, fields, start);
    ok := p.FinishParse(strict);
    error := p.parseError;
    if !json.JInvalid? {
      StoredErrorIs(env, json, fields, strict, start);
    }
    forall other
      ensures Satisfied(env, json, fields, strict, start, other) <==> ok && other == slots
    {
      ParserExact(env, fields, strict, json, start, other);
    }
  }
}
