/**
 The response protocol of one request whose payload passed validation: the handler runs, may defer, and the
 deferred function may be copied, invoked and released in any order, during the handler or long after it.
 */
module RequestMachine {
  import opened Common

  /** A response value: a JSON object, the boolean true, or anything else, which is refused. */
  datatype Body = Object(content: nat) | True | NotAResponse

  datatype Reply = Answer(body: Body) | ValidationError | HandlerError(code: int) | MalformedError | NoReplyError

  datatype Outcome =
    | Returns(body: Body)
    | ThrowsParseError
    | ThrowsErrorResponse(code: int)
    | ThrowsStdException
    | ThrowsUnknown

  /** busOk says whether the bus accepts a response sent in this step. */
  datatype Action = Defer | Copy | Invoke(body: Body, busOk: bool) | Release | End(outcome: Outcome, busOk: bool)

  datatype Phase = Running | Finished | Destroyed

  /** functions counts the live copies of deferred functions; each holds a reference to the request. */
  datatype Request = Request(phase: Phase, deferred: bool, responded: bool, functions: nat, log: seq<Reply>)

  predicate Sendable(body: Body, busOk: bool) {
    !body.NotAResponse? && busOk
  }

  function Responded(r: Request, body: Body, busOk: bool): Request {
    if Sendable(body, busOk) then r.(log := r.log + [Answer(body)], responded := true) else r
  }

  /** Dropping a reference; the last one runs the destructor, which sends the stock error if nothing was sent. */
  function Dropped(r: Request): Request {
    if r.phase.Finished? && r.functions == 0 then
      r.(phase := Destroyed, log := if r.responded then r.log else r.log + [NoReplyError])
    else r
  }

  /** The request as handed to the handler: flagged as responded, for the exception cases. */
  const INITIAL := Request(Running, false, true, 0, [])

  predicate Enabled(r: Request, a: Action) {
    match a
    case Defer => r.phase.Running?
    case End(_, _) => r.phase.Running?
    case _ => r.functions > 0
  }

  function Step(r: Request, a: Action): Request
    requires Enabled(r, a)
  {
    match a
    case Defer => r.(deferred := true, functions := r.functions + 1)
    case Copy => r.(functions := r.functions + 1)
    case Invoke(body, busOk) => Responded(r, body, busOk)
    case Release => Dropped(r.(functions := r.functions - 1))
    case End(outcome, busOk) =>
      var replied :=
        match outcome
        case Returns(body) => if r.deferred then r.(responded := false) else Responded(r, body, busOk)
        case ThrowsParseError => if busOk then r.(log := r.log + [ValidationError]) else r
        case ThrowsErrorResponse(code) => if busOk then r.(log := r.log + [HandlerError(code)]) else r
        case _ => r;
      Dropped(replied.(phase := Finished))
  }

  predicate Possible(es: seq<Action>)
    decreases |es|, 0
  {
    es == [] || (Possible(Front(es)) && Enabled(Run(Front(es)), Last(es)))
  }

  function Run(es: seq<Action>): Request
    requires Possible(es)
    decreases |es|, 1
  {
    if es == [] then INITIAL else Step(Run(Front(es)), Last(es))
  }

  // ---------------------------------------------------------------- the trace, read declaratively

  /** An invocation with an object or true that the bus takes. */
  predicate Succeeds(a: Action) {
    a.Invoke? && a.busOk && (a.body.Object? || a.body == True)
  }

  ghost predicate DeferredBefore(es: seq<Action>, i: int)
    requires i <= |es|
  {
    exists j :: 0 <= j < i && es[j] == Defer
  }

  /** The handler deferred, then returned normally, at position i. */
  ghost predicate ReturnedDeferred(es: seq<Action>, i: int) {
    0 <= i < |es| && es[i].End? && es[i].outcome.Returns? && DeferredBefore(es, i)
  }

  /** The handler deferred and returned normally, and no invocation has succeeded since. */
  ghost predicate StockDue(es: seq<Action>) {
    exists i :: ReturnedDeferred(es, i) && forall k :: i < k < |es| ==> !Succeeds(es[k])
  }

  /** End of the handler that itself puts a reply on the bus. */
  predicate RepliesAtEnd(a: Action, deferred: bool) {
    a.End? &&
    match a.outcome
    case Returns(body) => !deferred && a.busOk && (body.Object? || body == True)
    case ThrowsParseError => a.busOk
    case ThrowsErrorResponse(_) => a.busOk
    case _ => false
  }

  // ---------------------------------------------------------------- every run

  lemma {:induction false} Flags(es: seq<Action>)
    requires Possible(es)
    ensures var r := Run(es);
      && (r.deferred <==> DeferredBefore(es, |es|))
      && (r.phase.Running? <==> forall j :: 0 <= j < |es| ==> !es[j].End?)
  {
    if es != [] {
      Flags(Front(es));
      assert forall i :: 0 <= i < |es| - 1 ==> es[i] == Front(es)[i];
      BeforePrefix(es, |es| - 1);
      if Last(es) == Defer {
        assert es[|es| - 1] == Defer;
      }
    }
  }

  lemma BeforePrefix(es: seq<Action>, i: nat)
    requires i < |es|
    ensures DeferredBefore(es, i) <==> DeferredBefore(Front(es), i)
  {
    if j :| 0 <= j < i && es[j] == Defer {
      assert Front(es)[j] == Defer;
    }
    if j :| 0 <= j < i && Front(es)[j] == Defer {
      assert es[j] == Defer;
    }
  }

  lemma DueStep(es: seq<Action>)
    requires Possible(es) && es != []
    ensures var r := Run(Front(es));
      StockDue(es) <==> if Last(es).End? then Last(es).outcome.Returns? && r.deferred
                        else StockDue(Front(es)) && !Succeeds(Last(es))
  {
    var n := |es| - 1;
    Flags(Front(es));
    ReturnedBefore(es);
    if es[n].End? {
      assert forall i :: 0 <= i < n ==> !Front(es)[i].End?;
      BeforePrefix(es, n);
      if es[n].outcome.Returns? && Run(Front(es)).deferred {
        assert ReturnedDeferred(es, n);
      }
    } else {
      DueBefore(es);
    }
  }

  lemma ReturnedBefore(es: seq<Action>)
    requires es != []
    ensures forall i :: 0 <= i < |es| - 1 ==> (ReturnedDeferred(es, i) <==> ReturnedDeferred(Front(es), i))
  {
    forall i | 0 <= i < |es| - 1 ensures ReturnedDeferred(es, i) <==> ReturnedDeferred(Front(es), i) {
      BeforePrefix(es, i);
    }
  }

  lemma DueBefore(es: seq<Action>)
    requires es != [] && !Last(es).End?
    ensures StockDue(es) <==> StockDue(Front(es)) && !Succeeds(Last(es))
  {
    var p, n := Front(es), |es| - 1;
    ReturnedBefore(es);
    assert forall i :: 0 <= i < n ==> es[i] == p[i];
    if StockDue(p) && !Succeeds(es[n]) {
      var i :| ReturnedDeferred(p, i) && forall k :: i < k < n ==> !Succeeds(p[k]);
      assert ReturnedDeferred(es, i);
    }
    if StockDue(es) {
      var i :| ReturnedDeferred(es, i) && forall k :: i < k < |es| ==> !Succeeds(es[k]);
      assert ReturnedDeferred(p, i);
      assert forall k :: i < k < n ==> p[k] == es[k];
    }
  }

  /** The flag that decides about the stock error says what the trace says. */
  lemma {:induction false} RespondedMeaning(es: seq<Action>)
    requires Possible(es)
    ensures !Run(es).responded <==> StockDue(es)
  {
    if es != [] {
      RespondedMeaning(Front(es));
      DueStep(es);
      Flags(Front(es));
      if Last(es).End? {
        assert !StockDue(Front(es));
      }
    }
  }

  /** The request lives exactly as long as the handler or some deferred function holds it. */
  lemma {:induction false} Lifetime(es: seq<Action>)
    requires Possible(es)
    ensures Run(es).phase.Destroyed? <==> !Run(es).phase.Running? && Run(es).functions == 0
  {
    if es != [] {
      Lifetime(Front(es));
    }
  }

  /**
   The stock "no reply" error: sent, by the destructor only, once, as the last reply, and exactly when the
   handler returned normally after deferring and no deferred response succeeded after that.
   */
  lemma {:induction false} StockErrorIff(es: seq<Action>)
    requires Possible(es)
    ensures NoReplyError in Run(es).log <==> Run(es).phase.Destroyed? && StockDue(es)
    ensures forall i :: 0 <= i < |Run(es).log| && Run(es).log[i] == NoReplyError ==> i == |Run(es).log| - 1
  {
    if es != [] {
      StockErrorIff(Front(es));
      RespondedMeaning(es);
      Lifetime(Front(es));
      StockStep(Run(Front(es)), Last(es));
    }
  }

  /** Only the step that destroys the request can send the stock error, as the last reply. */
  lemma StockStep(r: Request, a: Action)
    requires Enabled(r, a) && !r.phase.Destroyed? && NoReplyError !in r.log
    ensures var r' := Step(r, a);
      && (NoReplyError in r'.log <==> r'.phase.Destroyed? && !r'.responded)
      && (forall i :: 0 <= i < |r'.log| && r'.log[i] == NoReplyError ==> i == |r'.log| - 1)
  {
  }

  // ---------------------------------------------------------------- the replies, read off the trace

  /** What an action itself puts on the bus, given whether the handler has deferred. */
  function Sent(a: Action, deferred: bool): seq<Reply> {
    match a
    case Invoke(Object(n), true) => [Answer(Object(n))]
    case Invoke(True, true) => [Answer(True)]
    case End(Returns(Object(n)), true) => if deferred then [] else [Answer(Object(n))]
    case End(Returns(True), true) => if deferred then [] else [Answer(True)]
    case End(ThrowsParseError, true) => [ValidationError]
    case End(ThrowsErrorResponse(code), true) => [HandlerError(code)]
    case _ => []
  }

  ghost function AllSent(es: seq<Action>): seq<Reply> {
    if es == [] then [] else AllSent(Front(es)) + Sent(Last(es), DeferredBefore(es, |es| - 1))
  }

  /** Copies of deferred functions alive: made by defer or by copying, less those released. */
  function Held(es: seq<Action>): int {
    if es == [] then 0
    else match Last(es)
      case Defer => Held(Front(es)) + 1
      case Copy => Held(Front(es)) + 1
      case Release => Held(Front(es)) - 1
      case _ => Held(Front(es))
  }

  predicate Ended(es: seq<Action>) {
    exists i :: 0 <= i < |es| && es[i].End?
  }

  lemma {:induction false} HeldIsCount(es: seq<Action>)
    requires Possible(es)
    ensures Run(es).functions == Held(es)
  {
    if es != [] {
      HeldIsCount(Front(es));
    }
  }

  /**
   Every reply of every run, in order: what the actions sent, and last the stock error, if the handler has ended,
   all copies are released, and the stock error is due.
   */
  lemma {:induction false} RepliesExact(es: seq<Action>)
    requires Possible(es)
    ensures Run(es).log == AllSent(es) + if Ended(es) && Held(es) == 0 && StockDue(es) then [NoReplyError] else []
  {
    if es != [] {
      RepliesExact(Front(es));
      DestroyedIff(Front(es));
      DestroyedIff(es);
      Lifetime(Front(es));
      DeferredLast(es);
      SentByStep(Run(Front(es)), Last(es));
    }
  }

  lemma DestroyedIff(es: seq<Action>)
    requires Possible(es)
    ensures Run(es).phase.Destroyed? <==> Ended(es) && Held(es) == 0
    ensures !Run(es).responded <==> StockDue(es)
  {
    Lifetime(es);
    Flags(es);
    HeldIsCount(es);
    RespondedMeaning(es);
  }

  lemma DeferredLast(es: seq<Action>)
    requires Possible(es) && es != []
    ensures Run(Front(es)).deferred <==> DeferredBefore(es, |es| - 1)
  {
    Flags(Front(es));
    BeforePrefix(es, |es| - 1);
  }

  lemma SentByStep(r: Request, a: Action)
    requires Enabled(r, a) && !r.phase.Destroyed?
    ensures var r' := Step(r, a);
      r'.log == r.log + Sent(a, r.deferred) + if r'.phase.Destroyed? && !r'.responded then [NoReplyError] else []
  {
  }

  /** Some invocation of a deferred function has succeeded. */
  ghost predicate Answered(es: seq<Action>) {
    exists k :: 0 <= k < |es| && Succeeds(es[k])
  }

  /** The end of the handler put a reply on the bus. */
  ghost predicate EndReplied(es: seq<Action>) {
    exists i :: EndRepliedAt(es, i)
  }

  ghost predicate EndRepliedAt(es: seq<Action>, i: int) {
    0 <= i < |es| && RepliesAtEnd(es[i], DeferredBefore(es, i))
  }

  lemma AnsweredStep(es: seq<Action>)
    requires es != []
    ensures Answered(es) <==> Answered(Front(es)) || Succeeds(Last(es))
  {
    assert forall i :: 0 <= i < |es| - 1 ==> es[i] == Front(es)[i];
  }

  lemma EndRepliedStep(es: seq<Action>)
    requires Possible(es) && es != []
    ensures EndReplied(es) <==> EndReplied(Front(es)) || RepliesAtEnd(Last(es), Run(Front(es)).deferred)
  {
    var p, n := Front(es), |es| - 1;
    Flags(p);
    assert forall i :: 0 <= i < n ==> es[i] == p[i];
    BeforePrefix(es, n);
    forall i | 0 <= i < n ensures EndRepliedAt(es, i) <==> EndRepliedAt(p, i) {
      BeforePrefix(es, i);
    }
    assert EndRepliedAt(es, n) <==> RepliesAtEnd(es[n], Run(p).deferred);
    if i :| EndRepliedAt(p, i) {
      assert EndRepliedAt(es, i);
    }
  }

  /** The three ways a step puts a first reply on the bus. */
  lemma LogStep(r: Request, a: Action)
    requires Enabled(r, a) && !r.phase.Destroyed?
    ensures var r' := Step(r, a);
      r'.log == [] <==>
      r.log == [] && !Succeeds(a) && !RepliesAtEnd(a, r.deferred) && !(r'.phase.Destroyed? && !r'.responded)
  {
  }

  /** When a caller is left without any reply. A request that was deferred and then returned normally never is. */
  lemma {:induction false} SilentIff(es: seq<Action>)
    requires Possible(es)
    ensures Run(es).log == [] <==>
            !Answered(es) && !EndReplied(es) && !(Run(es).phase.Destroyed? && StockDue(es))
  {
    RespondedMeaning(es);
    if es != [] {
      SilentIff(Front(es));
      AnsweredStep(es);
      EndRepliedStep(es);
      Lifetime(Front(es));
      LogStep(Run(Front(es)), Last(es));
    }
  }

  /** A run that leaves the caller without a reply: not deferred, and the value returned is no response. */
  lemma SilentExample()
    ensures var es := [End(Returns(NotAResponse), true)];
      Possible(es) && Run(es).phase.Destroyed? && Run(es).log == []
  {
    var a := End(Returns(NotAResponse), true);
    assert Front([a]) == [] && Last([a]) == a && Run([]) == INITIAL;
  }

  lemma DeferredIsAnswered(es: seq<Action>, i: int)
    requires Possible(es) && Run(es).phase.Destroyed? && ReturnedDeferred(es, i)
    ensures Run(es).log != []
  {
    SilentIff(es);
    if !Answered(es) {
      assert forall k :: i < k < |es| ==> !Succeeds(es[k]);
      assert StockDue(es);
    }
  }

  /**
   The stock error can follow a real answer: a response sent while the handler is still running is forgotten
   when the handler returns. It happens exactly when no later response succeeds.
   */
  lemma AnswerThenStockError(es: seq<Action>)
    requires Possible(es) && Run(es).phase.Destroyed?
    ensures (NoReplyError in Run(es).log && Answered(es)) <==> exists i, k :: Shadowed(es, i, k)
  {
    StockErrorIff(es);
    DueAndAnswered(es);
  }

  /** The response at k succeeded before the deferred return at i, and none did after it. */
  ghost predicate Shadowed(es: seq<Action>, i: int, k: int) {
    && ReturnedDeferred(es, i) && 0 <= k < i && Succeeds(es[k])
    && forall m :: i < m < |es| ==> !Succeeds(es[m])
  }

  lemma DueAndAnswered(es: seq<Action>)
    ensures (StockDue(es) && Answered(es)) <==> exists i, k :: Shadowed(es, i, k)
  {
    if StockDue(es) && Answered(es) {
      var i :| ReturnedDeferred(es, i) && forall m :: i < m < |es| ==> !Succeeds(es[m]);
      var k :| 0 <= k < |es| && Succeeds(es[k]);
      assert Shadowed(es, i, k);
    }
  }

  /** A run of that kind. */
  lemma ShadowedAnswerExample()
    ensures var es := [Defer, Invoke(True, true), End(Returns(True), true), Release];
      Possible(es) && Run(es).log == [Answer(True), NoReplyError]
  {
    var a, b, c, d := Defer, Invoke(True, true), End(Returns(True), true), Release;
    assert Front([a]) == [] && Front([a, b]) == [a] && Front([a, b, c]) == [a, b] && Front([a, b, c, d]) == [a, b, c];
    assert Run([]) == INITIAL;
    assert Run([a]) == Request(Running, true, true, 1, []);
    assert Run([a, b]) == Request(Running, true, true, 1, [Answer(True)]);
    assert Run([a, b, c]) == Request(Finished, true, false, 1, [Answer(True)]);
  }
}
