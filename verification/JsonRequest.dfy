/** A request as a reference-counted object, each operation proved to be one step of the protocol. */
module JsonRequests {
  import opened Common
  import opened RequestMachine

  /** The bus message: what has been responded to its sender. */
  class Message {
    var replies: seq<Reply>

    constructor ()
      ensures replies == []
    {
      replies := [];
    }
  }

  datatype Payload = Conforming | SchemaViolation | MalformedText

  class JsonRequest {
    const mMessage: Message
    var mDeferred: bool
    var mResponded: bool
    var handlerReference: bool
    var functionReferences: nat
    ghost var destroyed: bool

    ghost function View(): Request
      reads this, mMessage
    {
      Request(if handlerReference then Running else if destroyed then Destroyed else Finished,
              mDeferred, mResponded, functionReferences, mMessage.replies)
    }

    constructor (message: Message)
      requires message.replies == []
      ensures View() == INITIAL && mMessage == message && !destroyed
    {
      mMessage, mDeferred, mResponded := message, false, true;
      handlerReference, functionReferences, destroyed := true, 0, false;
    }

    /** Sends a response; refuses what is neither an object nor true, and reports a bus failure. */
    method Respond(response: Body, busOk: bool) returns (thrown: bool)
      modifies this`mResponded, mMessage
      ensures View() == Responded(old(View()), response, busOk)
      ensures !thrown ==> mMessage.replies == old(mMessage.replies) + [Answer(response)] && mResponded
      ensures thrown ==> mMessage.replies == old(mMessage.replies) && mResponded == old(mResponded)
      ensures thrown <==> !busOk || (!response.Object? && response != True)
    {
      if response.NotAResponse? {
        return true;
      }
      if !busOk {
        return true;
      }
      mMessage.replies := mMessage.replies + [Answer(response)];
      mResponded := true;
      thrown := false;
    }

    /** A second call is only logged; it defers all the same. */
    method DeferResponse()
      requires Enabled(View(), Defer)
      modifies this`mDeferred, this`functionReferences
      ensures View() == Step(old(View()), Defer)
    {
      mDeferred := true;
      functionReferences := functionReferences + 1;
    }

    method CopyFunction()
      requires Enabled(View(), Copy)
      modifies this`functionReferences
      ensures View() == Step(old(View()), Copy)
    {
      functionReferences := functionReferences + 1;
    }

    method InvokeFunction(response: Body, busOk: bool) returns (thrown: bool)
      requires Enabled(View(), Invoke(response, busOk))
      modifies this`mResponded, mMessage
      ensures View() == Step(old(View()), Invoke(response, busOk))
      ensures thrown <==> !busOk || (!response.Object? && response != True)
    {
      thrown := Respond(response, busOk);
    }

    method ReleaseFunction()
      requires Enabled(View(), Release) && !destroyed
      modifies this`functionReferences, this`destroyed, mMessage
      ensures View() == Step(old(View()), Release)
      ensures handlerReference ==> !destroyed
    {
      functionReferences := functionReferences - 1;
      DropReference();
    }

    /** The rule of a shared pointer: the last reference runs the destructor. */
    method DropReference()
      requires !destroyed
      modifies this`destroyed, mMessage
      ensures View() == Dropped(old(View()))
      ensures handlerReference ==> !destroyed
    {
      if !handlerReference && functionReferences == 0 {
        if !mResponded {
          mMessage.replies := mMessage.replies + [NoReplyError];
        }
        destroyed := true;
      }
    }

    /** One action of the handler on its request. */
    method Act(a: Action)
      requires !a.End? && handlerReference && !destroyed && Enabled(View(), a)
      modifies this`mDeferred, this`mResponded, this`functionReferences, this`destroyed, mMessage
      ensures View() == Step(old(View()), a)
      ensures !destroyed
    {
      match a
      case Defer => DeferResponse();
      case Copy => CopyFunction();
      case Invoke(body, busOk) => var _ := InvokeFunction(body, busOk);
      case Release => ReleaseFunction();
    }

    /**
     handleLunaCall. The handler is given by the actions it performs on the request and the way it ends.
     The result is None when the response of a catch clause fails and its exception escapes.
     */
    static method HandleLunaCall(message: Message, payload: Payload, script: seq<Action>, outcome: Outcome, busOk: bool)
      returns (handled: Option<bool>, request: JsonRequest?)
      requires message.replies == []
      requires Possible(script) && Run(script).phase.Running?
      modifies message
      ensures payload == MalformedText ==>
        request == null && message.replies == if busOk then [MalformedError] else []
      ensures payload == SchemaViolation ==>
        request == null && message.replies == if busOk then [ValidationError] else []
      ensures payload == Conforming ==>
        && request != null && request.mMessage == message
        && request.View() == Step(Run(script), End(outcome, busOk))
        && message.replies == AllSent(script + [End(outcome, busOk)]) +
           if Held(script) == 0 && StockDue(script + [End(outcome, busOk)]) then [NoReplyError] else []
      ensures handled == Some(false) <==>
        && payload == Conforming
        && (outcome.ThrowsStdException? || outcome.ThrowsUnknown? ||
            (&& outcome.Returns? && !DeferredBefore(script, |script|)
             && !(busOk && (outcome.body.Object? || outcome.body == True))))
      ensures handled == None <==>
        !busOk && (payload != Conforming || outcome.ThrowsParseError? || outcome.ThrowsErrorResponse?)
    {
      request := null;
      if payload != Conforming {
        if busOk {
          message.replies := message.replies + [if payload == MalformedText then MalformedError else ValidationError];
        }
        return if busOk then Some(true) else None, null;
      }

      var r := new JsonRequest(message);
      request := r;
      r.RunHandler(script);
      Flags(script);
      handled := r.FinishHandler(outcome, busOk);
      EndOfHandler(script, outcome, busOk);
    }

    /** What the handler does with its request before it ends. */
    method RunHandler(script: seq<Action>)
      requires View() == INITIAL && !destroyed
      requires Possible(script) && Run(script).phase.Running?
      modifies this`mDeferred, this`mResponded, this`functionReferences, this`destroyed, mMessage
      ensures View() == Run(script) && handlerReference && !destroyed
    {
      var i := 0;
      Flags(script);
      assert script[..0] == [];
      while i < |script|
        invariant i <= |script| && handlerReference && !destroyed
        invariant Possible(script[..i]) && View() == Run(script[..i])
      {
        PrefixPossible(script, i + 1);
        assert Front(script[..i + 1]) == script[..i] && Last(script[..i + 1]) == script[i];
        Act(script[i]);
        i := i + 1;
      }
      assert script[..i] == script;
    }

    /** The rest of the try block and the catch clauses, then the release of the local reference. */
    method FinishHandler(outcome: Outcome, busOk: bool) returns (handled: Option<bool>)
      requires handlerReference && !destroyed
      modifies this, mMessage
      ensures View() == Step(old(View()), End(outcome, busOk))
      ensures handled == Some(false) <==>
        || outcome.ThrowsStdException? || outcome.ThrowsUnknown?
        || (outcome.Returns? && !old(mDeferred) && !(busOk && (outcome.body.Object? || outcome.body == True)))
      ensures handled == None <==> !busOk && (outcome.ThrowsParseError? || outcome.ThrowsErrorResponse?)
    {
      handled := Some(true);
      match outcome {
        case Returns(result) =>
          if !mDeferred {
            var thrown := Respond(result, busOk);
            if thrown {
              handled := Some(false);
            }
          } else {
            mResponded := false;
          }
        case ThrowsParseError =>
          handled := RespondError(ValidationError, busOk);
        case ThrowsErrorResponse(code) =>
          handled := RespondError(HandlerError(code), busOk);
        case ThrowsStdException =>
          handled := Some(false);
        case ThrowsUnknown =>
          handled := Some(false);
      }
      handlerReference := false;
      DropReference();
    }

    /** The response of a catch clause, sent on the message itself. */
    method RespondError(reply: Reply, busOk: bool) returns (handled: Option<bool>)
      modifies mMessage
      ensures mMessage.replies == if busOk then old(mMessage.replies) + [reply] else old(mMessage.replies)
      ensures handled == if busOk then Some(true) else None
    {
      if busOk {
        mMessage.replies := mMessage.replies + [reply];
        return Some(true);
      }
      handled := None;
    }
  }

  lemma {:induction false} PrefixPossible(es: seq<Action>, i: nat)
    requires Possible(es) && i <= |es|
    ensures Possible(es[..i])
  {
    if i == |es| {
      assert es[..i] == es;
    } else {
      PrefixPossible(Front(es), i);
      assert Front(es)[..i] == es[..i];
    }
  }

  lemma EndOfHandler(script: seq<Action>, outcome: Outcome, busOk: bool)
    requires Possible(script) && Run(script).phase.Running?
    ensures var all := script + [End(outcome, busOk)];
      Step(Run(script), End(outcome, busOk)).log ==
      AllSent(all) + if Held(script) == 0 && StockDue(all) then [NoReplyError] else []
  {
    var e := End(outcome, busOk);
    var all := script + [e];
    assert Front(all) == script && Last(all) == e;
    assert all[|script|].End?;
    RepliesExact(all);
  }
}
