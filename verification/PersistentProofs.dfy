/** What every run of a persistent subscription promises. */
module PersistentProofs {
  import opened Common
  import opened PersistentMachine
  import opened ServiceUri
  import S = StatusMachine

  // ---------------------------------------------------------------- pairing of tokens and handles

  /**
   Over any run, failed calls included: the cancels are the calls, in order, each on the handle that issued it;
   only the last call may lack its cancel, it is then the object's call, and no token is cancelled twice.
   */
  lemma TokenHandlePairing(es: seq<Event>)
    requires Possible(es)
    ensures Paired(Run(es))
  {
    Reachable(es);
    CallsArePaired(Run(es));
  }

  ghost predicate Paired(w: World) {
    var n := |w.calls.issued| - if w.call == 0 then 0 else 1;
    && |w.calls.cancels| == n
    && (forall i :: 0 <= i < n ==> w.calls.cancels[i] == Cancel(w.calls.issued[i].handle, w.calls.issued[i].token))
    && (w.call != 0 ==> w.calls.issued[n].token == w.call && w.calls.issued[n].handle == w.handle)
    && w.calls.live == (if w.call == 0 then {} else {w.call})
    && (forall i, j :: 0 <= i < j < n ==> w.calls.cancels[i].token != w.calls.cancels[j].token)
  }

  lemma CallsArePaired(w: World)
    requires CallsOk(w)
    ensures Paired(w)
  {
  }

  /** Without a registered watch there is no call: a status change is all that starts one. */
  lemma NoWatchNoCall(es: seq<Event>)
    requires Possible(es)
    ensures var w := Run(es);
      && (w.call != 0 ==> w.watches.bus.registered != map[])
      && (forall c :: c in w.watches.bus.registered ==>
            && w.watches.bus.registered[c].handle == w.handle
            && ServiceName(w.uri) == Some(w.watches.bus.registered[c].service)
            && w.watches.bus.registered[c].callback in w.watches.bus.heap)
      && (forall c, d :: c in w.watches.bus.registered && d in w.watches.bus.registered ==> c == d)
  {
    Reachable(es);
    var w := Run(es);
    if w.alive {
      assert S.Sound(w.watches.pool[OWN], w.watches.bus);
    }
  }

  /** A refused subscribe leaves nothing running; refused by validation it also leaves handle and URI as they were. */
  lemma RefusedLeavesIdle(es: seq<Event>, a: Args, watched: bool)
    requires Possible(es + [Subscribe(a, watched)]) && (Check(a) != Subscribed || !watched)
    ensures Idle(Run(es + [Subscribe(a, watched)]))
    ensures Possible(es) && (Check(a) != Subscribed ==>
      var (before, after) := (Run(es), Run(es + [Subscribe(a, watched)]));
      after.handle == before.handle && after.uri == before.uri && after.params == "" && after.handler == 0)
  {
    Unfold(es, Subscribe(a, watched));
    Reachable(es);
    StoppedKeeps(Run(es));
    if Check(a) == Subscribed {
      WatchKeeps(Stopped(Run(es)), a, watched);
    }
  }

  // ---------------------------------------------------------------- what subscribe accepts

  /** The URI has a service name: scheme "://" name "/" rest, the first "://", no slash in the name. */
  ghost predicate Names(uri: string, name: string) {
    exists scheme, rest :: Decomposes(uri, scheme, name, rest)
  }

  ghost predicate HasName(uri: string) {
    exists name :: Names(uri, name)
  }

  lemma HasNameIff(uri: string)
    ensures HasName(uri) <==> ServiceName(uri).Some?
    ensures forall name :: Names(uri, name) <==> ServiceName(uri) == Some(name)
  {
    forall name ensures Names(uri, name) <==> ServiceName(uri) == Some(name) {
      AcceptedIffDecomposes(uri, name);
    }
    if ServiceName(uri).Some? {
      assert Names(uri, ServiceName(uri).value);
    }
  }

  /** The outcome of the checks: the first condition that fails. */
  lemma OutcomeIs(a: Args)
    ensures Check(a) == NullHandle <==> a.handle == 0
    ensures Check(a) == NullHandler <==> a.handle != 0 && a.handler == 0
    ensures Check(a) == InvalidParams <==> a.handle != 0 && a.handler != 0 && a.params == None
    ensures Check(a) == InvalidUri <==> a.handle != 0 && a.handler != 0 && a.params != None && !HasName(a.uri)
    ensures Check(a) == Subscribed <==> a.handle != 0 && a.handler != 0 && a.params != None && HasName(a.uri)
  {
    HasNameIff(a.uri);
  }

  /**
   After any run, subscribe leaves a watch iff all its arguments are good and the bus takes the watch; it is then
   one watch on the given handle for the service named in the URI.
   */
  lemma SubscribeWatchesIff(es: seq<Event>, a: Args, watched: bool)
    requires Possible(es + [Subscribe(a, watched)])
    ensures var registered := Run(es + [Subscribe(a, watched)]).watches.bus.registered;
      && (registered != map[] <==> watched && a.handle != 0 && a.handler != 0 && a.params != None && HasName(a.uri))
      && (forall c :: c in registered ==> registered[c].handle == a.handle && Names(a.uri, registered[c].service))
  {
    var all := es + [Subscribe(a, watched)];
    Unfold(es, Subscribe(a, watched));
    Reachable(es);
    StoppedKeeps(Run(es));
    OutcomeIs(a);
    HasNameIff(a.uri);
    if Check(a) == Subscribed {
      WatchKeeps(Stopped(Run(es)), a, watched);
    }
  }

  lemma Unfold(es: seq<Event>, e: Event)
    requires Possible(es + [e])
    ensures Possible(es) && Enabled(Run(es), e) && Run(es + [e]) == Step(Run(es), e)
  {
    assert Front(es + [e]) == es && Last(es + [e]) == e;
  }

  // ---------------------------------------------------------------- the latest subscribe

  /** The arguments of the last subscribe, if nothing since ended it. */
  function Latest(es: seq<Event>): Option<Args> {
    if es == [] then None
    else match Last(es)
      case Subscribe(a, _) => Some(a)
      case CancelAll => None
      case Destroy => None
      case _ => Latest(Front(es))
  }

  ghost predicate Holds(w: World, a: Args) {
    && Check(a) == Subscribed
    && w.handle == a.handle && w.uri == a.uri && w.params == a.params.value && w.handler == a.handler
  }

  lemma {:induction false} HoldsLatest(es: seq<Event>)
    requires Possible(es)
    ensures Watching(Run(es)) ==> Latest(es).Some? && Holds(Run(es), Latest(es).value)
  {
    if es != [] {
      HoldsLatest(Front(es));
      Reachable(Front(es));
      if Watching(Run(es)) {
        HoldsStep(Run(Front(es)), Last(es));
      }
    }
  }

  /** A watch after an event is either that of a subscribe just made, or it and the fields are as before. */
  lemma HoldsStep(w: World, e: Event)
    requires Inv(w) && Enabled(w, e) && Watching(Step(w, e))
    ensures if e.Subscribe? then Holds(Step(w, e), e.args)
            else !Ends(e) && Watching(w) && forall a :: Holds(w, a) ==> Holds(Step(w, e), a)
  {
    if Ends(e) {
      StoppedKeeps(w);
      StepKeeps(w, e);
    }
  }

  /** Every call carries the handle, URI and parameters of the latest subscribe. */
  lemma CallUsesLatest(es: seq<Event>, token: Token)
    requires Possible(es + [Status(true, token, true)])
    ensures Possible(es) && Latest(es).Some? && Latest(es).value.params.Some?
    ensures var (before, after, a) := (Run(es), Run(es + [Status(true, token, true)]), Latest(es).value);
      after.calls.issued ==
          before.calls.issued + if before.call != 0 then [] else [Call(token, a.handle, a.uri, a.params.value)]
  {
    Unfold(es, Status(true, token, true));
    HoldsLatest(es);
  }

  ghost predicate Known(w: World, token: Token) {
    exists i :: 0 <= i < |w.calls.issued| && w.calls.issued[i].token == token
  }

  /** A token the bus still holds belongs to the subscribe under which it was issued. */
  lemma {:induction false} SameSubscribe(es: seq<Event>, k: nat, token: Token)
    requires Possible(es) && k < |es| && Possible(es[..k]) && Possible(es[..k + 1])
    requires es[k] == Status(true, token, true) && Run(es[..k]).call == 0
    ensures Known(Run(es), token)
    ensures token in Run(es).calls.live ==> Run(es).call == token && Latest(es) == Latest(es[..k])
  {
    Reachable(es);
    if k + 1 == |es| {
      assert es[..k] == Front(es) && es[..k + 1] == es;
      IssueIsKnown(Run(es[..k]), token);
    } else {
      assert Front(es)[..k] == es[..k] && Front(es)[..k + 1] == es[..k + 1];
      SameSubscribe(Front(es), k, token);
      var w := Run(Front(es));
      Reachable(Front(es));
      KnownStays(w, Last(es), token);
    }
  }

  lemma IssueIsKnown(w: World, token: Token)
    requires w.call == 0
    ensures var w' := Step(w, Status(true, token, true)); Known(w', token) && w'.call == token
  {
    var w' := Step(w, Status(true, token, true));
    assert w'.calls.issued[|w.calls.issued|].token == token;
  }

  ghost predicate Ends(e: Event) {
    e.Subscribe? || e.CancelAll? || e.Destroy?
  }

  lemma EndsCancels(w: World, e: Event)
    requires Inv(w) && Enabled(w, e) && Ends(e)
    ensures Step(w, e).calls.live == {} && Step(w, e).calls.issued == w.calls.issued
  {
    StoppedKeeps(w);
  }

  /** A known token is not given out again, and what ends a subscribe cancels it. */
  lemma KnownStays(w: World, e: Event, token: Token)
    requires Inv(w) && Enabled(w, e) && Known(w, token)
    ensures Known(Step(w, e), token)
    ensures token in Step(w, e).calls.live ==> token in w.calls.live && !Ends(e) && Step(w, e).call == w.call
  {
    if Ends(e) {
      EndsCancels(w, e);
    }
    var i :| 0 <= i < |w.calls.issued| && w.calls.issued[i].token == token;
    assert Step(w, e).calls.issued[i].token == token;
  }

  /** A response goes to the handler of the subscribe under which its call was issued, whatever happened in between. */
  lemma AnsweredByItsSubscriber(es: seq<Event>, k: nat, token: Token)
    requires Possible(es + [Response(token)]) && k < |es| && Possible(es[..k]) && Possible(es[..k + 1])
    requires es[k] == Status(true, token, true) && Run(es[..k]).call == 0
    ensures Possible(es) && Latest(es[..k]).Some?
    ensures Run(es + [Response(token)]).calls.served ==
        Run(es).calls.served + [Served(token, Latest(es[..k]).value.handler)]
  {
    Unfold(es, Response(token));
    SameSubscribe(es, k, token);
    HoldsLatest(es);
    Reachable(es);
  }

  // ---------------------------------------------------------------- reconnecting

  /** Status changes, and responses in between. */
  ghost predicate Quiet(tail: seq<Event>) {
    forall i :: 0 <= i < |tail| ==> tail[i].Response? || tail[i].Status?
  }

  /** The ups and downs among the events; a report of up whose call the bus refuses counts as none. */
  function Trace(tail: seq<Event>): seq<bool> {
    if tail == [] then [] else Trace(Front(tail)) + Report(Last(tail))
  }

  function Report(e: Event): seq<bool> {
    if e.Status? && (e.accepted || !e.up) then [e.up] else []
  }

  /** The positions at which the service comes up, having been down or not reported before. */
  function Rises(trace: seq<bool>): set<nat> {
    set i: nat | i < |trace| && RisesAt(trace, i)
  }

  predicate RisesAt(trace: seq<bool>, i: nat)
    requires i < |trace|
  {
    trace[i] && (i == 0 || !trace[i - 1])
  }

  predicate EndsUp(trace: seq<bool>) {
    trace != [] && Last(trace)
  }

  lemma RisesAppend(trace: seq<bool>, up: bool)
    ensures |Rises(trace + [up])| == |Rises(trace)| + if up && !EndsUp(trace) then 1 else 0
  {
    var t := trace + [up];
    forall i: nat ensures i in Rises(t) <==> i in Rises(trace) || (i == |trace| && up && !EndsUp(trace)) {
      if i < |trace| {
        assert t[i] == trace[i] && (i > 0 ==> t[i - 1] == trace[i - 1]);
      }
    }
    assert Rises(t) == Rises(trace) + if up && !EndsUp(trace) then {|trace|} else {};
  }

  ghost predicate Reconnected(before: seq<Call>, after: World, a: Args, trace: seq<bool>)
    requires Check(a) == Subscribed
  {
    var n := |before|;
    && |after.calls.issued| == n + |Rises(trace)|
    && after.calls.issued[..n] == before
    && (forall i :: n <= i < |after.calls.issued| ==> IsCallOf(after.calls.issued[i], a))
    && after.calls.live == (if EndsUp(trace) then {after.call} else {})
    && (after.call != 0 <==> EndsUp(trace))
    && Holds(after, a)
  }

  predicate IsCallOf(c: Call, a: Args)
    requires Check(a) == Subscribed
  {
    c == Call(c.token, a.handle, a.uri, a.params.value)
  }

  /**
   Reconnecting: after any run, a successful subscribe and then any status changes, repeats included: one call per
   rising edge, all with the arguments of that subscribe, and a call is live exactly when the last report was up.
   An up report whose call the bus refuses is as good as not made, so the next one calls again.
   */
  lemma {:induction false} ReconnectTrace(es: seq<Event>, a: Args, tail: seq<Event>)
    requires Check(a) == Subscribed && Quiet(tail)
    requires Possible(es) && Possible(es + [Subscribe(a, true)] + tail)
    ensures Reconnected(Run(es).calls.issued, Run(es + [Subscribe(a, true)] + tail), a, Trace(tail))
  {
    var run := es + [Subscribe(a, true)] + tail;
    if tail == [] {
      assert run == es + [Subscribe(a, true)];
      Unfold(es, Subscribe(a, true));
      Reachable(es);
      ReconnectStart(Run(es), a);
    } else {
      var front := es + [Subscribe(a, true)] + Front(tail);
      assert run == front + [Last(tail)];
      Unfold(front, Last(tail));
      ReconnectTrace(es, a, Front(tail));
      Reachable(front);
      StepKeeps(Run(front), Last(tail));
      ReconnectStep(Run(es).calls.issued, Run(front), Last(tail), a, Trace(Front(tail)));
    }
  }

  lemma ReconnectStart(w: World, a: Args)
    requires Inv(w) && w.alive && Check(a) == Subscribed
    ensures Reconnected(w.calls.issued, Step(w, Subscribe(a, true)), a, [])
  {
    StoppedKeeps(w);
    SameIssues(w);
    WatchStarts(Stopped(w), a);
  }

  lemma SameIssues(w: World)
    requires OWN in w.watches.pool
    ensures Stopped(w).calls.issued == w.calls.issued
  {
  }

  lemma WatchStarts(w: World, a: Args)
    requires OWN in w.watches.pool && w.call == 0 && w.calls.live == {} && Check(a) == Subscribed
    ensures Reconnected(w.calls.issued, Watch(w, a, true), a, [])
  {
    assert Rises([]) == {};
  }

  /** One more event: the report, if it counts, is appended to the trace. */
  lemma ReconnectStep(before: seq<Call>, w: World, e: Event, a: Args, trace: seq<bool>)
    requires (e.Response? || e.Status?) && Enabled(w, e) && CallsOk(w) && CallsOk(Step(w, e))
    requires Check(a) == Subscribed && Reconnected(before, w, a, trace)
    ensures Reconnected(before, Step(w, e), a, trace + Report(e))
  {
    StatusStep(w, e, a);
    if Report(e) != [] {
      RisesAppend(trace, e.up);
    } else {
      assert trace + [] == trace;
    }
  }

  lemma StatusStep(w: World, e: Event, a: Args)
    requires CallsOk(w) && Enabled(w, e) && Holds(w, a) && (e.Response? || e.Status?)
    ensures var w' := Step(w, e);
      && Holds(w', a)
      && (w'.call != 0 <==> if Report(e) != [] then e.up else w.call != 0)
      && w'.calls.issued == w.calls.issued +
         if Report(e) == [true] && w.call == 0 then [Call(e.token, a.handle, a.uri, a.params.value)] else []
  {
  }

  /**
   Whether the service counts as active once subscribe has returned, when the watch reports inside it: exactly when
   the last of those reports was up. So it is inactive right after subscribe iff none came or the last was down.
   */
  lemma ActiveAfterSubscribeIff(es: seq<Event>, a: Args, inside: seq<Event>)
    requires Check(a) == Subscribed && Quiet(inside)
    requires Possible(es) && Possible(es + [Subscribe(a, true)] + inside)
    ensures Run(es + [Subscribe(a, true)] + inside).call != 0 <==> EndsUp(Trace(inside))
  {
    ReconnectTrace(es, a, inside);
  }

  /** From the start: a service that is already up makes the subscription active inside subscribe. */
  lemma ActiveAfterSubscribeExample(a: Args)
    requires Check(a) == Subscribed
    ensures var es := [Subscribe(a, true), Status(true, 1, true)];
      Possible(es) && Run(es).call == 1
  {
    var subscribe, up := Subscribe(a, true), Status(true, 1, true);
    assert Front([subscribe]) == [] && Last([subscribe]) == subscribe;
    assert Front([subscribe, up]) == [subscribe] && Last([subscribe, up]) == up;
    FirstSubscribe(a);
  }

  lemma FirstSubscribe(a: Args)
    requires Check(a) == Subscribed
    ensures var w := Step(INITIAL, Subscribe(a, true));
      Watching(w) && w.call == 0 && w.calls.issued == []
  {
    Reachable([]);
    StoppedKeeps(INITIAL);
    SameIssues(INITIAL);
    WatchKeeps(Stopped(INITIAL), a, true);
  }
}
