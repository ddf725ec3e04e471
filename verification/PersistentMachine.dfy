/**
 A subscription that follows its service up and down. One object, its watch on the service status, and the
 bus as it sees it. Zero is the null pointer and the invalid token.
 */
module PersistentMachine {
  import opened Common
  import opened ServiceUri
  import S = StatusMachine

  type Token = nat

  /** The arguments of subscribe; params is absent when not a valid JSON value, else its serialized text. */
  datatype Args = Args(handle: nat, uri: string, params: Option<string>, handler: nat)

  /** A call as the bus received it. */
  datatype Call = Call(token: Token, handle: nat, uri: string, params: string)

  datatype Cancel = Cancel(handle: nat, token: Token)

  /** A response and the handler that got it. */
  datatype Served = Served(token: Token, handler: nat)

  datatype CallBus = CallBus(issued: seq<Call>, live: set<Token>, cancels: seq<Cancel>, served: seq<Served>)

  datatype World = World(
    alive: bool, handle: nat, call: Token, uri: string, params: string, handler: nat,
    watches: S.World, calls: CallBus)

  datatype Event =
    | Subscribe(args: Args, watched: bool)
    | Status(up: bool, token: Token, accepted: bool)
    | Response(token: Token)
    | CancelAll
    | Destroy

  /** The object's own watch in the pool of watches. */
  const OWN: nat := 0

  const INITIAL := World(true, 0, 0, "", "", 0, S.World(map[OWN := S.IDLE], S.EMPTY_BUS), CallBus([], {}, [], []))

  datatype Outcome = Subscribed | NullHandle | NullHandler | InvalidParams | InvalidUri | WatchRefused

  function Check(a: Args): Outcome {
    if a.handle == 0 then NullHandle
    else if a.handler == 0 then NullHandler
    else if a.params.None? then InvalidParams
    else if ServiceName(a.uri).None? then InvalidUri
    else Subscribed
  }

  /** cancelSubscription(). */
  function Dropped(w: World): World {
    if w.call == 0 then w
    else
      w.(call := 0,
         calls := w.calls.(live := w.calls.live - {w.call}, cancels := w.calls.cancels + [Cancel(w.handle, w.call)]))
  }

  /** cancel(). */
  function Stopped(w: World): World
    requires OWN in w.watches.pool
  {
    Dropped(w.(params := "", handler := 0, watches := S.Step(w.watches, S.Cancel(OWN))))
  }

  function Issue(w: World, token: Token): World {
    w.(call := token,
       calls := w.calls.(live := w.calls.live + {token},
                         issued := w.calls.issued + [Call(token, w.handle, w.uri, w.params)]))
  }

  /** Subscribing after the arguments passed the checks. */
  function Watch(w: World, a: Args, watched: bool): World
    requires OWN in w.watches.pool && Check(a) == Subscribed
  {
    w.(handle := a.handle, uri := a.uri, params := a.params.value, handler := a.handler,
       watches := S.Step(w.watches, S.Set(OWN, a.handle, ServiceName(a.uri).value, watched)))
  }

  ghost predicate Fresh(calls: CallBus, token: Token) {
    token != 0 && forall i :: 0 <= i < |calls.issued| ==> calls.issued[i].token != token
  }

  /** The bus reports status only for registered watches, and responses only to live tokens; new tokens are fresh. */
  ghost predicate Enabled(w: World, e: Event) {
    match e
    case Status(_, token, _) => w.watches.bus.registered != map[] && Fresh(w.calls, token)
    case Response(token) => token in w.calls.live
    case _ => w.alive && OWN in w.watches.pool
  }

  function Step(w: World, e: Event): World
    requires (e.Subscribe? || e.CancelAll? || e.Destroy?) ==> OWN in w.watches.pool
  {
    match e
    case Subscribe(a, watched) =>
      var w1 := Stopped(w);
      if Check(a) == Subscribed then Watch(w1, a, watched) else w1
    case Status(up, token, accepted) =>
      if up && w.call == 0 then (if accepted then Issue(w, token) else w)
      else if !up && w.call != 0 then Dropped(w)
      else w
    case Response(token) =>
      w.(calls := w.calls.(served := w.calls.served + [Served(token, w.handler)]))
    case CancelAll => Stopped(w)
    case Destroy =>
      var w1 := Stopped(w);
      w1.(alive := false, watches := S.Step(w1.watches, S.Destroy(OWN)))
  }

  ghost predicate Possible(es: seq<Event>)
    decreases |es|, 0
  {
    es == [] || (Possible(Front(es)) && Enabled(Run(Front(es)), Last(es)))
  }

  ghost function Run(es: seq<Event>): World
    requires Possible(es)
    decreases |es|, 1
  {
    if es == [] then INITIAL else Step(Run(Front(es)), Last(es))
  }

  // ---------------------------------------------------------------- what every run keeps

  ghost predicate Watching(w: World) {
    w.watches.bus.registered != map[]
  }

  /** Calls and cancels pair up in order, on the same handle, and only the last call may be uncancelled. */
  ghost predicate CallsOk(w: World) {
    && w.calls.live == (if w.call == 0 then {} else {w.call})
    && |w.calls.issued| == |w.calls.cancels| + |w.calls.live|
    && (forall i :: 0 <= i < |w.calls.cancels| ==>
          w.calls.cancels[i] == Cancel(w.calls.issued[i].handle, w.calls.issued[i].token))
    && (w.call != 0 ==> w.calls.issued != [] && Last(w.calls.issued) == Call(w.call, w.handle, w.uri, w.params))
    && (forall i :: 0 <= i < |w.calls.issued| ==> w.calls.issued[i].token != 0)
    && (forall i, j :: 0 <= i < j < |w.calls.issued| ==> w.calls.issued[i].token != w.calls.issued[j].token)
  }

  /** A watch is registered for the service, on the handle of the object, and calls are live only under a watch. */
  ghost predicate WatchOk(w: World) {
    && S.Inv(w.watches)
    && w.watches.pool.Keys == (if w.alive then {OWN} else {})
    && (w.call != 0 ==> Watching(w))
    && (Watching(w) ==> w.alive && w.handle != 0 && w.handler != 0)
    && (forall c :: c in w.watches.bus.registered ==>
          && c == w.watches.pool[OWN].cookie && w.watches.bus.registered[c].handle == w.handle
          && ServiceName(w.uri) == Some(w.watches.bus.registered[c].service))
  }

  ghost predicate Inv(w: World) {
    CallsOk(w) && WatchOk(w)
  }

  ghost predicate Idle(w: World) {
    w.call == 0 && w.calls.live == {} && !Watching(w)
  }

  lemma DroppedKeeps(w: World)
    requires CallsOk(w)
    ensures CallsOk(Dropped(w)) && Dropped(w).calls.live == {}
  {
  }

  lemma NothingOnBus(w: S.World)
    requires S.Inv(w) && forall o :: o in w.pool ==> w.pool[o].cookie == 0
    ensures w.bus.registered == map[]
  {
    forall c ensures c !in w.bus.registered {
      assert forall o :: S.HoldsCookie(w.pool, o, c) ==> c == 0;
    }
  }

  lemma StoppedKeeps(w: World)
    requires Inv(w) && w.alive
    ensures Inv(Stopped(w)) && Idle(Stopped(w))
    ensures Stopped(w).handle == w.handle && Stopped(w).uri == w.uri && Stopped(w).alive
    ensures Stopped(w).params == "" && Stopped(w).handler == 0
  {
    var w1 := w.(params := "", handler := 0, watches := S.Step(w.watches, S.Cancel(OWN)));
    S.CancelKeeps(w.watches, OWN);
    NothingOnBus(w1.watches);
    assert w1.watches.pool.Keys == {OWN};
    DroppedCalls(w, w1);
  }

  /** Dropping the call does not look at the fields cancel has already cleared. */
  lemma DroppedCalls(w: World, w1: World)
    requires CallsOk(w) && w1.calls == w.calls && w1.call == w.call && w1.handle == w.handle
    ensures CallsOk(Dropped(w1)) && Dropped(w1).calls.live == {}
  {
  }

  lemma WatchKeeps(w: World, a: Args, watched: bool)
    requires Inv(w) && w.alive && Idle(w) && Check(a) == Subscribed
    ensures Inv(Watch(w, a, watched)) && Watching(Watch(w, a, watched)) == watched
  {
    var name := ServiceName(a.uri).value;
    S.StepKeeps(w.watches, S.Set(OWN, a.handle, name, watched));
    NoCookie(w.watches);
    SetFromIdle(w.watches, a.handle, name, watched);
  }

  /** Setting a watch while none is registered: it becomes the only one. */
  lemma SetFromIdle(w: S.World, handle: nat, service: string, watched: bool)
    requires w.pool.Keys == {OWN} && w.bus.registered == map[] && w.pool[OWN].cookie == 0
    ensures var w' := S.Step(w, S.Set(OWN, handle, service, watched));
      && w'.pool.Keys == {OWN}
      && (w'.bus.registered != map[] <==> watched)
      && forall c :: c in w'.bus.registered ==>
           c == w'.pool[OWN].cookie && w'.bus.registered[c].handle == handle && w'.bus.registered[c].service == service
  {
    var w' := S.Step(w, S.Set(OWN, handle, service, watched));
    assert watched ==> w.bus.next + 1 in w'.bus.registered;
  }

  lemma NoCookie(w: S.World)
    requires S.Inv(w) && OWN in w.pool && w.bus.registered == map[]
    ensures w.pool[OWN].cookie == 0
  {
    assert S.Sound(w.pool[OWN], w.bus);
  }

  lemma StepKeeps(w: World, e: Event)
    requires Inv(w) && Enabled(w, e)
    ensures Inv(Step(w, e))
  {
    match e
    case Subscribe(a, watched) =>
      StoppedKeeps(w);
      if Check(a) == Subscribed {
        WatchKeeps(Stopped(w), a, watched);
      }
    case Status(up, token, accepted) =>
      StatusKeeps(w, e);
    case Response(token) =>
      StatusKeeps(w, e);
    case CancelAll =>
      StoppedKeeps(w);
    case Destroy =>
      StoppedKeeps(w);
      DestroyKeeps(Stopped(w));
  }

  lemma StatusKeeps(w: World, e: Event)
    requires Inv(w) && Enabled(w, e) && (e.Status? || e.Response?)
    ensures Inv(Step(w, e))
  {
    DroppedKeeps(w);
    if e.Status? && w.call == 0 {
      IssueKeeps(w, e.token);
    }
  }

  lemma IssueKeeps(w: World, token: Token)
    requires CallsOk(w) && w.call == 0 && Fresh(w.calls, token)
    ensures CallsOk(Issue(w, token))
  {
  }

  lemma DestroyKeeps(w: World)
    requires Inv(w) && w.alive && Idle(w)
    ensures Inv(w.(alive := false, watches := S.Step(w.watches, S.Destroy(OWN))))
  {
    S.StepKeeps(w.watches, S.Destroy(OWN));
    NothingOnBus(S.Step(w.watches, S.Destroy(OWN)));
  }

  lemma {:induction false} Reachable(es: seq<Event>)
    requires Possible(es)
    ensures Inv(Run(es))
  {
    if es != [] {
      Reachable(Front(es));
      StepKeeps(Run(Front(es)), Last(es));
    }
  }
}
