/**
 The publish/subscribe point as a step machine.

 `post` is two steps, because its locked snapshot (Snapshot) and its unlocked attachment to the main loop
 (Attach) can be separated by steps of any other thread; `addSubscription` is two steps for the same reason
 (Join registers the peer watch, Push enters the list; JoinRefused is a Join whose watch the bus refuses, after which
 the item is gone). Every other step is one callback or one locked section.
 */
module SubscriptionMachine {
  import opened Common

  type Handle = nat

  /** A request message: its unique token, its sender and the connection it arrived on. */
  datatype Message = Message(token: string, sender: string, connection: Handle)

  /** A subscription item; id stands for the address of the heap object. */
  datatype Item = Item(id: nat, message: Message)

  /** What one post hands to the main loop. */
  datatype Batch = Batch(thread: nat, payload: string, messages: seq<Message>)

  /** One intended response: payload posted by thread, for the sender of message. */
  datatype Delivery = Delivery(thread: nat, message: Message, payload: string)

  /** The fate of a delivery whose batch has been dispatched: responded, or lost because a `respond` threw. */
  datatype Reply = Reply(delivery: Delivery, ok: bool)

  /** The fields of the point itself. */
  datatype Point = Point(handle: Option<Handle>, deduplicate: bool, previous: string, items: seq<Item>)

  /** The point together with the running calls, the main loop and the bus registrations. */
  datatype World = World(
    alive: bool,
    point: Point,
    joining: seq<Item>,
    inFlight: seq<Batch>,
    queue: seq<Batch>,
    log: seq<Reply>,
    watches: set<nat>,
    notified: set<Handle>,
    nextId: nat)

  datatype Event =
    | SetHandle(handle: Option<Handle>)
    | SetDeduplicate(on: bool)
    | Join(message: Message)
    | JoinRefused(message: Message)
    | Push(item: Item)
    | Snapshot(thread: nat, payload: string, contextOk: bool)
    | Attach(thread: nat)
    | Dispatch(sent: nat)
    | Cancel(token: string)
    | PeerStatus(id: nat, up: bool)
    | Destroy

  // ---------------------------------------------------------------- the point

  /** The first item with the given token, or |items|. */
  function FindToken(items: seq<Item>, token: string): (r: nat)
    ensures r <= |items|
    ensures r < |items| ==> items[r].message.token == token
    ensures forall j :: 0 <= j < r ==> items[j].message.token != token
  {
    if items == [] || items[0].message.token == token then 0 else 1 + FindToken(items[1..], token)
  }

  /** The first item at the given address, or |items|. */
  function FindId(items: seq<Item>, id: nat): (r: nat)
    ensures r <= |items|
    ensures r < |items| ==> items[r].id == id
    ensures forall j :: 0 <= j < r ==> items[j].id != id
  {
    if items == [] || items[0].id == id then 0 else 1 + FindId(items[1..], id)
  }

  function Messages(items: seq<Item>): (r: seq<Message>)
    ensures |r| == |items|
    ensures forall i :: 0 <= i < |r| ==> r[i] == items[i].message
  {
    seq(|items|, i requires 0 <= i < |items| => items[i].message)
  }

  function Ids(items: seq<Item>): set<nat> {
    set x | x in items :: x.id
  }

  /** Whether a post gets as far as taking a snapshot. */
  predicate Accepts(p: Point, payload: string, contextOk: bool) {
    p.handle.Some? && contextOk && !(p.deduplicate && payload == p.previous)
  }

  function Noted(p: Point, payload: string): Point {
    if p.deduplicate then p.(previous := payload) else p
  }

  // ---------------------------------------------------------------- main loop and bus

  function Deliveries(b: Batch): (r: seq<Delivery>)
    ensures |r| == |b.messages|
    ensures forall i :: 0 <= i < |r| ==> r[i] == Delivery(b.thread, b.messages[i], b.payload)
  {
    seq(|b.messages|, i requires 0 <= i < |b.messages| => Delivery(b.thread, b.messages[i], b.payload))
  }

  function Flat(bs: seq<Batch>): seq<Delivery> {
    if bs == [] then [] else Deliveries(bs[0]) + Flat(bs[1..])
  }

  /** Responses go out in order and stop at the first `respond` that throws, the one at index sent. */
  function Replies(b: Batch, sent: nat): (r: seq<Reply>)
    ensures |r| == |b.messages|
    ensures forall i :: 0 <= i < |r| ==> r[i] == Reply(Delivery(b.thread, b.messages[i], b.payload), i < sent)
  {
    seq(|b.messages|, i requires 0 <= i < |b.messages| => Reply(Delivery(b.thread, b.messages[i], b.payload), i < sent))
  }

  /** Every delivery whose batch has been dispatched. */
  function Settled(log: seq<Reply>): (r: seq<Delivery>)
    ensures |r| == |log|
    ensures forall i :: 0 <= i < |r| ==> r[i] == log[i].delivery
  {
    seq(|log|, i requires 0 <= i < |log| => log[i].delivery)
  }

  /** The responses the bus really carried. */
  function Responded(log: seq<Reply>): seq<Delivery> {
    Settled(Filter(log, (r: Reply) => r.ok))
  }

  /** The first batch of the given thread, or |bs|. */
  function FindThread(bs: seq<Batch>, thread: nat): (r: nat)
    ensures r <= |bs|
    ensures r < |bs| ==> bs[r].thread == thread
    ensures forall j :: 0 <= j < r ==> bs[j].thread != thread
  {
    if bs == [] || bs[0].thread == thread then 0 else 1 + FindThread(bs[1..], thread)
  }

  function FindItem(items: seq<Item>, x: Item): (r: nat)
    ensures r <= |items|
    ensures r < |items| <==> x in items
    ensures r < |items| ==> items[r] == x
  {
    if items == [] || items[0] == x then 0 else 1 + FindItem(items[1..], x)
  }

  /** Cancel notifications registered after the point moves from one handle to another. */
  function Rebind(notified: set<Handle>, from: Option<Handle>, to: Option<Handle>): set<Handle> {
    (if from.Some? then notified - {from.value} else notified) + (if to.Some? then {to.value} else {})
  }

  // ---------------------------------------------------------------- steps

  function Init(handle: Option<Handle>): World {
    World(true, Point(handle, false, "", []), [], [], [], [], {}, Rebind({}, None, handle), 0)
  }

  /** When the environment can take a step. */
  predicate Enabled(w: World, e: Event) {
    match e
    case SetHandle(_) => w.alive
    case SetDeduplicate(_) => w.alive
    case Join(_) => w.alive
    case JoinRefused(_) => w.alive
    case Push(x) => w.alive && x in w.joining
    case Snapshot(t, _, _) => w.alive && FindThread(w.inFlight, t) == |w.inFlight|
    case Attach(t) => FindThread(w.inFlight, t) < |w.inFlight|
    case Dispatch(_) => w.queue != []
    case Cancel(_) => w.notified != {}
    case PeerStatus(id, _) => id in w.watches
    case Destroy => w.alive && w.joining == []
  }

  /** Removes the item at i; destroying it cancels its peer watch. Past the end, nothing happens. */
  function Erase(w: World, i: nat): World {
    if i < |w.point.items| then
      w.(point := w.point.(items := Without(w.point.items, i)), watches := w.watches - {w.point.items[i].id})
    else w
  }

  /** A point without a handle takes the connection of the message. */
  function Adopt(w: World, connection: Handle): World {
    if w.point.handle.Some? then w
    else w.(notified := Rebind(w.notified, None, Some(connection)), point := w.point.(handle := Some(connection)))
  }

  function Step(w: World, e: Event): World
    requires Enabled(w, e)
  {
    match e
    case SetHandle(h) =>
      w.(notified := Rebind(w.notified, w.point.handle, h), point := w.point.(handle := h))
    case SetDeduplicate(on) =>
      w.(point := w.point.(deduplicate := on))
    case Join(m) =>
      var w1 := Adopt(w, m.connection);
      w1.(joining := w.joining + [Item(w.nextId, m)],
          watches := w.watches + {w.nextId},
          nextId := w.nextId + 1)
    case JoinRefused(m) =>
      Adopt(w, m.connection).(nextId := w.nextId + 1)
    case Push(x) =>
      w.(joining := Without(w.joining, FindItem(w.joining, x)),
         point := w.point.(items := w.point.items + [x]))
    case Snapshot(t, payload, contextOk) =>
      if Accepts(w.point, payload, contextOk) then
        w.(point := Noted(w.point, payload),
           inFlight := w.inFlight + [Batch(t, payload, Messages(w.point.items))])
      else w
    case Attach(t) =>
      var i := FindThread(w.inFlight, t);
      w.(queue := w.queue + [w.inFlight[i]], inFlight := Without(w.inFlight, i))
    case Dispatch(sent) =>
      w.(log := w.log + Replies(w.queue[0], sent), queue := w.queue[1..])
    case Cancel(token) =>
      Erase(w, FindToken(w.point.items, token))
    case PeerStatus(id, up) =>
      if up then w else Erase(w, FindId(w.point.items, id))
    case Destroy =>
      w.(alive := false,
         notified := Rebind(w.notified, w.point.handle, None),
         watches := w.watches - Ids(w.point.items),
         point := w.point.(items := []))
  }

  /** A trace the environment can produce from a freshly constructed point. */
  predicate Possible(handle: Option<Handle>, es: seq<Event>)
    decreases |es|, 0
  {
    es == [] || (Possible(handle, Front(es)) && Enabled(Run(handle, Front(es)), Last(es)))
  }

  /** The state after a trace. */
  function Run(handle: Option<Handle>, es: seq<Event>): World
    requires Possible(handle, es)
    decreases |es|, 1
  {
    if es == [] then Init(handle) else Step(Run(handle, Front(es)), Last(es))
  }

  /** Everything posted and not lost: dispatched, then attached, then snapshotted but not yet attached. */
  function Pipeline(w: World): seq<Delivery> {
    Settled(w.log) + Flat(w.queue) + Flat(w.inFlight)
  }

  /** The ideal: each accepted post reaches, at once and in list order, everyone subscribed at that moment. */
  function Broadcast(handle: Option<Handle>, es: seq<Event>): seq<Delivery>
    requires Possible(handle, es)
  {
    if es == [] then []
    else Broadcast(handle, Front(es)) + Announced(Run(handle, Front(es)), Last(es))
  }

  function Announced(w: World, e: Event): seq<Delivery> {
    if e.Snapshot? && Accepts(w.point, e.payload, e.contextOk)
    then Deliveries(Batch(e.thread, e.payload, Messages(w.point.items)))
    else []
  }
}
