/** The publish/subscribe point as an object, each method proved to be one step of the machine. */
module SubscriptionPoints {
  import opened Common
  import opened SubscriptionMachine

  /** The main loop and the bus as the point sees them; the ghost fields are the locals of running calls. */
  class Runtime {
    var queue: seq<Batch>
    var log: seq<Reply>
    var watches: set<nat>
    var notified: set<Handle>
    var nextId: nat
    ghost var joining: seq<Item>
    ghost var inFlight: seq<Batch>

    constructor ()
      ensures queue == [] && log == [] && watches == {} && notified == {} && nextId == 0
      ensures joining == [] && inFlight == []
    {
      queue, log, watches, notified, nextId, joining, inFlight := [], [], {}, {}, 0, [], [];
    }

    /**
     The main loop runs its oldest source: respond to each message in order, stop at the first failure.
     sent is the number of `respond` calls that succeed before one throws.
     */
    method PostSubscriptions(sent: nat)
      requires queue != []
      modifies this`queue, this`log
      ensures log == old(log) + Replies(old(queue)[0], sent)
      ensures queue == old(queue)[1..]
    {
      var data := queue[0];
      var i := 0;
      while i < |data.messages| && i < sent
        invariant i <= |data.messages| && i <= sent
        invariant queue == old(queue)
        invariant log == old(log) + Replies(data, sent)[..i]
      {
        log := log + [Reply(Delivery(data.thread, data.messages[i], data.payload), true)];
        assert Replies(data, sent)[..i + 1] == Replies(data, sent)[..i] + [Replies(data, sent)[i]];
        i := i + 1;
      }
      while i < |data.messages|
        invariant i <= |data.messages|
        invariant i < |data.messages| ==> sent <= i
        invariant queue == old(queue)
        invariant log == old(log) + Replies(data, sent)[..i]
      {
        // Not responded: the exception left the loop. Recorded only so that the fate of every delivery is visible.
        log := log + [Reply(Delivery(data.thread, data.messages[i], data.payload), false)];
        assert Replies(data, sent)[..i + 1] == Replies(data, sent)[..i] + [Replies(data, sent)[i]];
        i := i + 1;
      }
      assert Replies(data, sent)[..i] == Replies(data, sent);
      queue := queue[1..];
    }
  }

  class SubscriptionPoint {
    var mServiceHandle: Option<Handle>
    var mDeduplicate: bool
    var mPreviousPayload: string
    var mSubscriptions: seq<Item>
    ghost var alive: bool

    /** The state of the machine this object and its surroundings are in. */
    ghost function View(rt: Runtime): World
      reads this, rt
    {
      World(alive, Point(mServiceHandle, mDeduplicate, mPreviousPayload, mSubscriptions),
            rt.joining, rt.inFlight, rt.queue, rt.log, rt.watches, rt.notified, rt.nextId)
    }

    constructor (rt: Runtime, service: Option<Handle>)
      requires rt.queue == [] && rt.log == [] && rt.watches == {} && rt.notified == {} && rt.nextId == 0
      requires rt.joining == [] && rt.inFlight == []
      modifies rt
      ensures View(rt) == Init(service)
    {
      mServiceHandle, mDeduplicate, mPreviousPayload, mSubscriptions, alive := None, false, "", [], true;
      new;
      SetServiceHandle(rt, service);
    }

    method SetServiceHandle(rt: Runtime, handle: Option<Handle>)
      requires alive
      modifies this`mServiceHandle, rt`notified
      ensures View(rt) == Step(old(View(rt)), SetHandle(handle))
    {
      if mServiceHandle.Some? {
        rt.notified := rt.notified - {mServiceHandle.value};
      }
      mServiceHandle := handle;
      if mServiceHandle.Some? {
        rt.notified := rt.notified + {mServiceHandle.value};
      }
    }

    method SetDedup(rt: Runtime, deduplicate: bool)
      requires alive
      modifies this`mDeduplicate
      ensures View(rt) == Step(old(View(rt)), SetDeduplicate(deduplicate))
    {
      mDeduplicate := deduplicate;
    }

    /**
     `addSubscription` up to the lock: take the message's connection if there is none yet, watch the sender. If the
     bus refuses the watch, the item is destroyed and the exception leaves.
     */
    method BeginSubscription(rt: Runtime, message: Message, watched: bool) returns (item: Option<Item>)
      requires alive
      modifies this`mServiceHandle, rt
      ensures View(rt) == Step(old(View(rt)), if watched then Join(message) else JoinRefused(message))
      ensures item == if watched then Some(Item(old(rt.nextId), message)) else None
    {
      if mServiceHandle.None? {
        SetServiceHandle(rt, Some(message.connection));
      }
      var created := Item(rt.nextId, message);
      rt.nextId := rt.nextId + 1;
      if !watched {
        return None;
      }
      rt.watches := rt.watches + {created.id};
      rt.joining := rt.joining + [created];
      item := Some(created);
    }

    /** The locked half of `addSubscription`. */
    method EndSubscription(rt: Runtime, item: Item)
      requires alive && item in rt.joining
      modifies this`mSubscriptions, rt`joining
      ensures View(rt) == Step(old(View(rt)), Push(item))
    {
      mSubscriptions := mSubscriptions + [item];
      rt.joining := Without(rt.joining, FindItem(rt.joining, item));
    }

    /** The whole of `addSubscription` when nothing interleaves. */
    method AddSubscription(rt: Runtime, message: Message, watched: bool) returns (thrown: bool)
      requires alive
      modifies this`mServiceHandle, this`mSubscriptions, rt
      ensures thrown <==> !watched
      ensures thrown ==> View(rt) == Step(old(View(rt)), JoinRefused(message))
      ensures !thrown ==> var w := Step(old(View(rt)), Join(message));
              View(rt) == Step(w, Push(Item(old(rt.nextId), message)))
    {
      var item := BeginSubscription(rt, message, watched);
      if item.None? {
        return true;
      }
      EndSubscription(rt, item.value);
      thrown := false;
    }

    /** `post` up to the end of the locked section. The result is the value `post` returns. */
    method TakeSnapshot(rt: Runtime, thread: nat, payload: string, contextOk: bool)
      returns (ok: bool, data: Option<Batch>)
      requires alive && FindThread(rt.inFlight, thread) == |rt.inFlight|
      modifies this`mPreviousPayload, rt`inFlight
      ensures View(rt) == Step(old(View(rt)), Snapshot(thread, payload, contextOk))
      ensures ok <==> mServiceHandle.Some? && contextOk
      ensures data.Some? <==> ok && !(mDeduplicate && payload == old(mPreviousPayload))
      ensures mPreviousPayload == if ok && mDeduplicate then payload else old(mPreviousPayload)
      ensures data.Some? ==> rt.inFlight == old(rt.inFlight) + [data.value]
      ensures data.Some? ==> data.value == Batch(thread, payload, Messages(mSubscriptions))
    {
      if mServiceHandle.None? || !contextOk {
        return false, None;
      }
      if mDeduplicate {
        if payload == mPreviousPayload {
          return true, None;
        }
        mPreviousPayload := payload;
      }
      var activeMessages: seq<Message> := [];
      var i := 0;
      while i < |mSubscriptions|
        invariant i <= |mSubscriptions|
        invariant activeMessages == Messages(mSubscriptions)[..i]
      {
        activeMessages := activeMessages + [mSubscriptions[i].message];
        i := i + 1;
      }
      assert activeMessages == Messages(mSubscriptions);
      ok, data := true, Some(Batch(thread, payload, activeMessages));
      rt.inFlight := rt.inFlight + [data.value];
    }

    /** The unlocked rest of `post`; it touches no field of the point, which may be gone by now. */
    static method AttachSource(rt: Runtime, data: Batch)
      requires FindThread(rt.inFlight, data.thread) < |rt.inFlight|
      requires rt.inFlight[FindThread(rt.inFlight, data.thread)] == data
      modifies rt`queue, rt`inFlight
      ensures rt.queue == old(rt.queue) + [data]
      ensures rt.inFlight == Without(old(rt.inFlight), FindThread(old(rt.inFlight), data.thread))
    {
      rt.queue := rt.queue + [data];
      rt.inFlight := Without(rt.inFlight, FindThread(rt.inFlight, data.thread));
    }

    /** The whole of `post` when nothing interleaves. */
    method Post(rt: Runtime, thread: nat, payload: string, contextOk: bool) returns (ok: bool)
      requires alive && FindThread(rt.inFlight, thread) == |rt.inFlight|
      modifies this`mPreviousPayload, rt`queue, rt`inFlight
      ensures ok <==> mServiceHandle.Some? && contextOk
      ensures var w := old(View(rt));
        View(rt) ==
        if ok && !(mDeduplicate && payload == old(mPreviousPayload))
        then w.(point := w.point.(previous := if mDeduplicate then payload else old(mPreviousPayload)),
                queue := w.queue + [Batch(thread, payload, Messages(w.point.items))])
        else w
    {
      var data;
      ok, data := TakeSnapshot(rt, thread, payload, contextOk);
      if data.Some? {
        FindAppended(old(rt.inFlight), data.value);
        AttachSource(rt, data.value);
      }
    }

    static lemma FindAppended(bs: seq<Batch>, b: Batch)
      requires FindThread(bs, b.thread) == |bs|
      ensures FindThread(bs + [b], b.thread) == |bs|
    {
      var r := FindThread(bs + [b], b.thread);
      assert (bs + [b])[|bs|] == b;
      assert forall i :: 0 <= i < |bs| ==> (bs + [b])[i] == bs[i];
    }

    /** The bus reports that the call with this token was cancelled. */
    method SubscriberCancelCB(rt: Runtime, uniqueToken: string)
      requires rt.notified != {}
      modifies this`mSubscriptions, rt`watches
      ensures View(rt) == Step(old(View(rt)), Cancel(uniqueToken))
    {
      var it := 0;
      while it < |mSubscriptions| && mSubscriptions[it].message.token != uniqueToken
        invariant it <= |mSubscriptions|
        invariant forall j :: 0 <= j < it ==> mSubscriptions[j].message.token != uniqueToken
      {
        it := it + 1;
      }
      assert it == FindToken(mSubscriptions, uniqueToken);
      if it < |mSubscriptions| {
        EraseItem(rt, it);
      }
    }

    /** The bus reports that the peer behind an item came up or went down. */
    method SubscriberStatusCB(rt: Runtime, item: nat, isUp: bool)
      requires item in rt.watches
      modifies this`mSubscriptions, rt`watches
      ensures View(rt) == Step(old(View(rt)), PeerStatus(item, isUp))
    {
      if isUp {
        return;
      }
      var it := 0;
      while it < |mSubscriptions| && mSubscriptions[it].id != item
        invariant it <= |mSubscriptions|
        invariant forall j :: 0 <= j < it ==> mSubscriptions[j].id != item
      {
        it := it + 1;
      }
      assert it == FindId(mSubscriptions, item);
      if it < |mSubscriptions| {
        EraseItem(rt, it);
      }
    }

    method EraseItem(rt: Runtime, it: nat)
      requires it < |mSubscriptions|
      modifies this`mSubscriptions, rt`watches
      ensures View(rt) == Erase(old(View(rt)), it)
    {
      rt.watches := rt.watches - {mSubscriptions[it].id};
      mSubscriptions := Without(mSubscriptions, it);
    }

    /** The destructor, and the destruction of the items' watches one by one. */
    method Delete(rt: Runtime)
      requires alive && rt.joining == []
      modifies this`mSubscriptions, this`alive, rt`notified, rt`watches
      ensures View(rt) == Step(old(View(rt)), Destroy)
    {
      if mServiceHandle.Some? {
        rt.notified := rt.notified - {mServiceHandle.value};
      }
      var i := 0;
      while i < |mSubscriptions|
        invariant i <= |mSubscriptions|
        invariant mSubscriptions == old(mSubscriptions) && alive
        invariant rt.notified == Rebind(old(rt.notified), mServiceHandle, None)
        invariant rt.watches == old(rt.watches) - Ids(mSubscriptions[..i])
      {
        assert mSubscriptions[..i + 1] == mSubscriptions[..i] + [mSubscriptions[i]];
        rt.watches := rt.watches - {mSubscriptions[i].id};
        i := i + 1;
      }
      assert mSubscriptions[..i] == mSubscriptions;
      mSubscriptions, alive := [], false;
    }
  }
}
