/** Who receives what, stated on the trace alone: membership windows, early cancels and deduplication. */
module SubscriptionWindows {
  import opened Common
  import opened SubscriptionMachine
  import opened SubscriptionProofs
  import opened SubscriptionTraces

  /** Unique tokens: no two items pushed during the trace carry the same one. */
  ghost predicate DistinctTokens(es: seq<Event>) {
    forall i, j :: 0 <= i < j < |es| && es[i].Push? && es[j].Push? ==>
      es[i].item.message.token != es[j].item.message.token
  }

  predicate Removes(e: Event, x: Item) {
    e == Cancel(x.message.token) || e == PeerStatus(x.id, false) || e == Destroy
  }

  /** x entered the list and nothing has removed it since. */
  ghost predicate Subscribed(es: seq<Event>, x: Item) {
    exists j :: 0 <= j < |es| && es[j] == Push(x) && forall k :: j < k < |es| ==> !Removes(es[k], x)
  }

  lemma SubscribedStep(es: seq<Event>, x: Item)
    requires es != []
    ensures Subscribed(es, x) <==> (Last(es) == Push(x) || (Subscribed(Front(es), x) && !Removes(Last(es), x)))
  {
    var n := |es| - 1;
    if Last(es) == Push(x) {
      assert es[n] == Push(x);
    }
    if Subscribed(Front(es), x) && !Removes(Last(es), x) {
      var j :| 0 <= j < n && Front(es)[j] == Push(x) && forall k :: j < k < n ==> !Removes(Front(es)[k], x);
      assert es[j] == Push(x);
      forall k | j < k < |es| ensures !Removes(es[k], x) {
        assert k < n ==> es[k] == Front(es)[k];
      }
    }
    if Subscribed(es, x) && Last(es) != Push(x) {
      var j :| 0 <= j < |es| && es[j] == Push(x) && forall k :: j < k < |es| ==> !Removes(es[k], x);
      assert Front(es)[j] == Push(x);
      forall k | j < k < n ensures !Removes(Front(es)[k], x) {
        assert Front(es)[k] == es[k];
      }
    }
  }

  /** The list holds exactly the items whose window is open. */
  lemma {:induction false} MembershipIsWindow(handle: Option<Handle>, es: seq<Event>, x: Item)
    requires Possible(handle, es) && DistinctTokens(es)
    ensures x in Run(handle, es).point.items <==> Subscribed(es, x)
  {
    if es != [] {
      var w, e := Run(handle, Front(es)), Last(es);
      Reachable(handle, Front(es));
      forall y { MembershipIsWindow(handle, Front(es), y); }
      SubscribedStep(es, x);
      TokensDiffer(handle, Front(es));
      MembershipStep(w, e, x);
    }
  }

  /** One event: an item enters by its push and leaves by what removes it. */
  lemma MembershipStep(w: World, e: Event, x: Item)
    requires Inv(w) && Enabled(w, e)
    requires forall y, z :: y in w.point.items && z in w.point.items && y != z ==> y.message.token != z.message.token
    ensures x in Step(w, e).point.items <==> e == Push(x) || (x in w.point.items && !Removes(e, x))
  {
    match e
    case Cancel(token) =>
      ErasedExactly(w, FindToken(w.point.items, token), x);
    case PeerStatus(id, up) =>
      if !up {
        ErasedExactly(w, FindId(w.point.items, id), x);
      }
    case _ =>
      MembershipKept(w, e, x);
  }

  lemma MembershipKept(w: World, e: Event, x: Item)
    requires Inv(w) && Enabled(w, e) && !e.Cancel? && !e.PeerStatus?
    ensures x in Step(w, e).point.items <==> e == Push(x) || (x in w.point.items && e != Destroy)
  {
  }

  lemma TokensDiffer(handle: Option<Handle>, es: seq<Event>)
    requires Possible(handle, es) && DistinctTokens(es)
    requires forall x :: x in Run(handle, es).point.items <==> Subscribed(es, x)
    ensures forall x, y :: x in Run(handle, es).point.items && y in Run(handle, es).point.items && x != y ==>
              x.message.token != y.message.token
  {
    forall x, y | x in Run(handle, es).point.items && y in Run(handle, es).point.items && x != y
      ensures x.message.token != y.message.token
    {
      TwoTokens(es, x, y);
    }
  }

  lemma TwoTokens(es: seq<Event>, x: Item, y: Item)
    requires DistinctTokens(es) && Subscribed(es, x) && Subscribed(es, y) && x != y
    ensures x.message.token != y.message.token
  {
    var i :| 0 <= i < |es| && es[i] == Push(x);
    var j :| 0 <= j < |es| && es[j] == Push(y);
  }

  lemma ErasedExactly(w: World, i: nat, x: Item)
    requires Inv(w) && i <= |w.point.items|
    ensures x in Erase(w, i).point.items <==> x in w.point.items && (i < |w.point.items| ==> x != w.point.items[i])
  {
    var items := w.point.items;
    if i < |items| {
      assert items == items[..i] + [items[i]] + items[i + 1..];
      if x in Without(items, i) {
        assert x in items[..i] || x in items[i + 1..];
      }
    }
  }

  /**
   A cancel or a peer-down of a listed item removes that item and no other, and a second one changes nothing:
   the peer watch is gone with the item, the repeated cancel finds nothing.
   */
  lemma RemovedOnce(w: World, x: Item, e: Event)
    requires Inv(w) && x in w.point.items && Enabled(w, e)
    requires forall y, z :: y in w.point.items && z in w.point.items && y != z ==> y.message.token != z.message.token
    requires e == Cancel(x.message.token) || e == PeerStatus(x.id, false)
    ensures var w' := Step(w, e);
      && (forall y :: y in w'.point.items <==> y in w.point.items && y != x)
      && w'.watches == w.watches - {x.id}
      && (if e.Cancel? then Enabled(w', e) && Step(w', e) == w' else !Enabled(w', e))
  {
    var i := if e.Cancel? then FindToken(w.point.items, e.token) else FindId(w.point.items, e.id);
    forall y ensures y in Step(w, e).point.items <==> y in w.point.items && y != x {
      ErasedExactly(w, i, y);
    }
  }

  /** Where the item at position a after a step was before it. */
  function Origin(w: World, e: Event, a: nat): nat {
    var erased := if e.Cancel? then FindToken(w.point.items, e.token)
                  else if e.PeerStatus? && !e.up then FindId(w.point.items, e.id)
                  else |w.point.items|;
    if a < erased then a else a + 1
  }

  lemma OriginIsRight(w: World, e: Event, a: nat)
    requires Enabled(w, e) && a < |Step(w, e).point.items|
    ensures var x := Step(w, e).point.items[a];
      if e.Push? && a == |w.point.items| then e.item == x
      else Origin(w, e, a) < |w.point.items| && w.point.items[Origin(w, e, a)] == x
  {
    if e.Cancel? {
      ErasedAt(w, FindToken(w.point.items, e.token), a);
    } else if e.PeerStatus? && !e.up {
      ErasedAt(w, FindId(w.point.items, e.id), a);
    }
  }

  lemma ErasedAt(w: World, i: nat, a: nat)
    requires i <= |w.point.items| && a < |Erase(w, i).point.items|
    ensures var k := if a < i then a else a + 1;
      k < |w.point.items| && Erase(w, i).point.items[a] == w.point.items[k]
  {
  }

  /** The list is in subscribe order: its items entered by pushes in that order. */
  lemma {:induction false} ListIsInPushOrder(handle: Option<Handle>, es: seq<Event>, a: nat, b: nat)
    returns (i: nat, j: nat)
    requires Possible(handle, es) && a < b < |Run(handle, es).point.items|
    ensures i < j < |es|
    ensures es[i] == Push(Run(handle, es).point.items[a]) && es[j] == Push(Run(handle, es).point.items[b])
  {
    var w, e := Run(handle, Front(es)), Last(es);
    OriginIsRight(w, e, a);
    OriginIsRight(w, e, b);
    if e.Push? && b == |w.point.items| {
      i := EnteredByPush(handle, Front(es), a);
      j := |es| - 1;
    } else {
      i, j := ListIsInPushOrder(handle, Front(es), Origin(w, e, a), Origin(w, e, b));
    }
  }

  lemma {:induction false} EnteredByPush(handle: Option<Handle>, es: seq<Event>, a: nat) returns (i: nat)
    requires Possible(handle, es) && a < |Run(handle, es).point.items|
    ensures i < |es| && es[i] == Push(Run(handle, es).point.items[a])
  {
    var w, e := Run(handle, Front(es)), Last(es);
    OriginIsRight(w, e, a);
    if e.Push? && a == |w.point.items| {
      i := |es| - 1;
    } else {
      i := EnteredByPush(handle, Front(es), Origin(w, e, a));
    }
  }

  // ---------------------------------------------------------------- what a subscriber is owed

  /** The accepted posts whose snapshot fell inside x's window, read off the trace. */
  ghost function Owed(handle: Option<Handle>, es: seq<Event>, x: Item): seq<Delivery>
    requires Possible(handle, es)
  {
    if es == [] then []
    else
      var e := Last(es);
      Owed(handle, Front(es), x) +
      if Taken(handle, Front(es), e) && Subscribed(Front(es), x)
      then [Delivery(e.thread, x.message, e.payload)] else []
  }

  /** Immediate broadcast, seen by one subscriber, is what its window says: a late subscriber gets no earlier post. */
  lemma {:induction false} BroadcastIsOwed(handle: Option<Handle>, es: seq<Event>, x: Item)
    requires Possible(handle, es) && DistinctTokens(es)
    requires forall i :: 0 <= i < |es| && es[i].Push? && es[i].item.message == x.message ==> es[i].item == x
    ensures Filter(Broadcast(handle, es), (d: Delivery) => d.message == x.message) == Owed(handle, es, x)
  {
    if es != [] {
      var f := (d: Delivery) => d.message == x.message;
      var w, e := Run(handle, Front(es)), Last(es);
      BroadcastIsOwed(handle, Front(es), x);
      FilterConcat(Broadcast(handle, Front(es)), Announced(w, e), f);
      AnnouncedIffTaken(handle, Front(es), e);
      if Taken(handle, Front(es), e) {
        Reachable(handle, Front(es));
        MembershipIsWindow(handle, Front(es), x);
        forall i | 0 <= i < |w.point.items| && w.point.items[i].message == x.message ensures w.point.items[i] == x {
          var j := EnteredByPush(handle, Front(es), i);
          assert es[j] == Push(w.point.items[i]);
        }
        OneAnnouncement(w, e.thread, e.payload, x);
      }
    }
  }

  lemma OneAnnouncement(w: World, thread: nat, payload: string, x: Item)
    requires Inv(w)
    requires forall i :: 0 <= i < |w.point.items| && w.point.items[i].message == x.message ==> w.point.items[i] == x
    ensures Filter(Deliveries(Batch(thread, payload, Messages(w.point.items))), (d: Delivery) => d.message == x.message)
            == if x in w.point.items then [Delivery(thread, x.message, payload)] else []
  {
    var f := (d: Delivery) => d.message == x.message;
    var items := w.point.items;
    var ds := Deliveries(Batch(thread, payload, Messages(items)));
    if x in items {
      var i :| 0 <= i < |items| && items[i] == x;
      assert forall k :: 0 <= k < |items| && k != i ==> items[k] != x;
      FilterOne(ds, i, f);
    } else {
      FilterNone(ds, f);
    }
  }

  /** Among the posts of one thread, a subscriber's deliveries are in the order they were posted. */
  lemma ThreadGetsItsWindow(handle: Option<Handle>, es: seq<Event>, x: Item, t: nat)
    requires Possible(handle, es) && DistinctTokens(es)
    requires forall i :: 0 <= i < |es| && es[i].Push? && es[i].item.message == x.message ==> es[i].item == x
    ensures Filter(Pipeline(Run(handle, es)), (d: Delivery) => d.message == x.message && d.thread == t) ==
            Filter(Owed(handle, es, x), (d: Delivery) => d.thread == t)
  {
    var mine, posted := (d: Delivery) => d.message == x.message, (d: Delivery) => d.thread == t;
    ThreadOrder(handle, es, t, (d: Delivery) => d.message == x.message && d.thread == t);
    BroadcastIsOwed(handle, es, x);
    FilterTwice(Broadcast(handle, es), mine, posted, (d: Delivery) => d.message == x.message && d.thread == t);
  }

  /**
   The main result for one subscriber. Delivered, queued and unattached together are its owed deliveries, each
   exactly once, in every interleaving; in order when posts are serialized.
   */
  lemma SubscriberGetsItsWindow(handle: Option<Handle>, es: seq<Event>, x: Item)
    requires Possible(handle, es) && DistinctTokens(es)
    requires forall i :: 0 <= i < |es| && es[i].Push? && es[i].item.message == x.message ==> es[i].item == x
    ensures var f := (d: Delivery) => d.message == x.message;
      && multiset(Filter(Pipeline(Run(handle, es)), f)) == multiset(Owed(handle, es, x))
      && (Serialized(handle, es) ==> Filter(Pipeline(Run(handle, es)), f) == Owed(handle, es, x))
  {
    BroadcastIsOwed(handle, es, x);
    Conservation(handle, es, (d: Delivery) => d.message == x.message);
    if Serialized(handle, es) {
      SerializedOrder(handle, es);
    }
  }

  /**
   Destroying the point loses nothing pending: what the loop and the running posts hold is untouched, and the
   remaining attach and dispatch steps stay possible. The destructor sends nothing itself.
   */
  lemma DestroyKeepsPending(w: World)
    requires Enabled(w, Destroy)
    ensures var w' := Step(w, Destroy);
      && Pipeline(w') == Pipeline(w) && w'.log == w.log
      && (forall t :: Enabled(w, Attach(t)) ==>
            Enabled(w', Attach(t)) && Pipeline(Step(w', Attach(t))) == Pipeline(Step(w, Attach(t))))
      && (forall k :: Enabled(w, Dispatch(k)) ==>
            Enabled(w', Dispatch(k)) && Step(w', Dispatch(k)).log == Step(w, Dispatch(k)).log)
  {
  }

  /** What a run has posted but not yet sent. */
  function Pending(w: World): seq<Delivery> {
    Flat(w.queue) + Flat(w.inFlight)
  }

  /**
   When the destructor returns, everything ever posted has been sent iff nothing was pending. Afterwards, whatever
   else happens, as soon as nothing is pending any more everything has been sent, to those it was posted for.
   */
  lemma SentAfterDestroyIff(handle: Option<Handle>, es: seq<Event>, tail: seq<Event>)
    requires Possible(handle, es + [Destroy] + tail)
    ensures Possible(handle, es)
    ensures multiset(Settled(Run(handle, es + [Destroy] + tail).log)) == multiset(Broadcast(handle, es)) <==>
            Pending(Run(handle, es + [Destroy] + tail)) == []
  {
    DestroyedPostsNothing(handle, es, tail);
    AllConserved(handle, es + [Destroy] + tail);
    AllSentIff(Run(handle, es + [Destroy] + tail), Broadcast(handle, es));
  }

  lemma AllSentIff(w: World, posted: seq<Delivery>)
    requires multiset(Pipeline(w)) == multiset(posted)
    ensures multiset(Settled(w.log)) == multiset(posted) <==> Pending(w) == []
  {
    Associative(Settled(w.log), Flat(w.queue), Flat(w.inFlight));
    PartIsAll(Settled(w.log), Pending(w));
  }

  lemma PartIsAll<T>(a: seq<T>, b: seq<T>)
    ensures multiset(a) == multiset(a + b) <==> b == []
  {
    assert multiset(a + b) == multiset(a) + multiset(b);
    assert b != [] ==> b[0] in multiset(b);
  }

  lemma AllConserved(handle: Option<Handle>, es: seq<Event>)
    requires Possible(handle, es)
    ensures multiset(Pipeline(Run(handle, es))) == multiset(Broadcast(handle, es))
  {
    var every := (d: Delivery) => true;
    Conservation(handle, es, every);
    FilterAll(Pipeline(Run(handle, es)), every);
    FilterAll(Broadcast(handle, es), every);
  }

  lemma {:induction false} DestroyedPostsNothing(handle: Option<Handle>, es: seq<Event>, tail: seq<Event>)
    requires Possible(handle, es + [Destroy] + tail)
    ensures Possible(handle, es) && !Run(handle, es + [Destroy] + tail).alive
    ensures Broadcast(handle, es + [Destroy] + tail) == Broadcast(handle, es)
  {
    var all := es + [Destroy] + tail;
    if tail == [] {
      assert all == es + [Destroy];
      UnfoldLast(handle, es, Destroy);
      BroadcastLast(handle, es, Destroy);
      PostsNothing(Run(handle, es), Destroy);
    } else {
      var front := es + [Destroy] + Front(tail);
      assert all == front + [Last(tail)];
      UnfoldLast(handle, front, Last(tail));
      BroadcastLast(handle, front, Last(tail));
      DestroyedPostsNothing(handle, es, Front(tail));
      PostsNothing(Run(handle, front), Last(tail));
    }
  }

  lemma BroadcastLast(handle: Option<Handle>, es: seq<Event>, e: Event)
    requires Possible(handle, es + [e]) && Possible(handle, es)
    ensures Broadcast(handle, es + [e]) == Broadcast(handle, es) + Announced(Run(handle, es), e)
  {
    assert Front(es + [e]) == es && Last(es + [e]) == e;
  }

  lemma PostsNothing(w: World, e: Event)
    requires Enabled(w, e) && (!w.alive || e.Destroy?)
    ensures !Step(w, e).alive && Announced(w, e) == []
  {
  }

  /** And there always is such a continuation: attach what is unattached, then dispatch. */
  lemma {:induction false} Drains(handle: Option<Handle>, es: seq<Event>) returns (tail: seq<Event>)
    requires Possible(handle, es)
    ensures Possible(handle, es + tail) && Pending(Run(handle, es + tail)) == []
    ensures forall i :: 0 <= i < |tail| ==> tail[i].Attach? || tail[i].Dispatch?
    decreases Work(Run(handle, es)), 1
  {
    var w := Run(handle, es);
    if w.inFlight != [] {
      var e := Attach(w.inFlight[0].thread);
      tail := DrainsAfter(handle, es, e);
    } else if w.queue != [] {
      tail := DrainsAfter(handle, es, Dispatch(0));
    } else {
      tail := [];
      assert es + tail == es;
    }
  }

  lemma {:induction false} DrainsAfter(handle: Option<Handle>, es: seq<Event>, e: Event) returns (tail: seq<Event>)
    requires Possible(handle, es) && Enabled(Run(handle, es), e) && (e.Attach? || e.Dispatch?)
    ensures Possible(handle, es + tail) && Pending(Run(handle, es + tail)) == []
    ensures forall i :: 0 <= i < |tail| ==> tail[i].Attach? || tail[i].Dispatch?
    decreases Work(Run(handle, es)), 0
  {
    Unfold(handle, es, e);
    MovesOn(Run(handle, es), e);
    var longer := es + [e];
    tail := Drains(handle, longer);
    Associative(es, [e], tail);
    tail := [e] + tail;
  }

  function Work(w: World): nat {
    2 * |w.inFlight| + |w.queue|
  }

  lemma MovesOn(w: World, e: Event)
    requires Enabled(w, e) && (e.Attach? || e.Dispatch?)
    ensures Work(Step(w, e)) < Work(w)
  {
  }

  /** From the start: a point destroyed while a delivery is pending, which is sent only afterwards. */
  lemma PendingAfterDestroyExample(m: Message)
    ensures var es := [Join(m), Push(Item(0, m)), Snapshot(0, "p", true), Destroy];
      && Possible(None, es) && Run(None, es).log == []
      && Pipeline(Run(None, es)) == [Delivery(0, m, "p")]
  {
    var a, b, c := Join(m), Push(Item(0, m)), Snapshot(0, "p", true);
    PendingSteps(m);
    Unfold(None, [], a);
    var one := [] + [a];
    Unfold(None, one, b);
    var two := one + [b];
    Unfold(None, two, c);
    var three := two + [c];
    Unfold(None, three, Destroy);
    assert three + [Destroy] == [a, b, c, Destroy];
    FlatOne(Batch(0, "p", [m]));
  }

  lemma PendingSteps(m: Message)
    ensures var (w0, x) := (Init(None), Item(0, m));
      && Enabled(w0, Join(m))
      && var w1 := Step(w0, Join(m));
      && Enabled(w1, Push(x))
      && var w2 := Step(w1, Push(x));
      && Enabled(w2, Snapshot(0, "p", true))
      && var w3 := Step(w2, Snapshot(0, "p", true));
      && Enabled(w3, Destroy) && w3.inFlight == [Batch(0, "p", [m])] && w3.queue == [] && w3.log == []
  {
    var w1 := Step(Init(None), Join(m));
    assert w1.joining == [Item(0, m)] && w1.point.items == [];
    var w2 := Step(w1, Push(Item(0, m)));
    assert w2.joining == [] && w2.point.items == [Item(0, m)];
    assert Messages(w2.point.items) == [m];
  }

  /**
   A cancel or peer-down of an item is lost, that is, the item can still get into the list, exactly when the item is
   between watch registration and push. Otherwise it stays out of the list for good.
   */
  lemma EarlyRemovalIsLost(handle: Option<Handle>, es: seq<Event>, x: Item, e: Event)
    requires Possible(handle, es + [e]) && Possible(handle, es) && DistinctTokens(es)
    requires e == Cancel(x.message.token) || e == PeerStatus(x.id, false)
    requires x in Run(handle, es).point.items || x in Run(handle, es).joining
    requires x in Run(handle, es).joining ==> NotPushed(es, x.message.token)
    ensures (exists tail :: GetsIn(handle, es + [e], tail, x)) <==> x in Run(handle, es).joining
  {
    if x in Run(handle, es).joining {
      LostByPush(handle, es, x, e);
      assert GetsIn(handle, es + [e], [Push(x)], x);
    } else {
      NeverGetsIn(handle, es, x, e);
    }
  }

  lemma NeverGetsIn(handle: Option<Handle>, es: seq<Event>, x: Item, e: Event)
    requires Possible(handle, es) && DistinctTokens(es) && x in Run(handle, es).point.items && Removes(e, x)
    ensures forall tail :: !GetsIn(handle, es + [e], tail, x)
  {
    forall tail ensures !GetsIn(handle, es + [e], tail, x) {
      StaysOut(handle, es, x, e, tail);
    }
  }

  ghost predicate NotPushed(es: seq<Event>, token: string) {
    forall i :: 0 <= i < |es| && es[i].Push? ==> es[i].item.message.token != token
  }

  /** The continuation leaves the item in the list. */
  ghost predicate GetsIn(handle: Option<Handle>, es: seq<Event>, tail: seq<Event>, x: Item) {
    Possible(handle, es + tail) && DistinctTokens(es + tail) && x in Run(handle, es + tail).point.items
  }

  lemma LostByPush(handle: Option<Handle>, es: seq<Event>, x: Item, e: Event)
    requires Possible(handle, es + [e]) && Possible(handle, es) && DistinctTokens(es)
    requires e.Cancel? || e.PeerStatus?
    requires x in Run(handle, es).joining && NotPushed(es, x.message.token)
    ensures GetsIn(handle, es + [e], [Push(x)], x)
  {
    UnfoldLast(handle, es, e);
    Reachable(handle, es);
    RemovalThenPush(Run(handle, es), x, e);
    Unfold(handle, es + [e], Push(x));
    StillDistinct(es, e, x);
  }

  lemma RemovalThenPush(w: World, x: Item, e: Event)
    requires Inv(w) && x in w.joining && Enabled(w, e) && (e.Cancel? || e.PeerStatus?)
    ensures Enabled(Step(w, e), Push(x)) && x in Step(Step(w, e), Push(x)).point.items
  {
    assert Step(w, e).joining == w.joining;
  }

  lemma StillDistinct(es: seq<Event>, e: Event, x: Item)
    requires DistinctTokens(es) && !e.Push? && NotPushed(es, x.message.token)
    ensures DistinctTokens(es + [e] + [Push(x)])
  {
    var all := es + [e] + [Push(x)];
    assert forall i :: 0 <= i < |es| ==> all[i] == es[i];
  }

  lemma StaysOut(handle: Option<Handle>, es: seq<Event>, x: Item, e: Event, tail: seq<Event>)
    requires Possible(handle, es) && DistinctTokens(es) && x in Run(handle, es).point.items && Removes(e, x)
    ensures !GetsIn(handle, es + [e], tail, x)
  {
    var all := es + [e] + tail;
    if Possible(handle, all) && DistinctTokens(all) {
      MembershipIsWindow(handle, es, x);
      MembershipIsWindow(handle, all, x);
      PushedOnce(es, e, tail, x);
    }
  }

  /** With unique tokens, a window that was closed does not open again. */
  lemma PushedOnce(es: seq<Event>, e: Event, tail: seq<Event>, x: Item)
    requires Subscribed(es, x) && Removes(e, x) && DistinctTokens(es + [e] + tail)
    ensures !Subscribed(es + [e] + tail, x)
  {
    var all := es + [e] + tail;
    var j :| 0 <= j < |es| && es[j] == Push(x);
    assert all[j] == Push(x) && all[|es|] == e;
    forall k | 0 <= k < |all| && k != j ensures all[k] != Push(x) {
      assert all[k].Push? ==> all[k].item.message.token != all[j].item.message.token;
    }
  }

  /** From the start: a subscriber that cancels too early is in the list for good and is owed the next post. */
  lemma EarlyCancelExample(m: Message)
    ensures var x := Item(0, m);
      var es := [Join(m), Cancel(m.token), Push(x), Snapshot(0, "p", true)];
      Possible(None, es) && x in Run(None, es).point.items && Owed(None, es, x) == [Delivery(0, m, "p")]
  {
    var x := Item(0, m);
    var start, post := [Join(m), Cancel(m.token), Push(x)], Snapshot(0, "p", true);
    EarlyCancelStart(m);
    assert start + [post] == [Join(m), Cancel(m.token), Push(x), post];
    Unfold(None, start, post);
    PointIsRead(None, start);
    SubscribedStep(start, x);
    NothingOwed(None, start, x);
  }

  lemma EarlyCancelStart(m: Message)
    ensures var es := [Join(m), Cancel(m.token), Push(Item(0, m))];
      && Possible(None, es)
      && Run(None, es).alive && Run(None, es).inFlight == []
      && Run(None, es).point == Point(Some(m.connection), false, "", [Item(0, m)])
  {
    var a, b, c := Join(m), Cancel(m.token), Push(Item(0, m));
    EarlyCancelSteps(m);
    Unfold(None, [], a);
    var one := [] + [a];
    Unfold(None, one, b);
    var two := one + [b];
    Unfold(None, two, c);
    assert two + [c] == [a, b, c];
  }

  lemma EarlyCancelSteps(m: Message)
    ensures var (w0, x) := (Init(None), Item(0, m));
      && Enabled(w0, Join(m))
      && var w1 := Step(w0, Join(m));
      && Enabled(w1, Cancel(m.token)) && Step(w1, Cancel(m.token)) == w1 && Enabled(w1, Push(x))
      && var w2 := Step(w1, Push(x));
      && w2.alive && w2.inFlight == [] && w2.point == Point(Some(m.connection), false, "", [x])
  {
    var w1 := Step(Init(None), Join(m));
    assert w1.joining == [Item(0, m)] && w1.point.items == [];
    assert Rebind({}, None, Some(m.connection)) == {m.connection};
  }

  lemma {:induction false} NothingOwed(handle: Option<Handle>, es: seq<Event>, x: Item)
    requires Possible(handle, es) && forall i :: 0 <= i < |es| ==> !es[i].Snapshot?
    ensures Owed(handle, es, x) == []
  {
    if es != [] {
      NothingOwed(handle, Front(es), x);
    }
  }

  // ---------------------------------------------------------------- deduplication

  /** The payloads of the posts that take the lock, in lock order. */
  function Posted(handle: Option<Handle>, es: seq<Event>): seq<string> {
    if es == [] then []
    else Posted(handle, Front(es)) + if Reaches(handle, Front(es), Last(es)) then [Last(es).payload] else []
  }

  /** The payloads of the posts that made a batch. */
  function Accepted(handle: Option<Handle>, es: seq<Event>): seq<string>
    requires Possible(handle, es)
  {
    if es == [] then []
    else
      Accepted(handle, Front(es)) +
      if Last(es).Snapshot? && |Run(handle, es).inFlight| > |Run(handle, Front(es)).inFlight| then [Last(es).payload]
      else []
  }

  /** The payload posted just before position i; the empty string before the first. */
  function Before(s: seq<string>, i: nat): string
    requires i <= |s|
  {
    if i == 0 then "" else s[i - 1]
  }

  /** s with every element that repeats its predecessor removed. */
  function Destutter(s: seq<string>): seq<string> {
    if s == [] then [] else Destutter(Front(s)) + if Last(s) == Before(s, |s| - 1) then [] else [Last(s)]
  }

  lemma DestutterAppend(s: seq<string>, x: string)
    ensures Destutter(s + [x]) == Destutter(s) + if x == Before(s, |s|) then [] else [x]
    ensures Before(s + [x], |s| + 1) == x
  {
    assert Front(s + [x]) == s && Last(s + [x]) == x;
    assert Before(s + [x], |s|) == Before(s, |s|);
  }

  /** Deduplication is on whenever a post takes the lock. */
  predicate Deduplicating(handle: Option<Handle>, es: seq<Event>) {
    es == [] ||
    (Deduplicating(handle, Front(es)) && (Reaches(handle, Front(es), Last(es)) ==> DeduplicateAt(Front(es))))
  }

  lemma AcceptedStep(handle: Option<Handle>, es: seq<Event>)
    requires Possible(handle, es) && es != []
    ensures Accepted(handle, es) ==
            Accepted(handle, Front(es)) + if Taken(handle, Front(es), Last(es)) then [Last(es).payload] else []
  {
    if Last(es).Snapshot? {
      assert es == Front(es) + [Last(es)];
      PostTakesSnapshotIff(handle, Front(es), Last(es));
    }
  }

  /** Deduplication is destuttering: each post is compared with the post before it, accepted or not. */
  lemma {:induction false} DeduplicationIsDestuttering(handle: Option<Handle>, es: seq<Event>)
    requires Possible(handle, es) && Deduplicating(handle, es)
    ensures Accepted(handle, es) == Destutter(Posted(handle, es))
    ensures KeptAt(handle, es) == Before(Posted(handle, es), |Posted(handle, es)|)
  {
    if es != [] {
      var e, posted := Last(es), Posted(handle, Front(es));
      DeduplicationIsDestuttering(handle, Front(es));
      AcceptedStep(handle, es);
      DeduplicatedStep(handle, Front(es), e);
      assert es == Front(es) + [e];
      if Reaches(handle, Front(es), e) {
        assert Posted(handle, es) == posted + [e.payload];
        DestutterAppend(posted, e.payload);
      } else {
        assert Posted(handle, es) == posted + [] == posted;
        assert Accepted(handle, es) == Accepted(handle, Front(es)) + [];
      }
    }
  }

  /** While deduplication is on, a post that takes the lock is compared and kept, whether or not it is taken. */
  lemma DeduplicatedStep(handle: Option<Handle>, es: seq<Event>, e: Event)
    requires Reaches(handle, es, e) ==> DeduplicateAt(es)
    ensures Taken(handle, es, e) <==> Reaches(handle, es, e) && e.payload != KeptAt(handle, es)
    ensures KeptAt(handle, es + [e]) == if Reaches(handle, es, e) then e.payload else KeptAt(handle, es)
  {
    assert Front(es + [e]) == es && Last(es + [e]) == e;
  }

  /** Destuttering keeps the last element of its input, so it changes nothing the second time. */
  lemma {:induction false} DestutterIdempotent(s: seq<string>)
    ensures Before(Destutter(s), |Destutter(s)|) == Before(s, |s|)
    ensures Destutter(Destutter(s)) == Destutter(s)
  {
    if s != [] {
      var p, x := Front(s), Last(s);
      var d := Destutter(p);
      assert s == p + [x];
      DestutterIdempotent(p);
      DestutterAppend(p, x);
      DestutterAppend(d, x);
      assert Destutter(s) == if x == Before(p, |p|) then d else d + [x];
    }
  }

  /** The post at i took a snapshot while deduplication was on. */
  predicate Remembered(handle: Option<Handle>, es: seq<Event>, i: nat)
    requires i < |es|
  {
    Taken(handle, es[..i], es[i]) && DeduplicateAt(es[..i])
  }

  /** The latest remembered post is the one at i, and its payload is the given one. */
  ghost predicate LatestRemembered(handle: Option<Handle>, es: seq<Event>, i: int, payload: string) {
    && 0 <= i < |es| && Remembered(handle, es, i)
    && (forall k :: i < k < |es| ==> !Remembered(handle, es, k))
    && es[i].Snapshot? && es[i].payload == payload
  }

  lemma RememberedBefore(handle: Option<Handle>, es: seq<Event>, i: nat)
    requires i < |es| - 1
    ensures Remembered(handle, es, i) <==> Remembered(handle, Front(es), i)
  {
    assert es[..i] == Front(es)[..i];
  }

  /** The stored payload changes exactly with a remembered post. */
  lemma PreviousStep(handle: Option<Handle>, es: seq<Event>)
    requires Possible(handle, es) && es != []
    ensures Remembered(handle, es, |es| - 1) ==> Last(es).Snapshot?
    ensures Run(handle, es).point.previous ==
            if Remembered(handle, es, |es| - 1) then Last(es).payload else Run(handle, Front(es)).point.previous
  {
    assert es[..|es| - 1] == Front(es);
    PointIsRead(handle, es);
    PointIsRead(handle, Front(es));
  }

  /** With deduplication switched on and off, comparison is against the last payload accepted while it was on. */
  lemma {:induction false} ComparedWithLastDeduplicated(handle: Option<Handle>, es: seq<Event>) returns (i: int)
    requires Possible(handle, es)
    ensures i >= 0 ==> LatestRemembered(handle, es, i, Run(handle, es).point.previous)
    ensures i < 0 ==> Run(handle, es).point.previous == "" && forall k :: 0 <= k < |es| ==> !Remembered(handle, es, k)
  {
    i := -1;
    if es != [] {
      var n := |es| - 1;
      i := ComparedWithLastDeduplicated(handle, Front(es));
      PreviousStep(handle, es);
      if Remembered(handle, es, n) {
        i := n;
      } else if i >= 0 {
        LatestStays(handle, es, i, Run(handle, es).point.previous);
      } else {
        NoneRemembered(handle, es);
      }
    }
  }

  lemma LatestStays(handle: Option<Handle>, es: seq<Event>, i: int, payload: string)
    requires es != [] && LatestRemembered(handle, Front(es), i, payload) && !Remembered(handle, es, |es| - 1)
    ensures LatestRemembered(handle, es, i, payload)
  {
    forall k | i <= k < |es| - 1 ensures Remembered(handle, es, k) <==> Remembered(handle, Front(es), k) {
      RememberedBefore(handle, es, k);
    }
  }

  lemma NoneRemembered(handle: Option<Handle>, es: seq<Event>)
    requires es != [] && !Remembered(handle, es, |es| - 1)
    requires forall k :: 0 <= k < |es| - 1 ==> !Remembered(handle, Front(es), k)
    ensures forall k :: 0 <= k < |es| ==> !Remembered(handle, es, k)
  {
    forall k | 0 <= k < |es| - 1 ensures !Remembered(handle, es, k) {
      RememberedBefore(handle, es, k);
    }
  }
}
