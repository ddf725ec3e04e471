/** What every run of the publish/subscribe point keeps, and how it relates to immediate broadcast. */
module SubscriptionProofs {
  import opened Common
  import opened SubscriptionMachine

  // ---------------------------------------------------------------- conservation

  lemma {:induction false} FlatConcat(a: seq<Batch>, b: seq<Batch>)
    ensures Flat(a + b) == Flat(a) + Flat(b)
  {
    if a == [] {
      assert a + b == b;
    } else {
      assert (a + b)[1..] == a[1..] + b;
      FlatConcat(a[1..], b);
    }
  }

  lemma FlatOne(b: Batch)
    ensures Flat([b]) == Deliveries(b)
  {
    assert [b][1..] == [];
  }

  lemma SettledReplies(log: seq<Reply>, b: Batch, sent: nat)
    ensures Settled(log + Replies(b, sent)) == Settled(log) + Deliveries(b)
  {
  }

  /** Attaching moves one batch from anywhere among the running posts to the end of the queue. */
  lemma FlatSplit(a: seq<Batch>, b: Batch, c: seq<Batch>)
    ensures Flat(a + [b] + c) == Flat(a) + Deliveries(b) + Flat(c)
  {
    FlatConcat(a + [b], c);
    FlatConcat(a, [b]);
    FlatOne(b);
  }

  /** What the main loop has been given, before the posts still holding an unattached snapshot. */
  function Handed(w: World): seq<Delivery> {
    Settled(w.log) + Flat(w.queue)
  }

  /** A dispatch only moves deliveries from the queue to the log. */
  lemma DispatchKeepsHanded(w: World, sent: nat)
    requires w.queue != []
    ensures Handed(Step(w, Dispatch(sent))) == Handed(w)
  {
    SettledReplies(w.log, w.queue[0], sent);
    assert Flat(w.queue) == Deliveries(w.queue[0]) + Flat(w.queue[1..]);
    Associative(Settled(w.log), Deliveries(w.queue[0]), Flat(w.queue[1..]));
  }

  /** An attach appends the thread's batch to what the main loop holds. */
  lemma AttachHands(w: World, thread: nat)
    requires Enabled(w, Attach(thread))
    ensures var i := FindThread(w.inFlight, thread);
      && Handed(Step(w, Attach(thread))) == Handed(w) + Deliveries(w.inFlight[i])
      && Flat(w.inFlight) == Flat(w.inFlight[..i]) + Deliveries(w.inFlight[i]) + Flat(w.inFlight[i + 1..])
      && Flat(Step(w, Attach(thread)).inFlight) == Flat(w.inFlight[..i]) + Flat(w.inFlight[i + 1..])
  {
    var i := FindThread(w.inFlight, thread);
    var b := w.inFlight[i];
    assert w.inFlight == w.inFlight[..i] + [b] + w.inFlight[i + 1..];
    FlatSplit(w.inFlight[..i], b, w.inFlight[i + 1..]);
    FlatConcat(w.inFlight[..i], w.inFlight[i + 1..]);
    FlatConcat(w.queue, [b]);
    FlatOne(b);
    Associative(Settled(w.log), Flat(w.queue), Deliveries(b));
  }

  /** A snapshot adds what it announces behind every other running post. */
  lemma SnapshotAppends(w: World, e: Event)
    requires Enabled(w, e) && e.Snapshot?
    ensures Flat(Step(w, e).inFlight) == Flat(w.inFlight) + Announced(w, e)
    ensures Handed(Step(w, e)) == Handed(w)
  {
    if Accepts(w.point, e.payload, e.contextOk) {
      var b := Batch(e.thread, e.payload, Messages(w.point.items));
      FlatConcat(w.inFlight, [b]);
      FlatOne(b);
    }
  }

  lemma OtherStep(w: World, e: Event)
    requires Enabled(w, e) && !e.Snapshot? && !e.Attach?
    ensures Announced(w, e) == []
    ensures Handed(Step(w, e)) == Handed(w)
    ensures Step(w, e).inFlight == w.inFlight
  {
    if e.Dispatch? {
      DispatchKeepsHanded(w, e.sent);
    }
  }

  /** Conservation, in every interleaving: nothing is lost, duplicated or invented, for any class f of deliveries. */
  lemma {:induction false} Conservation(handle: Option<Handle>, es: seq<Event>, f: Delivery -> bool)
    requires Possible(handle, es)
    ensures multiset(Filter(Pipeline(Run(handle, es)), f)) == multiset(Filter(Broadcast(handle, es), f))
  {
    if es != [] {
      Conservation(handle, Front(es), f);
      ConservationStep(Run(handle, Front(es)), Last(es), Broadcast(handle, Front(es)), f);
    }
  }

  lemma ConservationStep(w: World, e: Event, sent: seq<Delivery>, f: Delivery -> bool)
    requires Enabled(w, e)
    requires multiset(Filter(Pipeline(w), f)) == multiset(Filter(sent, f))
    ensures multiset(Filter(Pipeline(Step(w, e)), f)) == multiset(Filter(sent + Announced(w, e), f))
  {
    FilterConcat(Handed(w), Flat(w.inFlight), f);
    FilterConcat(Handed(Step(w, e)), Flat(Step(w, e).inFlight), f);
    if e.Snapshot? {
      SnapshotConserves(w, e, sent, f);
    } else {
      NothingAnnounced(w, e, sent);
      MovedConserves(w, e, f);
    }
  }

  lemma NothingAnnounced(w: World, e: Event, sent: seq<Delivery>)
    requires !e.Snapshot?
    ensures sent + Announced(w, e) == sent
  {
  }

  /** Steps other than snapshots only move deliveries. */
  lemma MovedConserves(w: World, e: Event, f: Delivery -> bool)
    requires Enabled(w, e) && !e.Snapshot?
    ensures var w' := Step(w, e);
      multiset(Filter(Handed(w'), f)) + multiset(Filter(Flat(w'.inFlight), f)) ==
      multiset(Filter(Handed(w), f)) + multiset(Filter(Flat(w.inFlight), f))
  {
    if e.Attach? {
      AttachConserves(w, e.thread, f);
    } else {
      OtherStep(w, e);
    }
  }

  lemma SnapshotConserves(w: World, e: Event, sent: seq<Delivery>, f: Delivery -> bool)
    requires Enabled(w, e) && e.Snapshot?
    ensures Handed(Step(w, e)) == Handed(w)
    ensures Filter(Flat(Step(w, e).inFlight), f) == Filter(Flat(w.inFlight), f) + Filter(Announced(w, e), f)
    ensures Filter(sent + Announced(w, e), f) == Filter(sent, f) + Filter(Announced(w, e), f)
  {
    SnapshotAppends(w, e);
    FilterConcat(sent, Announced(w, e), f);
    FilterConcat(Flat(w.inFlight), Announced(w, e), f);
  }

  lemma AttachConserves(w: World, thread: nat, f: Delivery -> bool)
    requires Enabled(w, Attach(thread))
    ensures var w' := Step(w, Attach(thread));
      multiset(Filter(Handed(w'), f)) + multiset(Filter(Flat(w'.inFlight), f)) ==
      multiset(Filter(Handed(w), f)) + multiset(Filter(Flat(w.inFlight), f))
  {
    var a, b, c := AttachParts(w, thread);
    RegroupMultiset(Handed(w), a, b, c, f);
  }

  lemma AttachParts(w: World, thread: nat) returns (a: seq<Delivery>, b: seq<Delivery>, c: seq<Delivery>)
    requires Enabled(w, Attach(thread))
    ensures Handed(Step(w, Attach(thread))) == Handed(w) + b
    ensures Flat(w.inFlight) == a + b + c && Flat(Step(w, Attach(thread)).inFlight) == a + c
  {
    var i := FindThread(w.inFlight, thread);
    AttachHands(w, thread);
    a, b, c := Flat(w.inFlight[..i]), Deliveries(w.inFlight[i]), Flat(w.inFlight[i + 1..]);
  }

  lemma RegroupMultiset<T>(h: seq<T>, a: seq<T>, b: seq<T>, c: seq<T>, f: T -> bool)
    ensures multiset(Filter(h + b, f)) + multiset(Filter(a + c, f)) ==
            multiset(Filter(h, f)) + multiset(Filter(a + b + c, f))
  {
    FilterConcat(h, b, f);
    FilterConcat(a + b, c, f);
    FilterConcat(a, b, f);
    FilterConcat(a, c, f);
  }

  // ---------------------------------------------------------------- the invariant of every reachable state

  ghost predicate DistinctIds(items: seq<Item>) {
    forall i, j :: 0 <= i < j < |items| ==> items[i].id != items[j].id
  }

  ghost predicate OnePostPerThread(bs: seq<Batch>) {
    forall i, j :: 0 <= i < j < |bs| ==> bs[i].thread != bs[j].thread
  }

  /**
   Ownership: the registered peer watches are exactly the items of the list and of the running addSubscription
   calls, the cancel notification is registered on the current handle and nowhere else, and nothing outlives
   the destructor.
   */
  ghost predicate Inv(w: World) {
    && DistinctIds(w.point.items) && DistinctIds(w.joining) && Ids(w.point.items) !! Ids(w.joining)
    && w.watches == Ids(w.point.items) + Ids(w.joining)
    && (forall id :: id in w.watches ==> id < w.nextId)
    && OnePostPerThread(w.inFlight)
    && w.notified == (if w.alive && w.point.handle.Some? then {w.point.handle.value} else {})
    && (!w.alive ==> w.point.items == [] && w.joining == [])
  }

  lemma {:induction false} Reachable(handle: Option<Handle>, es: seq<Event>)
    requires Possible(handle, es)
    ensures Inv(Run(handle, es))
  {
    if es != [] {
      Reachable(handle, Front(es));
      InvStep(Run(handle, Front(es)), Last(es));
    }
  }

  lemma InvStep(w: World, e: Event)
    requires Inv(w) && Enabled(w, e)
    ensures Inv(Step(w, e))
  {
    match e
    case Join(m) =>
      JoinKeeps(w, m);
    case Push(x) =>
      PushKeeps(w, x);
    case Cancel(token) =>
      EraseKeepsInv(w, FindToken(w.point.items, token));
    case PeerStatus(id, up) =>
      EraseKeepsInv(w, FindId(w.point.items, id));
    case _ =>
      OtherKeepsInv(w, e);
  }

  lemma JoinKeeps(w: World, m: Message)
    requires Inv(w) && w.alive
    ensures Inv(Step(w, Join(m)))
  {
    AppendIds(w.joining, Item(w.nextId, m));
  }

  lemma PushKeeps(w: World, x: Item)
    requires Inv(w) && w.alive && x in w.joining
    ensures Inv(Step(w, Push(x)))
  {
    AppendIds(w.point.items, x);
    WithoutIds(w.joining, FindItem(w.joining, x));
  }

  lemma OtherKeepsInv(w: World, e: Event)
    requires Inv(w) && Enabled(w, e) && !e.Join? && !e.Push? && !e.Cancel? && !e.PeerStatus?
    ensures Inv(Step(w, e))
  {
  }

  lemma AppendIds(items: seq<Item>, x: Item)
    ensures Ids(items + [x]) == Ids(items) + {x.id}
  {
    IdsConcat(items, [x]);
  }

  lemma WithoutIds(items: seq<Item>, i: nat)
    requires DistinctIds(items) && i < |items|
    ensures DistinctIds(Without(items, i))
    ensures Ids(Without(items, i)) == Ids(items) - {items[i].id}
  {
    var r := Without(items, i);
    assert items == items[..i] + [items[i]] + items[i + 1..];
    IdsConcat(items[..i], items[i + 1..]);
    IdsConcat(items[..i], [items[i]]);
    IdsConcat(items[..i] + [items[i]], items[i + 1..]);
    assert items[i].id !in Ids(r);
  }

  lemma IdsConcat(a: seq<Item>, b: seq<Item>)
    ensures Ids(a + b) == Ids(a) + Ids(b)
  {
    assert forall x :: x in a + b <==> x in a || x in b;
  }

  lemma EraseKeepsInv(w: World, i: nat)
    requires Inv(w)
    ensures Inv(Erase(w, i))
  {
    if i < |w.point.items| {
      WithoutIds(w.point.items, i);
    }
  }

  // ---------------------------------------------------------------- order

  lemma {:induction false} FlatOfOthers(bs: seq<Batch>, t: nat, f: Delivery -> bool)
    requires forall d :: f(d) ==> d.thread == t
    requires forall i :: 0 <= i < |bs| ==> bs[i].thread != t
    ensures Filter(Flat(bs), f) == []
  {
    if bs != [] {
      FilterNone(Deliveries(bs[0]), f);
      FilterConcat(Deliveries(bs[0]), Flat(bs[1..]), f);
      FlatOfOthers(bs[1..], t, f);
    }
  }

  /**
   Per-thread order, in every interleaving: the deliveries posted by one thread (restricted further by f, for
   instance to one subscriber) leave in the order of the immediate broadcast, although attaching happens
   outside the lock.
   */
  lemma {:induction false} ThreadOrder(handle: Option<Handle>, es: seq<Event>, t: nat, f: Delivery -> bool)
    requires Possible(handle, es)
    requires forall d :: f(d) ==> d.thread == t
    ensures Filter(Pipeline(Run(handle, es)), f) == Filter(Broadcast(handle, es), f)
  {
    if es != [] {
      ThreadOrder(handle, Front(es), t, f);
      Reachable(handle, Front(es));
      ThreadOrderStep(Run(handle, Front(es)), Last(es), t, Broadcast(handle, Front(es)), f);
    }
  }

  lemma AttachKeepsThreadOrder(w: World, thread: nat, t: nat, f: Delivery -> bool)
    requires Inv(w) && Enabled(w, Attach(thread))
    requires forall d :: f(d) ==> d.thread == t
    ensures var w' := Step(w, Attach(thread));
      Filter(Handed(w'), f) + Filter(Flat(w'.inFlight), f) == Filter(Handed(w), f) + Filter(Flat(w.inFlight), f)
  {
    var i := FindThread(w.inFlight, thread);
    var a, b, c := Flat(w.inFlight[..i]), Deliveries(w.inFlight[i]), Flat(w.inFlight[i + 1..]);
    AttachHands(w, thread);
    if thread == t {
      FlatOfOthers(w.inFlight[..i], t, f);
    } else {
      FilterNone(b, f);
    }
    Regroup(Handed(w), a, b, c, f);
  }

  lemma Regroup<T>(h: seq<T>, a: seq<T>, b: seq<T>, c: seq<T>, f: T -> bool)
    requires Filter(a, f) == [] || Filter(b, f) == []
    ensures Filter(h + b, f) + Filter(a + c, f) == Filter(h, f) + Filter(a + b + c, f)
  {
    FilterConcat(h, b, f);
    FilterConcat(a + b, c, f);
    FilterConcat(a, b, f);
    FilterConcat(a, c, f);
    Swap(Filter(h, f), Filter(a, f), Filter(b, f), Filter(c, f));
  }

  lemma Swap<T>(h: seq<T>, a: seq<T>, b: seq<T>, c: seq<T>)
    requires a == [] || b == []
    ensures (h + b) + (a + c) == h + ((a + b) + c)
  {
  }

  lemma ThreadOrderStep(w: World, e: Event, t: nat, sent: seq<Delivery>, f: Delivery -> bool)
    requires Inv(w) && Enabled(w, e)
    requires forall d :: f(d) ==> d.thread == t
    requires Filter(Pipeline(w), f) == Filter(sent, f)
    ensures Filter(Pipeline(Step(w, e)), f) == Filter(sent + Announced(w, e), f)
  {
    var w' := Step(w, e);
    FilterConcat(Handed(w), Flat(w.inFlight), f);
    FilterConcat(Handed(w'), Flat(w'.inFlight), f);
    if e.Snapshot? {
      SnapshotAppends(w, e);
      FilterConcat(sent, Announced(w, e), f);
      FilterConcat(Flat(w.inFlight), Announced(w, e), f);
      Associative(Filter(Handed(w), f), Filter(Flat(w.inFlight), f), Filter(Announced(w, e), f));
    } else {
      NothingAnnounced(w, e, sent);
      if e.Attach? {
        AttachKeepsThreadOrder(w, e.thread, t, f);
      } else {
        OtherStep(w, e);
      }
    }
  }

  /** No post takes its snapshot while another is between its two halves. */
  ghost predicate Serialized(handle: Option<Handle>, es: seq<Event>)
    requires Possible(handle, es)
  {
    es == [] || (Serialized(handle, Front(es)) && |Run(handle, es).inFlight| <= 1)
  }

  /** Ordered refinement: when posts are serialized, delivered then queued then unattached is the ideal sequence. */
  lemma {:induction false} SerializedOrder(handle: Option<Handle>, es: seq<Event>)
    requires Possible(handle, es) && Serialized(handle, es)
    ensures Pipeline(Run(handle, es)) == Broadcast(handle, es)
  {
    if es != [] {
      var w, e := Run(handle, Front(es)), Last(es);
      SerializedOrder(handle, Front(es));
      if e.Snapshot? {
        SnapshotAppends(w, e);
        Associative(Handed(w), Flat(w.inFlight), Announced(w, e));
      } else if e.Attach? {
        AttachHands(w, e.thread);
        assert w.inFlight[..0] == [] && w.inFlight[1..] == [] && Flat(w.inFlight) == Deliveries(w.inFlight[0]);
        assert Step(w, e).inFlight == [];
      } else {
        OtherStep(w, e);
      }
    }
  }

  /** When no `respond` throws, what the bus carried is what was dispatched. */
  lemma AllResponded(w: World)
    requires forall i :: 0 <= i < |w.log| ==> w.log[i].ok
    ensures Responded(w.log) == Settled(w.log)
  {
    FilterAll(w.log, (r: Reply) => r.ok);
  }

  /** When `respond` throws at recipient sent, exactly the recipients before it in the snapshot are served. */
  lemma BatchPrefix(log: seq<Reply>, b: Batch, sent: nat)
    ensures Responded(log + Replies(b, sent)) ==
            Responded(log) + Deliveries(b)[..if sent < |b.messages| then sent else |b.messages|]
  {
    var f := (r: Reply) => r.ok;
    var k := if sent < |b.messages| then sent else |b.messages|;
    FilterConcat(log, Replies(b, sent), f);
    SentReplies(b, sent, k);
    SettledConcat(Filter(log, f), Replies(b, sent)[..k]);
    SettledPrefix(b, sent, k);
  }

  lemma SentReplies(b: Batch, sent: nat, k: nat)
    requires k == if sent < |b.messages| then sent else |b.messages|
    ensures Filter(Replies(b, sent), (r: Reply) => r.ok) == Replies(b, sent)[..k]
  {
    var f := (r: Reply) => r.ok;
    var rs := Replies(b, sent);
    assert rs == rs[..k] + rs[k..];
    FilterConcat(rs[..k], rs[k..], f);
    FilterAll(rs[..k], f);
    FilterNone(rs[k..], f);
  }

  lemma SettledConcat(a: seq<Reply>, b: seq<Reply>)
    ensures Settled(a + b) == Settled(a) + Settled(b)
  {
  }

  lemma SettledPrefix(b: Batch, sent: nat, k: nat)
    requires k <= |b.messages|
    ensures Settled(Replies(b, sent)[..k]) == Deliveries(b)[..k]
  {
  }
}
