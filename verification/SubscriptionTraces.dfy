/**
 The state of the publish/subscribe point read off the trace alone: its handle, its deduplication flag, the payload
 it compares with, which posts take a snapshot, and who is between the two halves of `addSubscription`.
 */
module SubscriptionTraces {
  import opened Common
  import opened SubscriptionMachine

  lemma Unfold(handle: Option<Handle>, es: seq<Event>, e: Event)
    requires Possible(handle, es) && Enabled(Run(handle, es), e)
    ensures Possible(handle, es + [e]) && Run(handle, es + [e]) == Step(Run(handle, es), e)
    ensures Front(es + [e]) == es && Last(es + [e]) == e
  {
    assert Front(es + [e]) == es && Last(es + [e]) == e;
  }

  lemma UnfoldLast(handle: Option<Handle>, es: seq<Event>, e: Event)
    requires Possible(handle, es + [e])
    ensures Possible(handle, es) && Enabled(Run(handle, es), e)
    ensures Run(handle, es + [e]) == Step(Run(handle, es), e)
  {
    assert Front(es + [e]) == es && Last(es + [e]) == e;
  }

  // ---------------------------------------------------------------- posts

  /** The handle: the one last set, or the connection of the first subscriber that came while none was set. */
  function HandleAt(start: Option<Handle>, es: seq<Event>): Option<Handle> {
    if es == [] then start
    else
      var before := HandleAt(start, Front(es));
      match Last(es)
      case SetHandle(h) => h
      case Join(m) => if before == None then Some(m.connection) else before
      case JoinRefused(m) => if before == None then Some(m.connection) else before
      case _ => before
  }

  /** The flag last set; off at first. */
  function DeduplicateAt(es: seq<Event>): bool {
    if es == [] then false
    else match Last(es)
      case SetDeduplicate(on) => on
      case _ => DeduplicateAt(Front(es))
  }

  /** The post gets past its checks and takes the lock. */
  predicate Reaches(start: Option<Handle>, before: seq<Event>, e: Event) {
    e.Snapshot? && HandleAt(start, before) != None && e.contextOk
  }

  /**
   The post takes a snapshot: it takes the lock, and deduplication is off or its payload differs from that of the
   last post that took one while it was on.
   */
  predicate Taken(start: Option<Handle>, before: seq<Event>, e: Event)
    decreases |before|, 1
  {
    Reaches(start, before, e) && (!DeduplicateAt(before) || e.payload != KeptAt(start, before))
  }

  /** The payload of the last post that took a snapshot while deduplication was on; empty if there was none. */
  function KeptAt(start: Option<Handle>, es: seq<Event>): string
    decreases |es|, 0
  {
    if es == [] then ""
    else if Taken(start, Front(es), Last(es)) && DeduplicateAt(Front(es)) then Last(es).payload
    else KeptAt(start, Front(es))
  }

  /** The fields of the point are what the trace says. */
  lemma {:induction false} PointIsRead(handle: Option<Handle>, es: seq<Event>)
    requires Possible(handle, es)
    ensures var p := Run(handle, es).point;
      && p.handle == HandleAt(handle, es)
      && p.deduplicate == DeduplicateAt(es)
      && p.previous == KeptAt(handle, es)
  {
    if es != [] {
      PointIsRead(handle, Front(es));
      PointStep(Run(handle, Front(es)), Last(es));
    }
  }

  lemma PointStep(w: World, e: Event)
    requires Enabled(w, e)
    ensures var (p, p') := (w.point, Step(w, e).point);
      && p'.handle == (match e
                       case SetHandle(h) => h
                       case Join(m) => if p.handle == None then Some(m.connection) else p.handle
                       case JoinRefused(m) => if p.handle == None then Some(m.connection) else p.handle
                       case _ => p.handle)
      && p'.deduplicate == (if e.SetDeduplicate? then e.on else p.deduplicate)
      && p'.previous == (if e.Snapshot? && p.handle != None && e.contextOk && p.deduplicate then e.payload
                         else p.previous)
  {
  }

  /** What a post does to the running posts, whatever came before: a batch for everyone listed, iff it is taken. */
  lemma PostTakesSnapshotIff(handle: Option<Handle>, es: seq<Event>, e: Event)
    requires Possible(handle, es + [e]) && e.Snapshot?
    ensures Possible(handle, es)
    ensures var (w, w') := (Run(handle, es), Run(handle, es + [e]));
      if Taken(handle, es, e) then
        && |w'.inFlight| == |w.inFlight| + 1 && w'.inFlight[..|w.inFlight|] == w.inFlight
        && Last(w'.inFlight).thread == e.thread && Last(w'.inFlight).payload == e.payload
        && |Last(w'.inFlight).messages| == |w.point.items|
        && forall i :: 0 <= i < |w.point.items| ==> Last(w'.inFlight).messages[i] == w.point.items[i].message
      else w'.inFlight == w.inFlight
  {
    UnfoldLast(handle, es, e);
    PointIsRead(handle, es);
  }

  lemma AnnouncedIffTaken(handle: Option<Handle>, es: seq<Event>, e: Event)
    requires Possible(handle, es)
    ensures Announced(Run(handle, es), e) ==
            if Taken(handle, es, e) then Deliveries(Batch(e.thread, e.payload, Messages(Run(handle, es).point.items)))
            else []
  {
    PointIsRead(handle, es);
  }

  // ---------------------------------------------------------------- addSubscription

  /** How many items have been allocated, refused ones included. */
  function Allocated(es: seq<Event>): nat {
    if es == [] then 0
    else Allocated(Front(es)) + if Last(es).Join? || Last(es).JoinRefused? then 1 else 0
  }

  /** x was created by the j-th event, for its own message. */
  ghost predicate JoinedAt(es: seq<Event>, j: int, x: Item) {
    0 <= j < |es| && es[j] == Join(x.message) && x.id == Allocated(es[..j])
  }

  /** x was created and has not been pushed since. */
  ghost predicate Between(es: seq<Event>, x: Item) {
    exists j :: JoinedAt(es, j, x) && forall k :: j < k < |es| ==> es[k] != Push(x)
  }

  lemma BetweenStep(es: seq<Event>, x: Item)
    requires es != []
    ensures Between(es, x) <==>
            || (Last(es) == Join(x.message) && x.id == Allocated(Front(es)))
            || (Between(Front(es), x) && Last(es) != Push(x))
  {
    var n := |es| - 1;
    assert es[..n] == Front(es);
    if Last(es) == Join(x.message) && x.id == Allocated(Front(es)) {
      assert JoinedAt(es, n, x);
    }
    if Between(Front(es), x) && Last(es) != Push(x) {
      var j :| JoinedAt(Front(es), j, x) && forall k :: j < k < n ==> Front(es)[k] != Push(x);
      JoinedBefore(es, j, x);
      assert forall k :: j < k < n ==> es[k] == Front(es)[k];
    }
    if j :| JoinedAt(es, j, x) && forall k :: j < k < |es| ==> es[k] != Push(x) {
      JoinedBefore(es, j, x);
      assert forall k :: j < k < n ==> es[k] == Front(es)[k];
    }
  }

  lemma JoinedBefore(es: seq<Event>, j: int, x: Item)
    requires es != []
    ensures j < |es| - 1 ==> (JoinedAt(es, j, x) <==> JoinedAt(Front(es), j, x))
  {
    if 0 <= j < |es| - 1 {
      assert Front(es)[..j] == es[..j];
    }
  }

  lemma {:induction false} AllocatedIsNext(handle: Option<Handle>, es: seq<Event>)
    requires Possible(handle, es)
    ensures Run(handle, es).nextId == Allocated(es)
    ensures forall x :: x in Run(handle, es).joining ==> x.id < Allocated(es)
    ensures forall i, j :: 0 <= i < j < |Run(handle, es).joining| ==>
              Run(handle, es).joining[i] != Run(handle, es).joining[j]
  {
    if es != [] {
      AllocatedIsNext(handle, Front(es));
      JoiningStep(Run(handle, Front(es)), Last(es));
    }
  }

  lemma JoiningStep(w: World, e: Event)
    requires Enabled(w, e)
    requires forall x :: x in w.joining ==> x.id < w.nextId
    requires forall i, j :: 0 <= i < j < |w.joining| ==> w.joining[i] != w.joining[j]
    ensures var w' := Step(w, e);
      && w'.nextId == w.nextId + (if e.Join? || e.JoinRefused? then 1 else 0)
      && (forall x :: x in w'.joining <==>
            (e.Join? && x == Item(w.nextId, e.message)) || (x in w.joining && e != Push(x)))
      && (forall i, j :: 0 <= i < j < |w'.joining| ==> w'.joining[i] != w'.joining[j])
  {
    if e.Push? {
      WithoutOne(w.joining, FindItem(w.joining, e.item));
    }
  }

  lemma WithoutOne(items: seq<Item>, k: nat)
    requires k < |items| && forall i, j :: 0 <= i < j < |items| ==> items[i] != items[j]
    ensures var r := Without(items, k);
      && (forall x :: x in r <==> x in items && x != items[k])
      && (forall i, j :: 0 <= i < j < |r| ==> r[i] != r[j])
  {
    var r := Without(items, k);
    assert forall i :: 0 <= i < |r| ==> r[i] == items[if i < k then i else i + 1];
    forall x | x in items && x != items[k] ensures x in r {
      var i :| 0 <= i < |items| && items[i] == x;
      assert r[if i < k then i else i - 1] == x;
    }
  }

  /** The running addSubscription calls are those the trace says, each with the message it was called for. */
  lemma {:induction false} JoiningIsRead(handle: Option<Handle>, es: seq<Event>, x: Item)
    requires Possible(handle, es)
    ensures x in Run(handle, es).joining <==> Between(es, x)
  {
    if es != [] {
      JoiningIsRead(handle, Front(es), x);
      AllocatedIsNext(handle, Front(es));
      JoiningStep(Run(handle, Front(es)), Last(es));
      BetweenStep(es, x);
    }
  }
}
