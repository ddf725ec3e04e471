/**
 Outstanding calls of a service point as a step machine. `makeCall` is three steps: the bus call, after which the
 bus holds the new context while only the caller's local pointer owns it; the write of the token into the call;
 and the locked insertion into the table. Dispatches, cancels and the destructor are single steps; a handler that
 re-enters is just the steps that follow its dispatch, because nothing of the call is touched once the handler has
 started.
 */
module CallMachine {
  import opened Common

  /** Tokens are positive; 0 is the token of a call that makeCall has not written its token into yet. */
  type Token = nat

  /** A heap-allocated call; id stands for its address. */
  datatype Call = Call(id: nat, token: Token, oneReply: bool)

  /** A call owned by the local pointer of a running makeCall, and the token the bus gave it. */
  datatype Local = Local(thread: nat, call: Call, issued: Token)

  /** bus maps each live token to the context it was registered with: a call's address, or none. */
  datatype World = World(
    alive: bool,
    calls: map<Token, Call>,
    locals: seq<Local>,
    bus: map<Token, Option<nat>>,
    used: set<Token>,
    nextId: nat,
    runs: seq<Token>)

  datatype Event =
    | Begin(thread: nat, token: Token, oneReply: bool)
    | Stamp(thread: nat)
    | Insert(thread: nat)
    | FireAndForget(token: Token)
    | Dispatch(token: Token)
    | CancelCall(token: Token)
    | Destroy

  const INITIAL := World(true, map[], [], map[], {0}, 0, [])

  function FindLocal(locals: seq<Local>, thread: nat): (r: nat)
    ensures r <= |locals|
    ensures r < |locals| ==> locals[r].thread == thread
    ensures forall j :: 0 <= j < r ==> locals[j].thread != thread
  {
    if locals == [] || locals[0].thread == thread then 0 else 1 + FindLocal(locals[1..], thread)
  }

  /** The call at an address: in the table, or owned by a running makeCall. */
  ghost predicate Owns(w: World, id: nat, c: Call) {
    && c.id == id
    && ((exists t :: t in w.calls && w.calls[t] == c) || (exists i :: 0 <= i < |w.locals| && w.locals[i].call == c))
  }

  /** What the dispatcher finds when it follows the context pointer of a live token. */
  function Target(w: World, token: Token): Option<Call>
    requires token in w.bus
  {
    if w.bus[token].None? then None
    else if token in w.calls && w.calls[token].id == w.bus[token].value then Some(w.calls[token])
    else
      var i := FindIssued(w.locals, token);
      if i < |w.locals| && w.locals[i].call.id == w.bus[token].value then Some(w.locals[i].call) else None
  }

  function FindIssued(locals: seq<Local>, token: Token): (r: nat)
    ensures r <= |locals|
    ensures r < |locals| ==> locals[r].issued == token
    ensures forall j :: 0 <= j < r ==> locals[j].issued != token
  {
    if locals == [] || locals[0].issued == token then 0 else 1 + FindIssued(locals[1..], token)
  }

  /** The thread is inside makeCall, after the bus call; stamped tells whether it has written the token. */
  predicate Running(locals: seq<Local>, thread: nat, stamped: bool) {
    var i := FindLocal(locals, thread);
    i < |locals| && (stamped <==> locals[i].call.token != 0)
  }

  function Stamped(l: Local): Local {
    l.(call := l.call.(token := l.issued))
  }

  /** Tokens are fresh and non-zero; the bus delivers only to tokens it still holds. */
  predicate Enabled(w: World, e: Event) {
    match e
    case Begin(thread, token, _) =>
      w.alive && FindLocal(w.locals, thread) == |w.locals| && token != 0 && token !in w.used
    case Stamp(thread) => w.alive && Running(w.locals, thread, false)
    case Insert(thread) => w.alive && Running(w.locals, thread, true)
    case FireAndForget(token) => w.alive && token != 0 && token !in w.used
    case Dispatch(token) => token in w.bus
    case CancelCall(_) => w.alive
    case Destroy => w.alive && w.locals == []
  }

  function Step(w: World, e: Event): World
    requires Enabled(w, e)
  {
    match e
    case Begin(thread, token, oneReply) =>
      w.(locals := w.locals + [Local(thread, Call(w.nextId, 0, oneReply), token)],
         bus := w.bus[token := Some(w.nextId)],
         used := w.used + {token},
         nextId := w.nextId + 1)
    case Stamp(thread) =>
      var i := FindLocal(w.locals, thread);
      w.(locals := w.locals[i := Stamped(w.locals[i])])
    case Insert(thread) =>
      var i := FindLocal(w.locals, thread);
      w.(locals := Without(w.locals, i), calls := w.calls[w.locals[i].issued := w.locals[i].call])
    case FireAndForget(token) =>
      w.(bus := w.bus[token := None], used := w.used + {token})
    case Dispatch(token) =>
      var target := Target(w, token);
      if target.None? then w
      else
        var call := target.value;
        var w' := if call.oneReply then w.(bus := w.bus - {call.token}, calls := w.calls - {call.token}) else w;
        w'.(runs := w.runs + [token])
    case CancelCall(token) =>
      w.(bus := w.bus - {token}, calls := w.calls - {token})
    case Destroy =>
      w.(alive := false, bus := w.bus - w.calls.Keys, calls := map[])
  }

  predicate Possible(es: seq<Event>)
    decreases |es|, 0
  {
    es == [] || (Possible(Front(es)) && Enabled(Run(Front(es)), Last(es)))
  }

  function Run(es: seq<Event>): World
    requires Possible(es)
    decreases |es|, 1
  {
    if es == [] then INITIAL else Step(Run(Front(es)), Last(es))
  }

  // ---------------------------------------------------------------- ownership

  ghost predicate DistinctLocals(locals: seq<Local>) {
    forall i, j :: 0 <= i < j < |locals| ==>
      && locals[i].thread != locals[j].thread
      && locals[i].issued != locals[j].issued
      && locals[i].call.id != locals[j].call.id
  }

  /**
   Ownership: every context the bus holds is a live call with exactly one owner, either the local pointer of a
   running makeCall or the table entry under its own token; a call not yet inserted has its own token or, before
   makeCall wrote it, 0; once the service point is gone the bus holds no context.
   */
  ghost predicate Inv(w: World) {
    && TableOk(w)
    && LocalsOk(w)
    && BusOk(w)
    && (!w.alive ==> w.calls == map[] && w.locals == [])
  }

  ghost predicate TableOk(w: World) {
    && 0 in w.used && 0 !in w.calls && 0 !in w.bus
    && (forall t :: t in w.calls ==> t in w.used && w.calls[t].token == t && w.calls[t].id < w.nextId)
    && (forall t, u :: t in w.calls && u in w.calls && t != u ==> w.calls[t].id != w.calls[u].id)
  }

  ghost predicate LocalsOk(w: World) {
    && DistinctLocals(w.locals)
    && (forall l :: l in w.locals ==>
          && l.issued != 0 && l.issued in w.used && l.issued !in w.calls
          && (l.call.token == 0 || l.call.token == l.issued) && l.call.id < w.nextId)
    && (forall t, l :: t in w.calls && l in w.locals ==> w.calls[t].id != l.call.id)
  }

  ghost predicate BusOk(w: World) {
    && (forall t :: t in w.bus ==> t in w.used)
    && (forall t :: t in w.bus && w.bus[t].Some? ==> OwnedOnce(w, t))
    && (forall t :: t in w.bus && w.bus[t].None? ==> t !in w.calls && forall l :: l in w.locals ==> l.issued != t)
  }

  /** The context of token t is a call owned by the table under t, or by a makeCall that was issued t, and not both. */
  ghost predicate OwnedOnce(w: World, t: Token)
    requires t in w.bus && w.bus[t].Some?
  {
    if t in w.calls then w.calls[t].id == w.bus[t].value
    else exists l :: l in w.locals && l.issued == t && l.call.id == w.bus[t].value
  }

  lemma {:induction false} Reachable(es: seq<Event>)
    requires Possible(es)
    ensures Inv(Run(es))
  {
    if es != [] {
      Reachable(Front(es));
      var w, e := Run(Front(es)), Last(es);
      match e {
        case Begin(_, _, _) => BeginKeeps(w, e);
        case Stamp(_) => StampKeeps(w, e);
        case Insert(_) => InsertKeeps(w, e);
        case Dispatch(token) => DispatchKeeps(w, token);
        case _ => OtherKeeps(w, e);
      }
    }
  }

  lemma BeginKeeps(w: World, e: Event)
    requires Inv(w) && Enabled(w, e) && e.Begin?
    ensures Inv(Step(w, e))
  {
    BeginKeepsLocals(w, e);
    var w' := Step(w, e);
    forall t | t in w'.bus && w'.bus[t].Some? ensures OwnedOnce(w', t) {
      BeginKeepsOwner(w, e, t);
    }
  }

  lemma BeginKeepsLocals(w: World, e: Event)
    requires Inv(w) && Enabled(w, e) && e.Begin?
    ensures LocalsOk(Step(w, e))
  {
  }

  lemma BeginKeepsOwner(w: World, e: Event, t: Token)
    requires Enabled(w, e) && e.Begin? && (t == e.token || (t in w.bus && w.bus[t].Some? && OwnedOnce(w, t)))
    requires e.token !in w.calls
    ensures OwnedOnce(Step(w, e), t)
  {
    var w' := Step(w, e);
    if t == e.token {
      assert Last(w'.locals) in w'.locals;
    } else if t !in w.calls {
      var l :| l in w.locals && l.issued == t && l.call.id == w.bus[t].value;
      assert l in w'.locals;
    }
  }

  /** Writing the token changes neither owner nor address. */
  lemma StampKeeps(w: World, e: Event)
    requires Inv(w) && Enabled(w, e) && e.Stamp?
    ensures Inv(Step(w, e))
  {
    var w' := Step(w, e);
    var k := FindLocal(w.locals, e.thread);
    StampedLocals(w.locals, k);
    forall t | t in w'.bus && w'.bus[t].Some? ensures OwnedOnce(w', t) {
      assert OwnedOnce(w, t);
      if t !in w.calls {
        var l :| l in w.locals && l.issued == t && l.call.id == w.bus[t].value;
        assert (if l == w.locals[k] then Stamped(l) else l) in w'.locals;
      }
    }
  }

  lemma StampedLocals(locals: seq<Local>, k: nat)
    requires DistinctLocals(locals) && k < |locals|
    ensures var r := locals[k := Stamped(locals[k])];
      && DistinctLocals(r)
      && (forall l :: l in r ==> l == Stamped(locals[k]) || (l in locals && l != locals[k]))
      && (forall l :: l in locals ==> (if l == locals[k] then Stamped(l) else l) in r)
  {
    var r := locals[k := Stamped(locals[k])];
    assert r[k] == Stamped(locals[k]);
    forall l | l in locals && l != locals[k] ensures l in r {
      var i :| 0 <= i < |locals| && locals[i] == l;
      assert r[i] == l;
    }
  }

  lemma WithoutLocal(locals: seq<Local>, k: nat)
    requires DistinctLocals(locals) && k < |locals|
    ensures DistinctLocals(Without(locals, k))
    ensures forall l :: l in Without(locals, k) <==> l in locals && l != locals[k]
  {
    var r := Without(locals, k);
    assert forall i :: 0 <= i < |r| ==> r[i] == locals[if i < k then i else i + 1];
    forall l | l in locals && l != locals[k] ensures l in r {
      var i :| 0 <= i < |locals| && locals[i] == l;
      assert r[if i < k then i else i - 1] == l;
    }
  }

  lemma InsertKeeps(w: World, e: Event)
    requires Inv(w) && Enabled(w, e) && e.Insert?
    ensures Inv(Step(w, e))
  {
    InsertKeepsLocals(w, e);
    var w' := Step(w, e);
    forall t | t in w'.bus && w'.bus[t].Some? ensures OwnedOnce(w', t) {
      InsertKeepsOwner(w, e, t);
    }
  }

  lemma InsertKeepsLocals(w: World, e: Event)
    requires Inv(w) && Enabled(w, e) && e.Insert?
    ensures LocalsOk(Step(w, e)) && TableOk(Step(w, e))
    ensures w.locals[FindLocal(w.locals, e.thread)] in w.locals
    ensures forall l :: l in Step(w, e).locals ==>
      l in w.locals && l.issued != w.locals[FindLocal(w.locals, e.thread)].issued
  {
    var k := FindLocal(w.locals, e.thread);
    WithoutLocal(w.locals, k);
    assert w.locals[k] in w.locals;
    assert forall l :: l in Step(w, e).locals ==>
        l in w.locals && l.issued != w.locals[k].issued && l.call.id != w.locals[k].call.id;
  }

  lemma InsertKeepsOwner(w: World, e: Event, t: Token)
    requires LocalsOk(w) && Enabled(w, e) && e.Insert? && t in w.bus && w.bus[t].Some? && OwnedOnce(w, t)
    ensures OwnedOnce(Step(w, e), t)
  {
    var k := FindLocal(w.locals, e.thread);
    WithoutLocal(w.locals, k);
    if t !in w.calls {
      var l :| l in w.locals && l.issued == t && l.call.id == w.bus[t].value;
      assert l != w.locals[k] ==> l in Step(w, e).locals;
    } else {
      assert w.locals[k] in w.locals;
    }
  }

  /** Following the context pointer is safe: it finds the call. */
  lemma TargetLives(w: World, token: Token)
    requires Inv(w) && token in w.bus && w.bus[token].Some?
    ensures Target(w, token).Some? && w.alive
    ensures Owns(w, w.bus[token].value, Target(w, token).value)
    ensures Target(w, token).value.token == token || (Target(w, token).value.token == 0 && token !in w.calls)
  {
    assert OwnedOnce(w, token);
    if token !in w.calls {
      var l :| l in w.locals && l.issued == token && l.call.id == w.bus[token].value;
      var i :| 0 <= i < |w.locals| && w.locals[i] == l;
      assert FindIssued(w.locals, token) == i;
    }
  }

  lemma DispatchKeeps(w: World, token: Token)
    requires Inv(w) && Enabled(w, Dispatch(token))
    ensures Inv(Step(w, Dispatch(token)))
  {
    if w.bus[token].Some? {
      TargetLives(w, token);
      var call := Target(w, token).value;
      if call.oneReply {
        RemovalKeeps(w, {call.token});
        HistoryIrrelevant(w.(bus := w.bus - {call.token}, calls := w.calls - {call.token}), w.runs + [token]);
      } else {
        HistoryIrrelevant(w, w.runs + [token]);
      }
    }
  }

  lemma HistoryIrrelevant(w: World, runs: seq<Token>)
    requires Inv(w)
    ensures Inv(w.(runs := runs))
  {
    var w' := w.(runs := runs);
    forall t | t in w'.bus && w'.bus[t].Some? ensures OwnedOnce(w', t) {
      assert OwnedOnce(w, t);
    }
  }

  /** Cancelling tokens on the bus and dropping the same tokens from the table keeps ownership. */
  lemma RemovalKeeps(w: World, ts: set<Token>)
    requires Inv(w)
    ensures Inv(w.(bus := w.bus - ts, calls := w.calls - ts))
  {
    var w' := w.(bus := w.bus - ts, calls := w.calls - ts);
    forall t | t in w'.bus && w'.bus[t].Some? ensures OwnedOnce(w', t) {
      assert OwnedOnce(w, t);
    }
  }

  lemma OtherKeeps(w: World, e: Event)
    requires Inv(w) && Enabled(w, e) && (e.FireAndForget? || e.CancelCall? || e.Destroy?)
    ensures Inv(Step(w, e))
  {
    match e
    case CancelCall(token) =>
      RemovalKeeps(w, {token});
    case Destroy =>
      RemovalKeeps(w, w.calls.Keys);
      var w' := Step(w, e);
      forall t | t in w'.bus ensures w'.bus[t].None? {
        assert w.bus[t].Some? ==> OwnedOnce(w, t);
      }
    case FireAndForget(token) =>
      var w' := Step(w, e);
      forall t | t in w'.bus && w'.bus[t].Some? ensures OwnedOnce(w', t) {
        assert OwnedOnce(w, t);
      }
  }

  /** After the destructor the bus holds no context of this service point, so no callback reaches freed memory. */
  lemma NothingAfterDestruction(es: seq<Event>, t: Token)
    requires Possible(es) && !Run(es).alive && t in Run(es).bus
    ensures Run(es).bus[t].None?
  {
    Reachable(es);
    assert Run(es).bus[t].Some? ==> OwnedOnce(Run(es), t);
  }

  // ---------------------------------------------------------------- handlers

  /** How often the handler of the call with token t has run. */
  function Runs(w: World, t: Token): nat {
    multiset(w.runs)[t]
  }

  /** The event is a reply to t that reaches a call; stamped tells whether makeCall has written its token yet. */
  predicate Reaches(w: World, e: Event, t: Token, stamped: bool)
    requires Enabled(w, e)
  {
    e == Dispatch(t) && Target(w, t).Some? && (stamped <==> Target(w, t).value.token != 0)
  }

  /** The number of replies dispatched to t before makeCall wrote its token into the call. */
  function Early(es: seq<Event>, t: Token): nat
    requires Possible(es)
  {
    if es == [] then 0
    else Early(Front(es), t) + if Reaches(Run(Front(es)), Last(es), t, false) then 1 else 0
  }

  /** The number of replies dispatched to t after that. */
  function Late(es: seq<Event>, t: Token): nat
    requires Possible(es)
  {
    if es == [] then 0
    else Late(Front(es), t) + if Reaches(Run(Front(es)), Last(es), t, true) then 1 else 0
  }

  predicate Begins(e: Event, t: Token, oneReply: bool) {
    e.Begin? && e.token == t && e.oneReply == oneReply
  }

  /** The call with token t was made, as a one-reply call or not. */
  predicate Begun(es: seq<Event>, t: Token, oneReply: bool) {
    exists i :: 0 <= i < |es| && Begins(es[i], t, oneReply)
  }

  /** What a step does to one token: it is used for good, it never returns to the bus, its handler runs on dispatch. */
  lemma TokenStep(w: World, e: Event, t: Token)
    requires Inv(w) && Enabled(w, e)
    ensures var w' := Step(w, e);
      && (t in w'.used <==> t in w.used || ((e.Begin? || e.FireAndForget?) && e.token == t))
      && (t in w.used && t !in w.bus ==> t !in w'.bus)
      && Runs(w', t) == Runs(w, t) + if e == Dispatch(t) && w.bus[t].Some? then 1 else 0
  {
    if e.Dispatch? && w.bus[e.token].Some? {
      TargetLives(w, e.token);
    }
  }

  /** A token that was used and is no longer on the bus never comes back: its handler has run for the last time. */
  lemma {:induction false} GoneForGood(es: seq<Event>, t: Token, i: nat)
    requires Possible(es) && i <= |es| && Possible(es[..i])
    requires t in Run(es[..i]).used && t !in Run(es[..i]).bus
    ensures t !in Run(es).bus && t in Run(es).used && Runs(Run(es), t) == Runs(Run(es[..i]), t)
  {
    if i == |es| {
      assert es[..i] == es;
    } else {
      assert Front(es)[..i] == es[..i];
      GoneForGood(Front(es), t, i);
      Reachable(Front(es));
      TokenStep(Run(Front(es)), Last(es), t);
    }
  }

  /** Cancel safety: no handler of a call runs after cancelCall on its token has returned. */
  lemma CancelSafety(es: seq<Event>, i: nat, t: Token)
    requires Possible(es) && i < |es| && Possible(es[..i]) && Possible(es[..i + 1])
    requires es[i] == CancelCall(t) && t in Run(es[..i]).used
    ensures Runs(Run(es), t) == Runs(Run(es[..i]), t)
  {
    SliceNext(es, i);
    CancelThenGone(es, es[..i], es[..i + 1], i, t);
  }

  lemma SliceNext(es: seq<Event>, i: nat)
    requires i < |es|
    ensures es[..i + 1] == es[..i] + [es[i]]
  {
  }

  lemma CancelThenGone(es: seq<Event>, before: seq<Event>, after: seq<Event>, i: nat, t: Token)
    requires Possible(es) && i < |es| && Possible(before) && Possible(after) && t in Run(before).used
    requires after == es[..i + 1] && after == before + [CancelCall(t)]
    ensures Runs(Run(es), t) == Runs(Run(before), t)
  {
    CancelledToken(before, after, t);
    GoneForGood(es, t, i + 1);
  }

  lemma CancelledToken(before: seq<Event>, after: seq<Event>, t: Token)
    requires after == before + [CancelCall(t)] && Possible(after) && Possible(before) && t in Run(before).used
    ensures var w := Run(after); t in w.used && t !in w.bus && Runs(w, t) == Runs(Run(before), t)
  {
    UnfoldLast(before, CancelCall(t));
    CancelGone(Run(before), t);
  }

  lemma UnfoldLast(es: seq<Event>, e: Event)
    requires Possible(es + [e])
    ensures Possible(es) && Enabled(Run(es), e) && Run(es + [e]) == Step(Run(es), e)
  {
    assert Front(es + [e]) == es && Last(es + [e]) == e;
  }

  lemma CancelGone(w: World, t: Token)
    requires Enabled(w, CancelCall(t)) && t in w.used
    ensures var w' := Step(w, CancelCall(t)); t in w'.used && t !in w'.bus && Runs(w', t) == Runs(w, t)
  {
  }

  lemma BegunStep(es: seq<Event>, t: Token, oneReply: bool)
    requires es != []
    ensures Begun(es, t, oneReply) <==> Begun(Front(es), t, oneReply) || Begins(Last(es), t, oneReply)
  {
    assert forall i :: 0 <= i < |es| - 1 ==> es[i] == Front(es)[i];
  }

  /** A call marked one-reply, or marked not, wherever it is. */
  ghost predicate Marked(w: World, t: Token, oneReply: bool) {
    && t in w.used
    && (t in w.calls ==> w.calls[t].oneReply == oneReply)
    && (forall l :: l in w.locals && l.issued == t ==> l.call.oneReply == oneReply)
    && (t in w.bus ==> w.bus[t].Some?)
  }

  lemma MarkStays(w: World, e: Event, t: Token, oneReply: bool)
    requires Inv(w) && Enabled(w, e) && Marked(w, t, oneReply)
    ensures Marked(Step(w, e), t, oneReply)
  {
    TokenStep(w, e, t);
    if e.Insert? {
      WithoutLocal(w.locals, FindLocal(w.locals, e.thread));
    }
  }

  lemma MarkStarts(w: World, e: Event)
    requires Inv(w) && Enabled(w, e) && e.Begin?
    ensures Marked(Step(w, e), e.token, e.oneReply)
  {
  }

  /** An unused token has no history. */
  lemma {:induction false} UnusedNeverRan(es: seq<Event>, t: Token)
    requires Possible(es) && t !in Run(es).used
    ensures Runs(Run(es), t) == 0
  {
    if es != [] {
      Reachable(Front(es));
      TokenStep(Run(Front(es)), Last(es), t);
      UnusedNeverRan(Front(es), t);
    }
  }

  /** Every run of a handler is an early or a late reply. */
  lemma {:induction false} RunsAreReplies(es: seq<Event>, t: Token)
    requires Possible(es)
    ensures Runs(Run(es), t) == Early(es, t) + Late(es, t)
  {
    if es != [] {
      var w, e := Run(Front(es)), Last(es);
      RunsAreReplies(Front(es), t);
      Reachable(Front(es));
      TokenStep(w, e, t);
      if e == Dispatch(t) && w.bus[t].Some? {
        TargetLives(w, t);
      }
    }
  }

  /** A late reply to a one-reply call kills the token, so there is at most one. */
  lemma {:induction false} LateAtMostOnce(es: seq<Event>, t: Token)
    requires Possible(es) && Begun(es, t, true)
    ensures Marked(Run(es), t, true)
    ensures Late(es, t) <= if t in Run(es).bus then 0 else 1
  {
    var p, e := Front(es), Last(es);
    Reachable(p);
    BegunStep(es, t, true);
    TokenStep(Run(p), e, t);
    if Begun(p, t, true) {
      LateAtMostOnce(p, t);
      MarkStays(Run(p), e, t, true);
      if Reaches(Run(p), e, t, true) {
        LateDispatch(Run(p), t);
      }
    } else {
      UnusedNeverRan(p, t);
      RunsAreReplies(p, t);
      MarkStarts(Run(p), e);
    }
  }

  /**
   One reply: the handler of a one-reply call runs once for every early reply and at most once for all later ones.
   So it runs at most once exactly when no reply overtook the write of the token, or one did and none followed it.
   */
  lemma OneReplyRunsOnce(es: seq<Event>, t: Token)
    requires Possible(es) && Begun(es, t, true)
    ensures Runs(Run(es), t) == Early(es, t) + Late(es, t) && Late(es, t) <= 1
    ensures Runs(Run(es), t) <= 1 <==> Early(es, t) == 0 || (Early(es, t) == 1 && Late(es, t) == 0)
  {
    RunsAreReplies(es, t);
    LateAtMostOnce(es, t);
  }

  lemma LateDispatch(w: World, t: Token)
    requires Inv(w) && Marked(w, t, true) && Enabled(w, Dispatch(t)) && Reaches(w, Dispatch(t), t, true)
    ensures t !in Step(w, Dispatch(t)).bus
  {
    TargetLives(w, t);
    TargetMarked(w, t, true);
  }

  lemma TargetMarked(w: World, t: Token, oneReply: bool)
    requires Inv(w) && Marked(w, t, oneReply) && t in w.bus && Target(w, t).Some?
    ensures Target(w, t).value.oneReply == oneReply
  {
    var i := FindIssued(w.locals, t);
    assert i < |w.locals| ==> w.locals[i] in w.locals;
  }

  // ---------------------------------------------------------------- what takes a token off the bus

  /** The target of a dispatch is a one-reply call whose token has been written. */
  predicate EndsCall(w: World, e: Event, t: Token)
    requires Enabled(w, e)
  {
    Reaches(w, e, t, true) && Target(w, t).value.oneReply
  }

  /** A token leaves the bus by its own cancel, by the destructor or by a late reply to its one-reply call; not else. */
  lemma LeavesBusIff(w: World, e: Event, t: Token)
    requires Inv(w) && Enabled(w, e) && t in w.bus
    ensures t !in Step(w, e).bus <==>
            e == CancelCall(t) || (e == Destroy && w.bus[t].Some?) || EndsCall(w, e, t)
  {
    if e.Dispatch? && w.bus[e.token].Some? {
      TargetLives(w, e.token);
    }
    if e == Destroy && w.bus[t].Some? {
      assert OwnedOnce(w, t);
    }
  }

  /** The call was cancelled, or the service point destroyed, after it was made. */
  predicate Stopped(es: seq<Event>, t: Token) {
    exists i, j :: 0 <= i < j < |es| && es[i].Begin? && es[i].token == t && Stops(es[j], t)
  }

  predicate Stops(e: Event, t: Token) {
    e == CancelCall(t) || e == Destroy
  }

  lemma StoppedStep(es: seq<Event>, t: Token)
    requires es != []
    ensures Stopped(es, t) <==>
            || Stopped(Front(es), t)
            || (Stops(Last(es), t) && (Begun(Front(es), t, true) || Begun(Front(es), t, false)))
  {
    var n, p := |es| - 1, Front(es);
    assert forall i :: 0 <= i < n ==> es[i] == p[i];
    if Stops(Last(es), t) && (Begun(p, t, true) || Begun(p, t, false)) {
      var i :| 0 <= i < n && p[i].Begin? && p[i].token == t;
      assert es[i].Begin? && Stops(es[n], t);
    }
    if i, j :| 0 <= i < j < |es| && es[i].Begin? && es[i].token == t && Stops(es[j], t) {
      assert j < n ==> p[j] == es[j];
      assert Begins(p[i], t, es[i].oneReply);
    }
  }

  lemma {:induction false} UnusedNeverBegun(es: seq<Event>, t: Token)
    requires Possible(es) && t !in Run(es).used
    ensures !Begun(es, t, true) && !Begun(es, t, false)
  {
    if es != [] {
      Reachable(Front(es));
      TokenStep(Run(Front(es)), Last(es), t);
      UnusedNeverBegun(Front(es), t);
      BegunStep(es, t, true);
      BegunStep(es, t, false);
    }
  }

  /**
   A call stays: its token is on the bus until it is cancelled or the service point is destroyed, or, for a one-reply
   call, until its late reply.
   */
  lemma {:induction false} OnBusIff(es: seq<Event>, t: Token, oneReply: bool)
    requires Possible(es) && Begun(es, t, oneReply)
    ensures Marked(Run(es), t, oneReply)
    ensures t in Run(es).bus <==> !Stopped(es, t) && (oneReply ==> Late(es, t) == 0)
  {
    var p, e := Front(es), Last(es);
    Reachable(p);
    BegunStep(es, t, oneReply);
    StoppedStep(es, t);
    TokenStep(Run(p), e, t);
    if Begun(p, t, oneReply) {
      OnBusIff(p, t, oneReply);
      MarkStays(Run(p), e, t, oneReply);
      OnBusStep(Run(p), e, t, oneReply);
    } else {
      UnusedNeverBegun(p, t);
      UnusedNeverRan(p, t);
      RunsAreReplies(p, t);
      NeverStopped(p, t);
      MarkStarts(Run(p), e);
    }
  }

  lemma NeverStopped(es: seq<Event>, t: Token)
    requires !Begun(es, t, true) && !Begun(es, t, false)
    ensures !Stopped(es, t)
  {
    assert forall i :: 0 <= i < |es| && es[i].Begin? && es[i].token == t ==>
        Begins(es[i], t, true) || Begins(es[i], t, false);
  }

  lemma OnBusStep(w: World, e: Event, t: Token, oneReply: bool)
    requires Inv(w) && Enabled(w, e) && Marked(w, t, oneReply)
    ensures t in Step(w, e).bus <==> t in w.bus && !Stops(e, t) && !(oneReply && Reaches(w, e, t, true))
  {
    TokenStep(w, e, t);
    if t in w.bus {
      LeavesBusIff(w, e, t);
      TargetLives(w, t);
      TargetMarked(w, t, oneReply);
    }
  }

  /** How many replies to t were dispatched. */
  function Dispatched(es: seq<Event>, t: Token): nat {
    if es == [] then 0 else Dispatched(Front(es), t) + if Last(es) == Dispatch(t) then 1 else 0
  }

  /** The handler of a call that takes many replies runs for every one of them. */
  lemma {:induction false} ManyReplies(es: seq<Event>, t: Token)
    requires Possible(es) && Begun(es, t, false)
    ensures t in Run(es).bus <==> !Stopped(es, t)
    ensures Runs(Run(es), t) == Dispatched(es, t)
  {
    OnBusIff(es, t, false);
    var p, e := Front(es), Last(es);
    Reachable(p);
    BegunStep(es, t, false);
    TokenStep(Run(p), e, t);
    if Begun(p, t, false) {
      OnBusIff(p, t, false);
      ManyReplies(p, t);
    } else {
      UnusedNeverRan(p, t);
      UnusedNeverDispatched(p, t);
    }
  }

  lemma {:induction false} UnusedNeverDispatched(es: seq<Event>, t: Token)
    requires Possible(es) && t !in Run(es).used
    ensures Dispatched(es, t) == 0
  {
    if es != [] {
      Reachable(Front(es));
      TokenStep(Run(Front(es)), Last(es), t);
      UnusedNeverDispatched(Front(es), t);
    }
  }

  predicate NotCancelledAfter(es: seq<Event>, i: nat, t: Token) {
    forall j :: i < j < |es| ==> es[j] != CancelCall(t)
  }

  lemma NotCancelledStep(es: seq<Event>, i: nat, t: Token)
    requires i < |es| - 1
    ensures NotCancelledAfter(es, i, t) <==> NotCancelledAfter(Front(es), i, t) && Last(es) != CancelCall(t)
  {
    assert forall j :: i < j < |es| - 1 ==> Front(es)[j] == es[j];
  }

  /** A call without a handler stays on the bus until it is cancelled. */
  lemma {:induction false} FireAndForgetStays(es: seq<Event>, i: nat, t: Token)
    requires Possible(es) && i < |es| && es[i] == FireAndForget(t)
    ensures t in Run(es).used && (t in Run(es).bus ==> Run(es).bus[t].None?)
    ensures t in Run(es).bus <==> NotCancelledAfter(es, i, t)
  {
    Reachable(Front(es));
    if i < |es| - 1 {
      FireAndForgetStays(Front(es), i, t);
      FiredStep(Run(Front(es)), Last(es), t);
      NotCancelledStep(es, i, t);
    } else {
      FiredNow(Run(Front(es)), t);
    }
  }

  lemma FiredNow(w: World, t: Token)
    requires Enabled(w, FireAndForget(t))
    ensures var w' := Step(w, FireAndForget(t)); t in w'.used && t in w'.bus && w'.bus[t].None?
  {
  }

  lemma FiredStep(w: World, e: Event, t: Token)
    requires Inv(w) && Enabled(w, e) && t in w.used && (t in w.bus ==> w.bus[t].None?)
    ensures t in Step(w, e).used && (t in Step(w, e).bus ==> Step(w, e).bus[t].None?)
    ensures t in Step(w, e).bus <==> t in w.bus && e != CancelCall(t)
  {
    TokenStep(w, e, t);
    if t in w.bus {
      LeavesBusIff(w, e, t);
    }
  }

  /**
   An early reply runs the handler and cancels nothing, because the call's token is still 0; when makeCall has
   finished, the next reply runs the handler again.
   */
  lemma EarlyReplyRunsTwice(w: World, thread: nat, t: Token)
    requires Inv(w) && t in w.bus && w.bus[t].Some? && Enabled(w, Stamp(thread))
    requires w.locals[FindLocal(w.locals, thread)].issued == t
    ensures Enabled(w, Dispatch(t))
    ensures var w1 := Step(w, Dispatch(t));
      && w1 == w.(runs := w.runs + [t])
      && Enabled(w1, Stamp(thread))
      && var w2 := Step(w1, Stamp(thread));
      && Enabled(w2, Insert(thread))
      && var w3 := Step(w2, Insert(thread));
      && Enabled(w3, Dispatch(t))
      && Runs(Step(w3, Dispatch(t)), t) == Runs(w, t) + 2
  {
    EarlyDispatch(w, thread, t);
    DispatchKeeps(w, t);
    TokenStep(w, Dispatch(t), t);
    FinishThenDispatch(Step(w, Dispatch(t)), thread, t);
  }

  /** An early dispatch changes nothing but the history. */
  lemma EarlyDispatch(w: World, thread: nat, t: Token)
    requires Inv(w) && t in w.bus && w.bus[t].Some? && Enabled(w, Stamp(thread))
    requires w.locals[FindLocal(w.locals, thread)].issued == t
    ensures Step(w, Dispatch(t)) == w.(runs := w.runs + [t])
  {
    TargetLives(w, t);
    var k := FindLocal(w.locals, thread);
    assert w.locals[k] in w.locals && FindIssued(w.locals, t) == k;
    assert w.bus - {0} == w.bus && w.calls - {0} == w.calls;
  }

  lemma FinishThenDispatch(w: World, thread: nat, t: Token)
    requires Inv(w) && t in w.bus && w.bus[t].Some? && Enabled(w, Stamp(thread))
    ensures var w2 := Step(w, Stamp(thread));
      && Enabled(w2, Insert(thread))
      && var w3 := Step(w2, Insert(thread));
      && Enabled(w3, Dispatch(t)) && Runs(Step(w3, Dispatch(t)), t) == Runs(w, t) + 1
  {
    StampThenInsert(w, thread);
    StampKeeps(w, Stamp(thread));
    TokenStep(w, Stamp(thread), t);
    var w2 := Step(w, Stamp(thread));
    InsertKeeps(w2, Insert(thread));
    TokenStep(w2, Insert(thread), t);
    TokenStep(Step(w2, Insert(thread)), Dispatch(t), t);
  }

  lemma StampThenInsert(w: World, thread: nat)
    requires Inv(w) && Enabled(w, Stamp(thread))
    ensures Enabled(Step(w, Stamp(thread)), Insert(thread))
    ensures FindLocal(Step(w, Stamp(thread)).locals, thread) == FindLocal(w.locals, thread)
  {
    var k := FindLocal(w.locals, thread);
    assert w.locals[k] in w.locals;
    FindStamped(w.locals, thread, k);
  }

  lemma FindStamped(locals: seq<Local>, thread: nat, k: nat)
    requires k < |locals| && FindLocal(locals, thread) == k
    ensures FindLocal(locals[k := Stamped(locals[k])], thread) == k
  {
    var r := locals[k := Stamped(locals[k])];
    assert r[k].thread == thread;
    assert forall i :: 0 <= i < k ==> r[i] == locals[i];
  }

  /** From the start: a one-reply call whose handler runs twice. */
  lemma HandlerRunsTwiceExample()
    ensures var es := [Begin(0, 1, true), Dispatch(1), Stamp(0), Insert(0), Dispatch(1)];
      Possible(es) && Begun(es, 1, true) && Runs(Run(es), 1) == 2
  {
    var es := [Begin(0, 1, true), Dispatch(1), Stamp(0), Insert(0)];
    AfterInsertion();
    Unfold(es, Dispatch(1));
    assert es + [Dispatch(1)] == [Begin(0, 1, true), Dispatch(1), Stamp(0), Insert(0), Dispatch(1)];
    assert (es + [Dispatch(1)])[0] == Begin(0, 1, true);
  }

  /** The world while the call with token 1 is still owned by makeCall. */
  function MakingCall(token: Token, runs: seq<Token>): World {
    World(true, map[], [Local(0, Call(0, token, true), 1)], map[1 := Some(0)], {0, 1}, 1, runs)
  }

  lemma AfterEarlyReply()
    ensures var es := [Begin(0, 1, true), Dispatch(1)];
      Possible(es) && Run(es) == MakingCall(0, [1])
  {
    Unfold([], Begin(0, 1, true));
    assert [] + [Begin(0, 1, true)] == [Begin(0, 1, true)];
    assert Run([Begin(0, 1, true)]) == MakingCall(0, []);
    EarlyReplyStep();
    Unfold([Begin(0, 1, true)], Dispatch(1));
    assert [Begin(0, 1, true)] + [Dispatch(1)] == [Begin(0, 1, true), Dispatch(1)];
  }

  lemma EarlyReplyStep()
    ensures var w := MakingCall(0, []);
      Enabled(w, Dispatch(1)) && Step(w, Dispatch(1)) == MakingCall(0, [1])
  {
    var w := MakingCall(0, []);
    assert Target(w, 1) == Some(Call(0, 0, true));
    assert w.bus - {0} == w.bus && w.calls - {0} == w.calls;
  }

  lemma AfterInsertion()
    ensures var es := [Begin(0, 1, true), Dispatch(1), Stamp(0), Insert(0)];
      && Possible(es)
      && Run(es) == World(true, map[1 := Call(0, 1, true)], [], map[1 := Some(0)], {0, 1}, 1, [1])
  {
    var early := [Begin(0, 1, true), Dispatch(1)];
    AfterEarlyReply();
    Unfold(early, Stamp(0));
    var stamped := early + [Stamp(0)];
    assert Run(stamped) == MakingCall(1, [1]);
    Unfold(stamped, Insert(0));
    assert stamped + [Insert(0)] == [Begin(0, 1, true), Dispatch(1), Stamp(0), Insert(0)];
  }

  lemma Unfold(es: seq<Event>, e: Event)
    requires Possible(es) && Enabled(Run(es), e)
    ensures Possible(es + [e]) && Run(es + [e]) == Step(Run(es), e)
  {
    assert Front(es + [e]) == es && Last(es + [e]) == e;
  }
}
