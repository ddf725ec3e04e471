/**
 Watches on server status. A watcher owns at most one registration with the bus, named by a cookie, and the
 heap-allocated callback the bus points at; moves hand both over. Zero stands for the null pointer.
 */
module StatusMachine {
  import opened Common

  datatype Watcher = Watcher(handle: nat, cookie: nat, callback: nat)

  const IDLE := Watcher(0, 0, 0)

  datatype Registration = Registration(handle: nat, service: string, callback: nat)

  /** One cancellation as the bus saw it. */
  datatype Cancellation = Cancellation(handle: nat, cookie: nat)

  /** issued remembers the handle of every cookie ever given out; heap holds the allocated callbacks. */
  datatype Bus = Bus(registered: map<nat, Registration>, issued: map<nat, nat>, cancelled: seq<Cancellation>,
                     heap: set<nat>, next: nat)

  const EMPTY_BUS := Bus(map[], map[], [], {}, 1)

  /** A watcher and the bus after an operation on it. */
  datatype Pair = Pair(watcher: Watcher, bus: Bus)

  /** Deleting a callback; deleting null does nothing. */
  function Freed(heap: set<nat>, callback: nat): set<nat> {
    if callback == 0 then heap else heap - {callback}
  }

  function Unregistered(b: Bus, w: Watcher): Bus {
    b.(registered := b.registered - {w.cookie}, cancelled := b.cancelled + [Cancellation(w.handle, w.cookie)])
  }

  /** cancel(): only when a cookie is held. */
  function Cancelled(w: Watcher, b: Bus): Pair {
    if w.cookie == 0 then Pair(w, b)
    else Pair(w.(cookie := 0, callback := 0), Unregistered(b, w).(heap := Freed(b.heap, w.callback)))
  }

  /** set(): cancel, take the handle, replace the callback, register. */
  function Registered(w: Watcher, b: Bus, handle: nat, service: string, ok: bool): Pair {
    var p := Cancelled(w, b);
    var c := p.bus.next;
    var held := p.bus.(heap := Freed(p.bus.heap + {c}, p.watcher.callback), next := c + 1);
    if ok then
      Pair(Watcher(handle, c + 1, c),
           held.(registered := held.registered[c + 1 := Registration(handle, service, c)],
                 issued := held.issued[c + 1 := handle], next := c + 2))
    else Pair(Watcher(handle, p.watcher.cookie, c), held)
  }

  /** The destructor. */
  function Released(w: Watcher, b: Bus): Bus {
    var b' := if w.cookie == 0 then b else Unregistered(b, w);
    b'.(heap := Freed(b'.heap, w.callback))
  }

  // ---------------------------------------------------------------- a pool of watchers

  datatype World = World(pool: map<nat, Watcher>, bus: Bus)

  datatype Event =
    | Create(o: nat)
    | Set(o: nat, handle: nat, service: string, ok: bool)
    | Cancel(o: nat)
    | MoveConstruct(to: nat, from: nat)
    | MoveAssign(to: nat, from: nat)
    | Destroy(o: nat)

  predicate Enabled(w: World, e: Event) {
    match e
    case Create(o) => o !in w.pool
    case MoveConstruct(to, from) => to !in w.pool && from in w.pool
    case MoveAssign(to, from) => to in w.pool && from in w.pool
    case _ => e.o in w.pool
  }

  /** Assigning from a watcher: what the target holds, given the source at that moment. */
  function MovedIn(target: Watcher, source: Watcher, b: Bus): Pair {
    Pair(source, b.(heap := Freed(b.heap, target.callback)))
  }

  function Step(w: World, e: Event): World
    requires Enabled(w, e)
  {
    match e
    case Create(o) => w.(pool := w.pool[o := IDLE])
    case Set(o, handle, service, ok) =>
      var p := Registered(w.pool[o], w.bus, handle, service, ok);
      World(w.pool[o := p.watcher], p.bus)
    case Cancel(o) =>
      var p := Cancelled(w.pool[o], w.bus);
      World(w.pool[o := p.watcher], p.bus)
    case MoveConstruct(to, from) =>
      w.(pool := w.pool[to := w.pool[from]][from := IDLE])
    case MoveAssign(to, from) =>
      var p := Cancelled(w.pool[to], w.bus);
      if to == from then World(w.pool[to := Watcher(0, 0, p.watcher.callback)], p.bus)
      else
        var q := MovedIn(p.watcher, w.pool[from], p.bus);
        World(w.pool[to := q.watcher][from := IDLE], q.bus)
    case Destroy(o) =>
      World(w.pool - {o}, Released(w.pool[o], w.bus))
  }

  predicate Possible(es: seq<Event>)
    decreases |es|, 0
  {
    es == [] || (Possible(Front(es)) && Enabled(Run(Front(es)), Last(es)))
  }

  function Run(es: seq<Event>): World
    requires Possible(es)
    decreases |es|, 1
  {
    if es == [] then World(map[], EMPTY_BUS) else Step(Run(Front(es)), Last(es))
  }

  // ---------------------------------------------------------------- ownership

  /** One watcher against the bus: a cookie comes with its handle and its live callback. */
  ghost predicate Sound(w: Watcher, b: Bus) {
    && (w.cookie != 0 ==>
          && w.callback != 0 && w.cookie in b.registered
          && b.registered[w.cookie].handle == w.handle && b.registered[w.cookie].callback == w.callback)
    && (w.callback != 0 ==> w.callback in b.heap)
  }

  ghost predicate Apart(v: Watcher, w: Watcher) {
    (v.cookie != 0 ==> v.cookie != w.cookie) && (v.callback != 0 ==> v.callback != w.callback)
  }

  /** Cookies: given out once, then registered until cancelled once, on the handle they were given out on. */
  ghost predicate CookiesOk(b: Bus) {
    && 0 < b.next && 0 !in b.issued && 0 !in b.heap
    && (forall c :: c in b.issued ==> c < b.next)
    && (forall c :: c in b.heap ==> c < b.next)
    && (forall c :: c in b.registered ==> c in b.issued && b.issued[c] == b.registered[c].handle)
    && (forall c :: c in b.issued && c !in b.registered ==> Cancellation(b.issued[c], c) in b.cancelled)
    && (forall x :: x in b.cancelled ==>
          x.cookie in b.issued && x.cookie !in b.registered && b.issued[x.cookie] == x.handle)
    && (forall i, j :: 0 <= i < j < |b.cancelled| ==> b.cancelled[i].cookie != b.cancelled[j].cookie)
  }

  /** The watchers agree with the bus and share nothing. */
  ghost predicate PoolOk(pool: map<nat, Watcher>, b: Bus) {
    && (forall o :: o in pool ==> Sound(pool[o], b))
    && (forall o, p :: o in pool && p in pool && o != p ==> Apart(pool[o], pool[p]))
  }

  ghost predicate HoldsCookie(pool: map<nat, Watcher>, o: nat, c: nat) {
    o in pool && pool[o].cookie == c
  }

  ghost predicate HoldsCallback(pool: map<nat, Watcher>, o: nat, c: nat) {
    o in pool && pool[o].callback == c
  }

  /** Nothing registered or allocated without an owner. */
  ghost predicate AllHeld(pool: map<nat, Watcher>, b: Bus) {
    && (forall c :: c in b.registered ==> exists o :: HoldsCookie(pool, o, c))
    && (forall c :: c in b.heap ==> exists o :: HoldsCallback(pool, o, c))
  }

  ghost predicate Inv(w: World) {
    CookiesOk(w.bus) && PoolOk(w.pool, w.bus) && AllHeld(w.pool, w.bus)
  }

  lemma {:induction false} Reachable(es: seq<Event>)
    requires Possible(es)
    ensures Inv(Run(es))
  {
    if es != [] {
      Reachable(Front(es));
      StepKeeps(Run(Front(es)), Last(es));
    }
  }

  lemma StepKeeps(w: World, e: Event)
    requires Inv(w) && Enabled(w, e)
    ensures Inv(Step(w, e))
  {
    match e
    case Create(o) => AddIdle(w, o);
    case Set(o, handle, service, ok) =>
      CancelKeeps(w, o);
      SetKeeps(Step(w, Cancel(o)), o, handle, service, ok);
      SetCancels(w, o, handle, service, ok);
    case Cancel(o) => CancelKeeps(w, o);
    case MoveConstruct(to, from) => MoveConstructKeeps(w, to, from);
    case MoveAssign(to, from) =>
      CancelKeeps(w, to);
      MoveAssignKeeps(w, Step(w, Cancel(to)), to, from);
    case Destroy(o) =>
      CancelKeeps(w, o);
      DestroyKeeps(w, Step(w, Cancel(o)), o);
  }

  lemma SetCancels(w: World, o: nat, handle: nat, service: string, ok: bool)
    requires o in w.pool
    ensures Step(Step(w, Cancel(o)), Set(o, handle, service, ok)) == Step(w, Set(o, handle, service, ok))
  {
    var p := Cancelled(w.pool[o], w.bus);
    var w1 := Step(w, Cancel(o));
    assert w1.pool[o] == p.watcher && w1.bus == p.bus;
    assert Cancelled(p.watcher, p.bus) == p;
  }

  lemma MoveConstructKeeps(w: World, to: nat, from: nat)
    requires Inv(w) && Enabled(w, MoveConstruct(to, from))
    ensures Inv(Step(w, MoveConstruct(to, from)))
  {
    AddIdle(w, to);
    var w1 := w.(pool := w.pool[to := IDLE]);
    HandOver(w1, to, from);
    assert w1.pool[to := w1.pool[from]][from := IDLE] == w.pool[to := w.pool[from]][from := IDLE];
  }

  lemma MoveAssignKeeps(w: World, w1: World, to: nat, from: nat)
    requires Inv(w1) && Enabled(w, MoveAssign(to, from)) && w1 == Step(w, Cancel(to)) && w1.pool[to].cookie == 0
    ensures Inv(Step(w, MoveAssign(to, from)))
  {
    if to == from {
      SelfMoveKeeps(w, w1, to);
    } else {
      var w2 := World(w1.pool[to := IDLE], w1.bus.(heap := Freed(w1.bus.heap, w1.pool[to].callback)));
      DropKeeps(w1, to);
      HandOver(w2, to, from);
      assert Step(w, MoveAssign(to, from)).pool == w2.pool[to := w2.pool[from]][from := IDLE];
    }
  }

  lemma SelfMoveKeeps(w: World, w1: World, o: nat)
    requires Inv(w1) && o in w.pool && w1 == Step(w, Cancel(o)) && w1.pool[o].cookie == 0
    ensures Inv(Step(w, MoveAssign(o, o)))
  {
    ForgetHandle(w1, o);
    assert Step(w, MoveAssign(o, o)).pool == w1.pool[o := Watcher(0, 0, w1.pool[o].callback)];
  }

  lemma ForgetHandle(w: World, o: nat)
    requires Inv(w) && o in w.pool && w.pool[o].cookie == 0
    ensures Inv(World(w.pool[o := Watcher(0, 0, w.pool[o].callback)], w.bus))
  {
    var v := Watcher(0, 0, w.pool[o].callback);
    assert Sound(w.pool[o], w.bus);
    forall p | p in w.pool && p != o
      ensures Sound(w.pool[p], w.bus) && Apart(w.pool[p], v) && Apart(v, w.pool[p])
    {
      assert Apart(w.pool[p], w.pool[o]) && Apart(w.pool[o], w.pool[p]);
    }
    UpdatePool(w.pool, w.bus, o, v);
    HeldStill(w, o, v);
  }

  lemma HeldStill(w: World, o: nat, v: Watcher)
    requires Inv(w) && o in w.pool && v.cookie == w.pool[o].cookie && v.callback == w.pool[o].callback
    ensures AllHeld(w.pool[o := v], w.bus)
  {
    var pool := w.pool[o := v];
    forall c | c in w.bus.registered ensures exists p :: HoldsCookie(pool, p, c) {
      var p :| HoldsCookie(w.pool, p, c);
      assert HoldsCookie(pool, p, c);
    }
    forall c | c in w.bus.heap ensures exists p :: HoldsCallback(pool, p, c) {
      var p :| HoldsCallback(w.pool, p, c);
      assert HoldsCallback(pool, p, c);
    }
  }

  lemma DestroyKeeps(w: World, w1: World, o: nat)
    requires Inv(w1) && o in w.pool && w1 == Step(w, Cancel(o)) && w1.pool[o].cookie == 0
    ensures Inv(Step(w, Destroy(o)))
  {
    DropKeeps(w1, o);
    var w2 := World(w1.pool[o := IDLE], w1.bus.(heap := Freed(w1.bus.heap, w1.pool[o].callback)));
    RemoveIdle(w2, o);
    assert Step(w, Destroy(o)).pool == w2.pool - {o};
    assert Step(w, Destroy(o)).bus == w2.bus;
  }

  /** Changing one watcher and the bus under it. */
  lemma Update(w: World, b: Bus, o: nat, v: Watcher)
    requires Inv(w) && CookiesOk(b) && o in w.pool && Sound(v, b)
    requires forall p :: p in w.pool && p != o ==> Sound(w.pool[p], b) && Apart(w.pool[p], v) && Apart(v, w.pool[p])
    requires forall c :: c in b.registered ==> c == v.cookie || (c in w.bus.registered && c != w.pool[o].cookie)
    requires forall c :: c in b.heap ==> c == v.callback || (c in w.bus.heap && c != w.pool[o].callback)
    ensures Inv(World(w.pool[o := v], b))
  {
    UpdateHolds(w, b, o, v);
    UpdatePool(w.pool, b, o, v);
  }

  lemma UpdatePool(pool: map<nat, Watcher>, b: Bus, o: nat, v: Watcher)
    requires o in pool && Sound(v, b)
    requires forall p :: p in pool && p != o ==> Sound(pool[p], b) && Apart(pool[p], v) && Apart(v, pool[p])
    requires forall p, q :: p in pool && q in pool && p != q ==> Apart(pool[p], pool[q])
    ensures PoolOk(pool[o := v], b)
  {
  }

  lemma UpdateHolds(w: World, b: Bus, o: nat, v: Watcher)
    requires AllHeld(w.pool, w.bus) && o in w.pool
    requires forall c :: c in b.registered ==> c == v.cookie || (c in w.bus.registered && c != w.pool[o].cookie)
    requires forall c :: c in b.heap ==> c == v.callback || (c in w.bus.heap && c != w.pool[o].callback)
    ensures AllHeld(w.pool[o := v], b)
  {
    var pool := w.pool[o := v];
    forall c | c in b.registered ensures exists p :: HoldsCookie(pool, p, c) {
      if c == v.cookie {
        assert HoldsCookie(pool, o, c);
      } else {
        var p :| HoldsCookie(w.pool, p, c);
        assert HoldsCookie(pool, p, c);
      }
    }
    forall c | c in b.heap ensures exists p :: HoldsCallback(pool, p, c) {
      if c == v.callback {
        assert HoldsCallback(pool, o, c);
      } else {
        var p :| HoldsCallback(w.pool, p, c);
        assert HoldsCallback(pool, p, c);
      }
    }
  }

  lemma AddIdle(w: World, o: nat)
    requires Inv(w) && o !in w.pool
    ensures Inv(w.(pool := w.pool[o := IDLE]))
  {
    Transfer(w, w.pool[o := IDLE], map p | p in w.pool :: p);
  }

  lemma RemoveIdle(w: World, o: nat)
    requires Inv(w) && o in w.pool && w.pool[o].cookie == 0 && w.pool[o].callback == 0
    ensures Inv(w.(pool := w.pool - {o}))
  {
    Transfer(w, w.pool - {o}, map p | p in w.pool && p != o :: p);
  }

  /** Handing everything of from to an idle watcher. */
  lemma HandOver(w: World, to: nat, from: nat)
    requires Inv(w) && to in w.pool && from in w.pool && to != from
    requires w.pool[to].cookie == 0 && w.pool[to].callback == 0
    ensures Inv(w.(pool := w.pool[to := w.pool[from]][from := IDLE]))
  {
    Transfer(w, w.pool[to := w.pool[from]][from := IDLE],
             map p | p in w.pool && p != to :: if p == from then to else p);
  }

  /** Rearranging the pool: route says which new watcher holds what an old one held; all others are empty. */
  lemma Transfer(w: World, pool: map<nat, Watcher>, route: map<nat, nat>)
    requires Inv(w)
    requires forall p :: p in route ==> p in w.pool && route[p] in pool && pool[route[p]] == w.pool[p]
    requires forall p :: p in w.pool && p !in route ==> w.pool[p].cookie == 0 && w.pool[p].callback == 0
    requires forall q :: q in pool ==>
      (pool[q].cookie == 0 && pool[q].callback == 0) || exists p :: p in route && route[p] == q
    ensures Inv(w.(pool := pool))
  {
    forall q | q in pool ensures Sound(pool[q], w.bus) {
      if p :| p in route && route[p] == q {
        assert Sound(w.pool[p], w.bus);
      }
    }
    forall q, r | q in pool && r in pool && q != r ensures Apart(pool[q], pool[r]) {
      if p, s :| p in route && route[p] == q && s in route && route[s] == r {
        assert Apart(w.pool[p], w.pool[s]);
      }
    }
    forall c | c in w.bus.registered ensures exists q :: HoldsCookie(pool, q, c) {
      var p :| HoldsCookie(w.pool, p, c);
      assert HoldsCookie(pool, route[p], c);
    }
    forall c | c in w.bus.heap ensures exists q :: HoldsCallback(pool, q, c) {
      var p :| HoldsCallback(w.pool, p, c);
      assert HoldsCallback(pool, route[p], c);
    }
  }

  lemma CancelKeeps(w: World, o: nat)
    requires Inv(w) && o in w.pool
    ensures Inv(Step(w, Cancel(o)))
    ensures Step(w, Cancel(o)).pool[o].cookie == 0
  {
    var v := w.pool[o];
    var p := Cancelled(v, w.bus);
    if v.cookie != 0 {
      assert Sound(v, w.bus);
      CancelCookies(w.bus, v);
      forall q | q in w.pool && q != o
        ensures Sound(w.pool[q], p.bus) && Apart(w.pool[q], p.watcher) && Apart(p.watcher, w.pool[q])
      {
        OtherUnaffected(v, w.pool[q], w.bus);
      }
      Update(w, p.bus, o, p.watcher);
    } else {
      assert w.pool[o := v] == w.pool;
    }
  }

  lemma OtherUnaffected(v: Watcher, u: Watcher, b: Bus)
    requires Sound(v, b) && Sound(u, b) && Apart(v, u) && Apart(u, v) && v.cookie != 0
    ensures var p := Cancelled(v, b);
      Sound(u, p.bus) && Apart(u, p.watcher) && Apart(p.watcher, u)
  {
  }

  lemma CancelCookies(b: Bus, v: Watcher)
    requires CookiesOk(b) && Sound(v, b) && v.cookie != 0
    ensures CookiesOk(Cancelled(v, b).bus)
  {
    var x := Cancellation(v.handle, v.cookie);
    assert forall y :: y in b.cancelled + [x] <==> y in b.cancelled || y == x;
    assert forall i :: 0 <= i < |b.cancelled| ==> b.cancelled[i] in b.cancelled;
  }

  /** Freeing the callback of a watcher without a cookie. */
  lemma DropKeeps(w: World, o: nat)
    requires Inv(w) && o in w.pool && w.pool[o].cookie == 0
    ensures Inv(World(w.pool[o := IDLE], w.bus.(heap := Freed(w.bus.heap, w.pool[o].callback))))
  {
    var v := w.pool[o];
    var b := w.bus.(heap := Freed(w.bus.heap, v.callback));
    forall q | q in w.pool && q != o ensures Sound(w.pool[q], b) {
      assert Apart(w.pool[q], v) && Sound(w.pool[q], w.bus);
    }
    Update(w, b, o, IDLE);
  }

  lemma SetKeeps(w: World, o: nat, handle: nat, service: string, ok: bool)
    requires Inv(w) && o in w.pool && w.pool[o].cookie == 0
    ensures Inv(Step(w, Set(o, handle, service, ok)))
  {
    DropKeeps(w, o);
    var w1 := World(w.pool[o := IDLE], w.bus.(heap := Freed(w.bus.heap, w.pool[o].callback)));
    var p := Registered(w.pool[o], w.bus, handle, service, ok);
    assert Sound(w.pool[o], w.bus);
    SetIsFresh(w.pool[o], w.bus, handle, service, ok);
    FreshKeeps(w1, o, handle, service, ok, p);
    assert w1.pool[o := p.watcher] == w.pool[o := p.watcher];
  }

  lemma FreshKeeps(w: World, o: nat, handle: nat, service: string, ok: bool, p: Pair)
    requires Inv(w) && o in w.pool && w.pool[o] == IDLE && FreshRegistration(w.bus, handle, service, ok, p)
    ensures Inv(World(w.pool[o := p.watcher], p.bus))
  {
    FreshCookies(w.bus, handle, service, ok, p);
    forall q | q in w.pool && q != o
      ensures Sound(w.pool[q], p.bus) && Apart(w.pool[q], p.watcher) && Apart(p.watcher, w.pool[q])
    {
      OtherBelow(w.pool[q], w.bus, handle, service, ok, p);
    }
    Update(w, p.bus, o, p.watcher);
  }

  /** What set does after its cancel and the release of the previous callback, which left bus b. */
  ghost predicate FreshRegistration(b: Bus, handle: nat, service: string, ok: bool, p: Pair) {
    var c := b.next;
    if ok then
      p == Pair(Watcher(handle, c + 1, c),
                b.(heap := b.heap + {c}, next := c + 2,
                   registered := b.registered[c + 1 := Registration(handle, service, c)],
                   issued := b.issued[c + 1 := handle]))
    else p == Pair(Watcher(handle, 0, c), b.(heap := b.heap + {c}, next := c + 1))
  }

  lemma SetIsFresh(w: Watcher, b: Bus, handle: nat, service: string, ok: bool)
    requires w.cookie == 0 && w.callback < b.next
    ensures FreshRegistration(b.(heap := Freed(b.heap, w.callback)), handle, service, ok,
                              Registered(w, b, handle, service, ok))
  {
    assert Freed(b.heap + {b.next}, w.callback) == Freed(b.heap, w.callback) + {b.next};
  }

  lemma FreshCookies(b: Bus, handle: nat, service: string, ok: bool, p: Pair)
    requires CookiesOk(b) && FreshRegistration(b, handle, service, ok, p)
    ensures CookiesOk(p.bus) && Sound(p.watcher, p.bus)
  {
  }

  lemma OtherBelow(u: Watcher, b: Bus, handle: nat, service: string, ok: bool, p: Pair)
    requires CookiesOk(b) && Sound(u, b) && FreshRegistration(b, handle, service, ok, p)
    ensures Sound(u, p.bus) && Apart(u, p.watcher) && Apart(p.watcher, u)
  {
  }

  /**
   Linear ownership of watches, over any sequence of set, cancel, moves (self-moves included) and destruction:
   every cookie ever given out is either registered, then held by exactly one watcher whose callback the bus
   points at is allocated, or was cancelled exactly once, on its own handle.
   */
  lemma LinearOwnership(es: seq<Event>, c: nat)
    requires Possible(es) && c in Run(es).bus.issued
    ensures var (w, b) := (Run(es), Run(es).bus);
      if c in b.registered then
        && (exists o :: o in w.pool && w.pool[o].cookie == c)
        && (forall o, p :: o in w.pool && p in w.pool && w.pool[o].cookie == c && w.pool[p].cookie == c ==> o == p)
        && b.registered[c].callback in b.heap
        && (forall x :: x in b.cancelled ==> x.cookie != c)
      else
        && multiset(b.cancelled)[Cancellation(b.issued[c], c)] == 1
        && (forall x :: x in b.cancelled && x.cookie == c ==> x == Cancellation(b.issued[c], c))
        && (forall o :: o in w.pool ==> w.pool[o].cookie != c)
  {
    Reachable(es);
    var w, b := Run(es), Run(es).bus;
    if c in b.registered {
      var o :| HoldsCookie(w.pool, o, c);
      assert Sound(w.pool[o], b);
      forall p | p in w.pool && w.pool[p].cookie == c ensures p == o {
        assert p != o ==> Apart(w.pool[o], w.pool[p]);
      }
    } else {
      OnceInDistinct(b.cancelled, Cancellation(b.issued[c], c));
      assert forall o :: o in w.pool ==> Sound(w.pool[o], b);
    }
  }

  lemma {:induction false} OnceInDistinct(s: seq<Cancellation>, x: Cancellation)
    requires x in s && forall i, j :: 0 <= i < j < |s| ==> s[i].cookie != s[j].cookie
    ensures multiset(s)[x] == 1
  {
    var p, y := Front(s), Last(s);
    assert s == p + [y];
    if y == x {
      assert x !in p;
    } else {
      OnceInDistinct(p, x);
    }
  }

  // ---------------------------------------------------------------- who watches what, read off the trace

  datatype Watch = Watch(handle: nat, service: string)

  predicate AliveAt(es: seq<Event>, o: nat) {
    if es == [] then false
    else match Last(es)
      case Create(p) => p == o || AliveAt(Front(es), o)
      case MoveConstruct(to, _) => to == o || AliveAt(Front(es), o)
      case Destroy(p) => p != o && AliveAt(Front(es), o)
      case _ => AliveAt(Front(es), o)
  }

  /** What an object watches: what it last set, or what it took from another by a move; a self-move gives it up. */
  function WatchAt(es: seq<Event>, o: nat): Option<Watch> {
    if es == [] then None
    else match Last(es)
      case Set(p, handle, service, ok) =>
        if p != o then WatchAt(Front(es), o) else if ok then Some(Watch(handle, service)) else None
      case Create(p) => if p == o then None else WatchAt(Front(es), o)
      case Cancel(p) => if p == o then None else WatchAt(Front(es), o)
      case Destroy(p) => if p == o then None else WatchAt(Front(es), o)
      case MoveConstruct(to, from) =>
        if o == from then None else if o == to then WatchAt(Front(es), from) else WatchAt(Front(es), o)
      case MoveAssign(to, from) =>
        if o == from then None else if o == to then WatchAt(Front(es), from) else WatchAt(Front(es), o)
  }

  /** What the bus has registered for the object. */
  function WatchOn(w: World, o: nat): Option<Watch> {
    if o in w.pool && w.pool[o].cookie in w.bus.registered then
      var r := w.bus.registered[w.pool[o].cookie];
      Some(Watch(r.handle, r.service))
    else None
  }

  /** Every object watches, on the bus, exactly what the trace says. */
  lemma {:induction false} WatchIsRead(es: seq<Event>, o: nat)
    requires Possible(es)
    ensures o in Run(es).pool <==> AliveAt(es, o)
    ensures WatchOn(Run(es), o) == WatchAt(es, o)
    ensures o in Run(es).pool && Run(es).pool[o].cookie != 0 <==> WatchAt(es, o) != None
  {
    Reachable(es);
    if o in Run(es).pool {
      assert Sound(Run(es).pool[o], Run(es).bus);
    }
    if es != [] {
      forall p { WatchIsRead(Front(es), p); }
      Reachable(Front(es));
      WatchStep(Run(Front(es)), Last(es), o);
    }
  }

  lemma WatchStep(w: World, e: Event, o: nat)
    requires Inv(w) && Enabled(w, e)
    ensures WatchOn(Step(w, e), o) ==
            match e
            case Set(p, handle, service, ok) =>
              if p != o then WatchOn(w, o) else if ok then Some(Watch(handle, service)) else None
            case Create(p) => if p == o then None else WatchOn(w, o)
            case Cancel(p) => if p == o then None else WatchOn(w, o)
            case Destroy(p) => if p == o then None else WatchOn(w, o)
            case MoveConstruct(to, from) =>
              if o == from then None else if o == to then WatchOn(w, from) else WatchOn(w, o)
            case MoveAssign(to, from) =>
              if o == from then None else if o == to then WatchOn(w, from) else WatchOn(w, o)
  {
    match e
    case Create(p) => WatchCreated(w, p, o);
    case Set(p, handle, service, ok) =>
      WatchCancelled(w, p, o);
      CancelKeeps(w, p);
      WatchSet(Step(w, Cancel(p)), p, handle, service, ok, o);
      SetCancels(w, p, handle, service, ok);
    case Cancel(p) => WatchCancelled(w, p, o);
    case Destroy(p) => WatchDestroyed(w, p, o);
    case MoveConstruct(to, from) => WatchMoved(w, to, from, o);
    case MoveAssign(to, from) => WatchAssigned(w, to, from, o);
  }

  lemma NoNullCookie(w: World)
    requires Inv(w)
    ensures 0 !in w.bus.registered
  {
  }

  lemma WatchCreated(w: World, p: nat, o: nat)
    requires Inv(w) && Enabled(w, Create(p))
    ensures WatchOn(Step(w, Create(p)), o) == if p == o then None else WatchOn(w, o)
  {
    NoNullCookie(w);
  }

  lemma WatchMoved(w: World, to: nat, from: nat, o: nat)
    requires Inv(w) && Enabled(w, MoveConstruct(to, from))
    ensures WatchOn(Step(w, MoveConstruct(to, from)), o) ==
            if o == from then None else if o == to then WatchOn(w, from) else WatchOn(w, o)
  {
    NoNullCookie(w);
  }

  lemma WatchCancelled(w: World, p: nat, o: nat)
    requires Inv(w) && Enabled(w, Cancel(p))
    ensures WatchOn(Step(w, Cancel(p)), o) == if p == o then None else WatchOn(w, o)
  {
    NoNullCookie(w);
    if o in w.pool && o != p {
      assert Apart(w.pool[o], w.pool[p]) && Apart(w.pool[p], w.pool[o]);
    }
  }

  lemma WatchSet(w: World, p: nat, handle: nat, service: string, ok: bool, o: nat)
    requires Inv(w) && p in w.pool && w.pool[p].cookie == 0
    ensures WatchOn(Step(w, Set(p, handle, service, ok)), o) ==
            if p != o then WatchOn(w, o) else if ok then Some(Watch(handle, service)) else None
  {
    NoNullCookie(w);
    assert w.bus.next + 1 !in w.bus.registered;
    if o in w.pool {
      assert Sound(w.pool[o], w.bus);
    }
  }

  lemma WatchDestroyed(w: World, p: nat, o: nat)
    requires Inv(w) && Enabled(w, Destroy(p))
    ensures WatchOn(Step(w, Destroy(p)), o) == if p == o then None else WatchOn(w, o)
  {
    NoNullCookie(w);
    WatchCancelled(w, p, o);
  }

  lemma WatchAssigned(w: World, to: nat, from: nat, o: nat)
    requires Inv(w) && Enabled(w, MoveAssign(to, from))
    ensures WatchOn(Step(w, MoveAssign(to, from)), o) ==
            if o == from then None else if o == to then WatchOn(w, from) else WatchOn(w, o)
  {
    WatchCancelled(w, to, o);
    WatchCancelled(w, to, from);
    CancelKeeps(w, to);
    AssignedAfterCancel(w, to, from);
    HandedOver(Step(w, Cancel(to)), Step(w, MoveAssign(to, from)), to, from, o);
  }

  lemma AssignedAfterCancel(w: World, to: nat, from: nat)
    requires Enabled(w, MoveAssign(to, from))
    ensures var (w1, w2) := (Step(w, Cancel(to)), Step(w, MoveAssign(to, from)));
      && w2.bus.registered == w1.bus.registered && w2.pool.Keys == w1.pool.Keys && w2.pool[from].cookie == 0
      && (to != from ==> w2.pool[to] == w1.pool[from])
      && (forall p :: p in w1.pool && p != to && p != from ==> w2.pool[p] == w1.pool[p])
  {
  }

  lemma HandedOver(w1: World, w2: World, to: nat, from: nat, o: nat)
    requires Inv(w1) && to in w1.pool && from in w1.pool
    requires w2.bus.registered == w1.bus.registered && w2.pool.Keys == w1.pool.Keys && w2.pool[from].cookie == 0
    requires to != from ==> w2.pool[to] == w1.pool[from]
    requires forall p :: p in w1.pool && p != to && p != from ==> w2.pool[p] == w1.pool[p]
    ensures WatchOn(w2, o) == if o == from then None else if o == to then WatchOn(w1, from) else WatchOn(w1, o)
  {
    NoNullCookie(w1);
    assert o in w2.pool.Keys <==> o in w1.pool.Keys;
  }

  /** When every watcher is gone, nothing is registered and nothing is leaked. */
  lemma NothingLeaks(es: seq<Event>)
    requires Possible(es) && Run(es).pool == map[]
    ensures Run(es).bus.registered == map[] && Run(es).bus.heap == {}
  {
    Reachable(es);
    var w := Run(es);
    forall c ensures c !in w.bus.registered && c !in w.bus.heap {
      assert forall o :: !HoldsCookie(w.pool, o, c) && !HoldsCallback(w.pool, o, c);
    }
  }
}
