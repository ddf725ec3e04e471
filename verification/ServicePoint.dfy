/** The service point as an object: its calls follow the call machine, its methods the method table. */
module ServicePoints {
  import opened Common
  import opened CallMachine
  import M = MethodTable

  /** The bus as the service point sees it; the ghost fields are running makeCalls and histories. */
  class Bus {
    var held: map<Token, Option<nat>>
    var methods: M.Table
    var nextAddress: nat
    var nextMethod: nat
    ghost var used: set<Token>
    ghost var locals: seq<Local>
    ghost var runs: seq<Token>

    constructor ()
      ensures held == map[] && methods == map[] && nextAddress == 0 && nextMethod == 0
      ensures used == {0} && locals == [] && runs == []
    {
      held, methods, nextAddress, nextMethod, used, locals, runs := map[], map[], 0, 0, {0}, [], [];
    }
  }

  datatype Error = NoHandleError | BusError | MultiReplyNeedsHandler

  datatype Made = MadeToken(token: Token) | MadeError(error: Error)

  class ServicePoint {
    const mHandle: bool
    var mCalls: map<Token, Call>
    var mMethods: seq<M.MethodInfo>
    ghost var alive: bool

    ghost function View(bus: Bus): World
      reads this, bus
    {
      World(alive, mCalls, bus.locals, bus.held, bus.used, bus.nextAddress, bus.runs)
    }

    constructor (handle: bool, bus: Bus)
      requires bus.held == map[] && bus.nextAddress == 0 && bus.used == {0} && bus.locals == [] && bus.runs == []
      ensures View(bus) == INITIAL && mMethods == [] && mHandle == handle
    {
      mHandle, mCalls, mMethods, alive := handle, map[], [], true;
    }

    // ---------------------------------------------------------------- calls

    /** makeCall with a handler, up to the return of the bus call. */
    method BeginCall(bus: Bus, thread: nat, token: Token, oneReply: bool, busOk: bool) returns (r: Option<Local>)
      requires Enabled(View(bus), Begin(thread, token, oneReply))
      modifies bus`held, bus`nextAddress, bus`used, bus`locals
      ensures r.Some? <==> mHandle && busOk
      ensures View(bus) == if r.Some? then Step(old(View(bus)), Begin(thread, token, oneReply)) else old(View(bus))
      ensures r.Some? ==> bus.locals == old(bus.locals) + [r.value]
      ensures r.Some? ==> r.value == Local(thread, Call(old(bus.nextAddress), 0, oneReply), token)
    {
      if !mHandle {
        return None;
      }
      if !busOk {
        return None;
      }
      var l := Local(thread, Call(bus.nextAddress, 0, oneReply), token);
      bus.held := bus.held[token := Some(l.call.id)];
      bus.used := bus.used + {token};
      bus.nextAddress := bus.nextAddress + 1;
      bus.locals := bus.locals + [l];
      r := Some(l);
    }

    /** Writing the token into the call, before the lock is taken. */
    method StampCall(bus: Bus, l: Local) returns (r: Local)
      requires Enabled(View(bus), Stamp(l.thread)) && bus.locals[FindLocal(bus.locals, l.thread)] == l
      modifies bus`locals
      ensures View(bus) == Step(old(View(bus)), Stamp(l.thread))
      ensures r == Stamped(l)
    {
      r := l.(call := l.call.(token := l.issued));
      bus.locals := bus.locals[FindLocal(bus.locals, l.thread) := r];
    }

    /** The locked insertion. */
    method InsertCall(bus: Bus, l: Local)
      requires Enabled(View(bus), Insert(l.thread)) && bus.locals[FindLocal(bus.locals, l.thread)] == l
      modifies this`mCalls, bus`locals
      ensures View(bus) == Step(old(View(bus)), Insert(l.thread))
    {
      mCalls := mCalls[l.issued := l.call];
      bus.locals := Without(bus.locals, FindLocal(bus.locals, l.thread));
    }

    /** What makeCall does once the bus has returned: stamp, then insert. */
    method FinishCall(bus: Bus, ghost others: seq<Local>, l: Local)
      requires alive && bus.locals == others + [l] && FindLocal(others, l.thread) == |others|
      requires l.issued != 0 && l.call.token == 0
      modifies this`mCalls, bus`locals
      ensures Enabled(old(View(bus)), Stamp(l.thread))
      ensures var stamped := Step(old(View(bus)), Stamp(l.thread));
        Enabled(stamped, Insert(l.thread)) && View(bus) == Step(stamped, Insert(l.thread))
      ensures bus.locals == others && mCalls == old(mCalls)[l.issued := l.call.(token := l.issued)]
    {
      AppendedLocal(others, l);
      var stamped := StampCall(bus, l);
      AppendedLocal(others, stamped);
      assert bus.locals == others + [stamped];
      InsertCall(bus, stamped);
    }

    /** The whole of makeCall when nothing interleaves. */
    method MakeCall(bus: Bus, thread: nat, token: Token, oneReply: bool, hasHandler: bool, busOk: bool)
        returns (r: Made)
      requires Enabled(View(bus), Begin(thread, token, oneReply))
      modifies this`mCalls, bus
      ensures r == if !mHandle then MadeError(NoHandleError)
                   else if !hasHandler && !oneReply then MadeError(MultiReplyNeedsHandler)
                   else if !busOk then MadeError(BusError)
                   else MadeToken(token)
      ensures r.MadeError? ==> View(bus) == old(View(bus))
      ensures r.MadeToken? && !hasHandler ==> View(bus) == Step(old(View(bus)), FireAndForget(token))
      ensures r.MadeToken? && hasHandler ==>
        var begun := Step(old(View(bus)), Begin(thread, token, oneReply));
        && Enabled(begun, Stamp(thread))
        && var stamped := Step(begun, Stamp(thread));
        && Enabled(stamped, Insert(thread)) && View(bus) == Step(stamped, Insert(thread))
      ensures r.MadeToken? && hasHandler ==>
        bus.locals == old(bus.locals) && mCalls == old(mCalls)[token := Call(old(bus.nextAddress), token, oneReply)]
    {
      if !mHandle {
        return MadeError(NoHandleError);
      }
      if hasHandler {
        var l := BeginCall(bus, thread, token, oneReply, busOk);
        if l.None? {
          return MadeError(BusError);
        }
        FinishCall(bus, old(bus.locals), l.value);
      } else {
        if !oneReply {
          return MadeError(MultiReplyNeedsHandler);
        }
        if !busOk {
          return MadeError(BusError);
        }
        bus.held := bus.held[token := None];
        bus.used := bus.used + {token};
      }
      r := MadeToken(token);
    }

    static lemma AppendedLocal(locals: seq<Local>, l: Local)
      requires FindLocal(locals, l.thread) == |locals|
      ensures FindLocal(locals + [l], l.thread) == |locals| && Without(locals + [l], |locals|) == locals
    {
      assert (locals + [l])[|locals|] == l;
      assert forall i :: 0 <= i < |locals| ==> (locals + [l])[i] == locals[i];
    }

    /**
     cancelCall by token: through the table if the call is there, else straight to the bus. Without a handle the
     source follows a null pointer; the result says whether the behaviour is defined.
     */
    method Cancel(bus: Bus, token: Token) returns (defined: bool)
      requires alive && (token in mCalls ==> mCalls[token].token == token)
      modifies this`mCalls, bus`held
      ensures defined <==> mHandle
      ensures View(bus) == if defined then Step(old(View(bus)), CancelCall(token)) else old(View(bus))
      ensures defined ==> bus.held == old(bus.held) - {token} && mCalls == old(mCalls) - {token}
    {
      if !mHandle {
        return false;
      }
      defined := true;
      if token !in mCalls {
        bus.held := bus.held - {token};
      } else {
        CancelOwned(bus, mCalls[token]);
      }
    }

    /** cancelCall by call object. */
    method CancelOwned(bus: Bus, call: Call)
      modifies this`mCalls, bus`held
      ensures bus.held == old(bus.held) - {call.token}
      ensures mCalls == old(mCalls) - {call.token}
    {
      bus.held := bus.held - {call.token};
      mCalls := mCalls - {call.token};
    }

    /** callResponseHandler, for the call its context points at; afterwards only the copied handler is used. */
    method DispatchResponse(bus: Bus, token: Token, call: Call)
      requires alive && token in bus.held && Target(View(bus), token) == Some(call)
      modifies this`mCalls, bus`held, bus`runs
      ensures View(bus) == Step(old(View(bus)), Dispatch(token))
      ensures !call.oneReply ==> bus.held == old(bus.held) && mCalls == old(mCalls)
      ensures call.oneReply ==> bus.held == old(bus.held) - {call.token} && mCalls == old(mCalls) - {call.token}
      ensures bus.runs == old(bus.runs) + [token]
    {
      if call.oneReply {
        CancelOwned(bus, call);
      }
      bus.runs := bus.runs + [token];
    }

    // ---------------------------------------------------------------- methods

    /** registerMethod; answer is how the bus takes the registration. */
    method RegisterMethod(bus: Bus, category: string, name: string, answer: M.Answer) returns (r: M.Result)
      modifies this`mMethods, bus`methods, bus`nextMethod
      ensures M.Methods(mMethods, bus.methods) ==
              M.Register(M.Methods(old(mMethods), old(bus.methods)), mHandle,
                         M.Registration(old(bus.nextMethod), category, name, answer))
      ensures r == if !mHandle then M.NoHandle
                   else if exists m :: m in old(mMethods) && M.Key(m) == (category, name) then M.Duplicate
                   else if !M.LeadingSlash(category) then M.InvalidCategory
                   else if name == "" || M.AnySlash(name) then M.InvalidMethod
                   else if answer != M.Taken then M.Refused
                   else M.Accepted
      ensures mMethods == if r == M.Accepted then old(mMethods) + [M.MethodInfo(old(bus.nextMethod), category, name)]
                          else old(mMethods)
      ensures r == M.Accepted ==> bus.methods == old(bus.methods)[(category, name) := M.Bound(old(bus.nextMethod))]
      ensures View(bus) == old(View(bus))
    {
      M.NamesMeaning(category, name);
      if !mHandle {
        return M.NoHandle;
      }
      var i := 0;
      while i < |mMethods|
        invariant i <= |mMethods|
        invariant forall j :: 0 <= j < i ==> M.Key(mMethods[j]) != (category, name)
      {
        if mMethods[i].name == name && mMethods[i].category == category {
          assert M.Key(mMethods[i]) == (category, name);
          return M.Duplicate;
        }
        i := i + 1;
      }
      if |category| == 0 || category[0] != '/' {
        return M.InvalidCategory;
      }
      if |name| == 0 || '/' in name {
        return M.InvalidMethod;
      }
      var info := M.MethodInfo(bus.nextMethod, category, name);
      bus.nextMethod := bus.nextMethod + 1;
      var taken := RegisterOnBus(bus, info, answer);
      if !taken {
        return M.Refused;
      }
      mMethods := mMethods + [info];
      r := M.Accepted;
    }

    /** registerMethodImpl: append the method to the category, then attach its context; either may throw. */
    method RegisterOnBus(bus: Bus, info: M.MethodInfo, answer: M.Answer) returns (taken: bool)
      modifies bus`methods
      ensures taken <==> answer == M.Taken
      ensures bus.methods == M.Appended(old(bus.methods), M.Key(info), info.id, answer)
    {
      if answer == M.AppendRefused {
        return false;
      }
      var previous := if M.Key(info) in bus.methods then bus.methods[M.Key(info)] else M.NoContext;
      bus.methods := bus.methods[M.Key(info) := if previous.Bound? then previous else M.NoContext];
      if answer == M.DataRefused {
        return false;
      }
      bus.methods := bus.methods[M.Key(info) := M.Bound(info.id)];
      taken := true;
    }

    /** sendSignal: the address handed to the bus, or the failed check; busOk tells whether the bus takes it. */
    method SendSignal(category: string, name: string, busOk: bool) returns (r: M.Result, uri: string)
      ensures r == if !mHandle then M.NoHandle
                   else if !M.LeadingSlash(category) then M.InvalidCategory
                   else if name == "" || M.AnySlash(name) then M.InvalidMethod
                   else if !busOk then M.Refused
                   else M.Accepted
      ensures r == M.Accepted || r == M.Refused ==>
        uri == M.SignalUri(category, name) == "luna://com.bogusuri" + category + "/" + name
    {
      uri := "";
      M.NamesMeaning(category, name);
      if !mHandle {
        return M.NoHandle, uri;
      }
      if |category| == 0 || category[0] != '/' {
        return M.InvalidCategory, uri;
      }
      if |name| == 0 || '/' in name {
        return M.InvalidMethod, uri;
      }
      uri := "luna://com.bogusuri" + category + "/" + name;
      r := if busOk then M.Accepted else M.Refused;
    }

    // ---------------------------------------------------------------- destruction

    /** Unregister every method, then cancel every call in the table. */
    method Delete(bus: Bus)
      requires Enabled(View(bus), Destroy)
      modifies this`mCalls, this`alive, bus`methods, bus`held
      ensures View(bus) == Step(old(View(bus)), Destroy)
      ensures bus.methods == M.UnregisterAll(mMethods, old(bus.methods))
    {
      var i := 0;
      assert mMethods[..0] == [];
      while i < |mMethods|
        invariant i <= |mMethods|
        invariant bus.methods == M.UnregisterAll(mMethods[..i], old(bus.methods))
        invariant mCalls == old(mCalls) && bus.held == old(bus.held) && alive
      {
        assert Front(mMethods[..i + 1]) == mMethods[..i] && Last(mMethods[..i + 1]) == mMethods[i];
        bus.methods := bus.methods[M.Key(mMethods[i]) := M.RemovedReply];
        i := i + 1;
      }
      assert mMethods[..i] == mMethods;
      var rest := mCalls.Keys;
      while rest != {}
        invariant rest <= mCalls.Keys && mCalls == old(mCalls) && alive
        invariant bus.held == old(bus.held) - (mCalls.Keys - rest)
        invariant bus.methods == M.UnregisterAll(mMethods, old(bus.methods))
        decreases rest
      {
        var token :| token in rest;
        bus.held := bus.held - {token};
        rest := rest - {token};
      }
      mCalls, alive := map[], false;
    }
  }
}
