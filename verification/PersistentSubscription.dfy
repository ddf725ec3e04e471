/** The persistent subscription as an object over its server status watch. */
module PersistentSubscriptions {
  import opened Common
  import opened ServiceUri
  import opened PersistentMachine
  import opened ServerStatuses
  import P = PersistentProofs
  import S = StatusMachine

  /** Calls and their cancellation on the bus. */
  class Caller {
    var state: CallBus

    constructor ()
      ensures state == CallBus([], {}, [], [])
    {
      state := CallBus([], {}, [], []);
    }

    /** Makes a call, which the bus may refuse; the token is then the invalid one. */
    method Call(handle: nat, uri: string, params: string, offered: Token, accepted: bool) returns (token: Token)
      modifies this
      ensures token == if accepted then offered else 0
      ensures !accepted ==> state == old(state)
      ensures accepted ==>
        state == old(state).(live := old(state.live) + {token},
                             issued := old(state.issued) + [PersistentMachine.Call(token, handle, uri, params)])
    {
      if !accepted {
        return 0;
      }
      token := offered;
      state := state.(live := state.live + {token},
                      issued := state.issued + [PersistentMachine.Call(token, handle, uri, params)]);
    }

    method CancelCall(handle: nat, token: Token)
      modifies this
      ensures state == old(state).(live := old(state.live) - {token},
                                   cancels := old(state.cancels) + [Cancel(handle, token)])
    {
      state := state.(live := state.live - {token}, cancels := state.cancels + [Cancel(handle, token)]);
    }

    method Serve(token: Token, handler: nat)
      modifies this
      ensures state == old(state).(served := old(state.served) + [Served(token, handler)])
    {
      state := state.(served := state.served + [Served(token, handler)]);
    }
  }

  class PersistentSubscription {
    var mHandle: nat
    var mSubscriptionCall: Token
    const mServiceStatus: ServerStatus
    var mUri: string
    var mParams: string
    var mResultHandler: nat
    ghost var alive: bool

    ghost function View(bus: StatusBus, caller: Caller): World
      reads this, mServiceStatus, bus, caller
    {
      World(alive, mHandle, mSubscriptionCall, mUri, mParams, mResultHandler,
            S.World(if alive then map[OWN := mServiceStatus.View()] else map[], bus.state), caller.state)
    }

    constructor (bus: StatusBus, caller: Caller)
      requires bus.state == S.EMPTY_BUS && caller.state == CallBus([], {}, [], [])
      ensures View(bus, caller) == INITIAL
      ensures fresh(mServiceStatus)
    {
      mServiceStatus := new ServerStatus();
      mHandle, mSubscriptionCall, mUri, mParams, mResultHandler, alive := 0, 0, "", "", 0, true;
    }

    /** cancelSubscription */
    method CancelSubscription(bus: StatusBus, caller: Caller)
      modifies this`mSubscriptionCall, caller
      ensures View(bus, caller) == Dropped(old(View(bus, caller)))
    {
      if mSubscriptionCall != 0 {
        caller.CancelCall(mHandle, mSubscriptionCall);
        mSubscriptionCall := 0;
      }
    }

    /** cancel */
    method CancelEverything(bus: StatusBus, caller: Caller)
      requires alive
      modifies this`mParams, this`mResultHandler, this`mSubscriptionCall, mServiceStatus, bus, caller
      ensures View(bus, caller) == Step(old(View(bus, caller)), CancelAll)
      ensures alive
    {
      mParams := "";
      mResultHandler := 0;
      mServiceStatus.CancelWatch(bus);
      OnePool(old(mServiceStatus.View()), mServiceStatus.View());
      CancelSubscription(bus, caller);
    }

    /** Updating the only watch of a pool. */
    static lemma OnePool(v: S.Watcher, v': S.Watcher)
      ensures map[OWN := v][OWN := v'] == map[OWN := v']
    {
    }

    /** subscribe; watched tells whether the bus accepts the status watch. */
    method Subscribe(bus: StatusBus, caller: Caller, args: Args, watched: bool) returns (r: Outcome)
      requires alive
      modifies this, mServiceStatus, bus, caller
      ensures View(bus, caller) == Step(old(View(bus, caller)), PersistentMachine.Subscribe(args, watched))
      ensures r == if args.handle == 0 then NullHandle
                   else if args.handler == 0 then NullHandler
                   else if args.params == None then InvalidParams
                   else if !P.HasName(args.uri) then InvalidUri
                   else if !watched then WatchRefused
                   else Subscribed
      ensures r == Subscribed || r == WatchRefused ==>
        mHandle == args.handle && mUri == args.uri && Some(mParams) == args.params && mResultHandler == args.handler
      ensures alive
    {
      CancelEverything(bus, caller);
      P.HasNameIff(args.uri);
      if args.handle == 0 {
        return NullHandle;
      }
      if args.handler == 0 {
        return NullHandler;
      }
      if args.params.None? {
        return InvalidParams;
      }
      var first := Find(args.uri, "://", 0);
      var second := Find(args.uri, "/", SecondStart(first));
      if first.None? || second.None? {
        return InvalidUri;
      }
      var thrown := StartWatch(bus, caller, args, args.uri[first.value + 3..second.value], watched);
      r := if thrown then WatchRefused else Subscribed;
    }

    /** The part of subscribe after the checks. */
    method StartWatch(bus: StatusBus, caller: Caller, args: Args, service: string, watched: bool) returns (thrown: bool)
      requires alive && Check(args) == Subscribed && ServiceName(args.uri) == Some(service)
      modifies this`mHandle, this`mUri, this`mParams, this`mResultHandler, mServiceStatus, bus
      ensures View(bus, caller) == Watch(old(View(bus, caller)), args, watched)
      ensures thrown <==> !watched
    {
      mHandle := args.handle;
      mUri := args.uri;
      mParams := args.params.value;
      mResultHandler := args.handler;
      thrown := mServiceStatus.SetWatch(bus, args.handle, service, watched);
      OnePool(old(mServiceStatus.View()), mServiceStatus.View());
    }

    /** onServiceStatusResponse; offered is the token the bus would give, accepted whether it takes the call. */
    method OnServiceStatusResponse(bus: StatusBus, caller: Caller, up: bool, offered: Token, accepted: bool)
        returns (thrown: bool)
      modifies this`mSubscriptionCall, caller
      ensures View(bus, caller) == Step(old(View(bus, caller)), Status(up, offered, accepted))
      ensures thrown <==> up && old(mSubscriptionCall) == 0 && !accepted
    {
      thrown := false;
      if up && mSubscriptionCall == 0 {
        mSubscriptionCall := caller.Call(mHandle, mUri, mParams, offered, accepted);
        thrown := !accepted;
      } else if !up && mSubscriptionCall != 0 {
        CancelSubscription(bus, caller);
      }
    }

    /** onCallResponse */
    method OnCallResponse(bus: StatusBus, caller: Caller, token: Token)
      modifies caller
      ensures View(bus, caller) == Step(old(View(bus, caller)), Response(token))
    {
      caller.Serve(token, mResultHandler);
    }

    /** Active exactly when the bus holds a call of this object. */
    method IsServiceActive(bus: StatusBus, caller: Caller) returns (r: bool)
      requires CallsOk(View(bus, caller))
      ensures r <==> caller.state.live != {}
    {
      r := mSubscriptionCall != 0;
    }

    /** The destructor: cancel, then the watch is destroyed with the object. */
    method Delete(bus: StatusBus, caller: Caller)
      requires alive
      modifies this, mServiceStatus, bus, caller
      ensures View(bus, caller) == Step(old(View(bus, caller)), Destroy)
    {
      CancelEverything(bus, caller);
      mServiceStatus.Delete(bus);
      alive := false;
      assert map[OWN := mServiceStatus.View()] - {OWN} == map[];
    }
  }
}
