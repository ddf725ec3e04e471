/** The watcher as an object, move operations included. */
module ServerStatuses {
  import opened StatusMachine

  /** The bus side of server status watches. */
  class StatusBus {
    var state: Bus

    constructor ()
      ensures state == EMPTY_BUS
    {
      state := EMPTY_BUS;
    }

    method Cancel(handle: nat, cookie: nat)
      modifies this
      ensures state == Unregistered(old(state), Watcher(handle, cookie, 0))
    {
      state := state.(registered := state.registered - {cookie},
                      cancelled := state.cancelled + [Cancellation(handle, cookie)]);
    }

    /** Registers the callback object and returns a fresh cookie, or refuses. */
    method Register(handle: nat, service: string, callback: nat, ok: bool) returns (cookie: nat)
      modifies this
      ensures !ok ==> cookie == 0 && state == old(state)
      ensures ok ==> cookie == old(state.next)
      ensures ok ==>
        state == old(state).(registered := old(state.registered)[cookie := Registration(handle, service, callback)],
                             issued := old(state.issued)[cookie := handle], next := cookie + 1)
    {
      if !ok {
        return 0;
      }
      cookie := state.next;
      state := state.(registered := state.registered[cookie := Registration(handle, service, callback)],
                      issued := state.issued[cookie := handle], next := cookie + 1);
    }

    /** `new ServerStatusCallback`. */
    method Allocate() returns (callback: nat)
      modifies this
      ensures callback == old(state.next)
      ensures state == old(state).(heap := old(state.heap) + {callback}, next := callback + 1)
    {
      callback := state.next;
      state := state.(heap := state.heap + {callback}, next := callback + 1);
    }

    method Free(callback: nat)
      modifies this
      ensures state == old(state).(heap := Freed(old(state.heap), callback))
    {
      if callback != 0 {
        state := state.(heap := state.heap - {callback});
      }
    }
  }

  class ServerStatus {
    var mHandle: nat
    var mCookie: nat
    var mCallback: nat

    function View(): Watcher
      reads this
    {
      Watcher(mHandle, mCookie, mCallback)
    }

    constructor ()
      ensures View() == IDLE
    {
      mHandle, mCookie, mCallback := 0, 0, 0;
    }

    /** Move construction: takes everything from other. */
    constructor MoveFrom(other: ServerStatus)
      modifies other
      ensures View() == old(other.View()) && other.View() == IDLE
    {
      mHandle, mCookie, mCallback := other.mHandle, other.mCookie, other.mCallback;
      new;
      other.mCallback := 0;
      other.mCookie := 0;
      other.mHandle := 0;
    }

    /** Move assignment; other may be this object. */
    method AssignFrom(other: ServerStatus, bus: StatusBus)
      modifies this, other, bus
      ensures var p := Cancelled(old(View()), old(bus.state));
        if other == this then View() == Watcher(0, 0, p.watcher.callback) && bus.state == p.bus
        else
          && var q := MovedIn(p.watcher, old(other.View()), p.bus);
          && View() == q.watcher && other.View() == IDLE && bus.state == q.bus
    {
      CancelWatch(bus);
      mHandle := other.mHandle;
      mCookie := other.mCookie;
      MoveCallback(other, bus);
      other.mCookie := 0;
      other.mHandle := 0;
    }

    /** Assignment of the owning pointer: release the source, then free what the target held. */
    method MoveCallback(other: ServerStatus, bus: StatusBus)
      modifies this`mCallback, other`mCallback, bus
      ensures other == this ==> mCallback == old(mCallback) && bus.state == old(bus.state)
      ensures other != this ==>
        && mCallback == old(other.mCallback) && other.mCallback == 0
        && bus.state == old(bus.state).(heap := Freed(old(bus.state.heap), old(mCallback)))
    {
      var released := other.mCallback;
      other.mCallback := 0;
      var previous := mCallback;
      mCallback := released;
      bus.Free(previous);
    }

    method CancelWatch(bus: StatusBus)
      modifies this, bus
      ensures Pair(View(), bus.state) == Cancelled(old(View()), old(bus.state))
    {
      if mCookie != 0 {
        bus.Cancel(mHandle, mCookie);
        mCookie := 0;
        bus.Free(mCallback);
        mCallback := 0;
      }
    }

    /** Replaces the watch; connected tells whether the bus accepts the registration. */
    method SetWatch(bus: StatusBus, handle: nat, service: string, connected: bool) returns (thrown: bool)
      modifies this, bus
      ensures Pair(View(), bus.state) == Registered(old(View()), old(bus.state), handle, service, connected)
      ensures thrown <==> !connected
    {
      CancelWatch(bus);
      mHandle := handle;
      var created := bus.Allocate();
      bus.Free(mCallback);
      mCallback := created;
      if !connected {
        return true;
      }
      mCookie := bus.Register(mHandle, service, mCallback, true);
      thrown := false;
    }

    /** The destructor. */
    method Delete(bus: StatusBus)
      modifies this, bus
      ensures bus.state == Released(old(View()), old(bus.state))
    {
      if mCookie != 0 {
        bus.Cancel(mHandle, mCookie);
      }
      bus.Free(mCallback);
    }
  }
}
