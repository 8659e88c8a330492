/** The gate and its permits as objects, every method proved against the functions of `GateRules`. */
module GateState {
  import opened Text
  import opened GateRules

  /** An `asyncio.Event`; `name` tells the gate's successive reopen events apart. */
  class Event {
    const name: nat
    var isSet: bool

    constructor (name: nat, isSet: bool)
      ensures this.name == name && this.isSet == isSet
    {
      this.name := name;
      this.isSet := isSet;
    }
  }

  class RestartGate {
    const config: Config
    var requestId: Option<Str>
    var permits: int
    var accepting: bool
    var committed: bool
    const drained: Event
    const shutdownRequested: Event
    var shutdownError: Option<Str>
    var openChanged: Event

    ghost function Events(): set<object>
      reads this
    {
      {drained, shutdownRequested, openChanged}
    }

    ghost predicate Valid()
      reads this, openChanged
    {
      && drained != shutdownRequested && drained != openChanged && shutdownRequested != openChanged
      && !openChanged.isSet
      && (accepting <==> requestId.None?)
    }

    ghost function Now(): Gate
      reads this, drained, shutdownRequested
    {
      Gate(requestId, permits, accepting, drained.isSet, openChanged.name, committed,
           if shutdownRequested.isSet then Requested(shutdownError) else Running)
    }

    constructor (config: Config)
      ensures this.config == config && Valid() && fresh(Events()) && Now() == OPEN
    {
      this.config := config;
      requestId, permits, accepting, committed, shutdownError := None, 0, true, false, None;
      drained := new Event(0, true);
      shutdownRequested := new Event(0, false);
      openChanged := new Event(0, false);
    }

    /** Builds a gate, or nothing when the constructor refuses its arguments. */
    static method Create(bootId: Str, supervised: bool, hasChannel: bool, drainTimeout: real, executes: bool)
      returns (gate: Option<RestartGate>)
      ensures gate.Some? <==> Strip(bootId) != [] && drainTimeout > 0.0 && (hasChannel <==> supervised && executes)
      ensures gate.Some? ==>
        && fresh(gate.value) && gate.value.Valid() && gate.value.Now() == OPEN
        && gate.value.config == Config(supervised, executes, hasChannel)
    {
      if Strip(bootId) == [] || drainTimeout <= 0.0 {
        return None;
      }
      if supervised && !hasChannel && executes {
        return None;
      }
      if (!supervised || !executes) && hasChannel {
        return None;
      }
      var g := new RestartGate(Config(supervised, executes, hasChannel));
      gate := Some(g);
    }

    method RequestShutdown(error: Option<Str>) returns (r: Outcome)
      requires Valid()
      modifies this, shutdownRequested
      ensures Valid() && openChanged == old(openChanged)
      ensures (Now(), r) == GateRules.RequestShutdown(config, old(Now()), error)
    {
      if !config.executes {
        return Rejected(NotExecuting);
      }
      if !shutdownRequested.isSet {
        shutdownError := error;
        shutdownRequested.isSet := true;
      }
      r := Done;
    }

    /** The captured event is the current reopen event exactly when the caller has to wait. */
    method CheckOpen() returns (wait: Option<Event>)
      requires Valid()
      ensures wait == if Accepting(Now()) then None else Some(openChanged)
    {
      wait := if accepting && !shutdownRequested.isSet then None else Some(openChanged);
    }

    method PrepareStop(id: Str) returns (r: Outcome)
      requires Valid()
      modifies this
      ensures Valid() && openChanged == old(openChanged) && (Now(), r) == GateRules.PrepareStop(old(Now()), id)
    {
      if id == [] || Strip(id) != id {
        return Rejected(InvalidId);
      }
      if requestId.Some? {
        return if requestId.value == id then Done else Rejected(Pending);
      }
      requestId := Some(id);
      accepting := false;
      r := Done;
    }

    method Prepare(id: Str) returns (r: Outcome)
      requires Valid()
      modifies this
      ensures Valid() && openChanged == old(openChanged) && (Now(), r) == GateRules.Prepare(config, old(Now()), id)
    {
      if !config.supervised {
        return Rejected(NotSupervised);
      }
      if !config.executes {
        return Rejected(NotExecuting);
      }
      r := PrepareStop(id);
    }

    /** Passes exactly while this very id is pending: a pending request never accepts. */
    method CheckStop(id: Str) returns (r: Outcome)
      requires Valid()
      ensures r == if requestId == Some(id) then Done else Rejected(Stale)
      ensures r == GateRules.CheckStop(Now(), id)
    {
      r := if requestId != Some(id) || accepting then Rejected(Stale) else Done;
    }

    method Acquire() returns (permit: Option<ExternalRootPermit>)
      requires Valid()
      modifies this, drained
      ensures Valid() && openChanged == old(openChanged)
      ensures var (g, id) := GateRules.Acquire(old(Now()));
              && Now() == g
              && (permit.Some? <==> id.Some?)
              && (permit.Some? ==> fresh(permit.value) && permit.value.Holds(this, id.value))
    {
      if !(accepting && !shutdownRequested.isSet) {
        return None;
      }
      permits := permits + 1;
      drained.isSet := false;
      var p := new ExternalRootPermit(this, OrEmpty(requestId));
      permit := Some(p);
    }

    method AcquireChild(id: Str) returns (permit: Option<ExternalRootPermit>)
      requires Valid()
      modifies this, drained
      ensures Valid() && openChanged == old(openChanged)
      ensures var (g, r) := GateRules.AcquireChild(old(Now()), id);
              && Now() == g
              && (permit.Some? <==> r == Done)
              && (permit.Some? ==> fresh(permit.value) && permit.value.Holds(this, id))
    {
      if id != [] && requestId != Some(id) {
        return None;
      }
      permits := permits + 1;
      drained.isSet := false;
      var p := new ExternalRootPermit(this, id);
      permit := Some(p);
    }

    method ReleaseOne(id: Str) returns (r: Outcome)
      requires Valid()
      modifies this, drained
      ensures Valid() && openChanged == old(openChanged) && (Now(), r) == GateRules.Release(old(Now()), id)
    {
      if permits <= 0 {
        return Rejected(Unbalanced);
      }
      if id != [] && requestId != Some(id) {
        return Rejected(Foreign);
      }
      permits := permits - 1;
      if permits == 0 {
        drained.isSet := true;
      }
      r := Done;
    }

    /** `commit` up to its wait for the drained event. */
    method BeginCommit(id: Str) returns (r: Begun)
      requires Valid()
      ensures r == GateRules.BeginCommit(config, Now(), id)
    {
      if !config.executes {
        return Refused(NotExecuting);
      }
      if requestId != Some(id) {
        return Refused(Stale);
      }
      if committed {
        return AlreadyCommitted;
      }
      r := if !config.hasChannel then Refused(NoChannel) else Waits;
    }

    /** `commit` after its wait: the channel took the frame, or anything was raised. */
    method EndCommit(id: Str, written: bool)
      requires Valid()
      modifies this, openChanged
      ensures Valid() && Now() == GateRules.EndCommit(old(Now()), id, written)
      ensures if !written && old(requestId) == Some(id) then old(openChanged).isSet && fresh(openChanged)
              else openChanged == old(openChanged) && openChanged.isSet == old(openChanged.isSet)
    {
      if written {
        committed := true;
      } else {
        Abort(id);
      }
    }

    /** A matching abort reopens the gate, sets the event its waiters captured, and installs a fresh one. */
    method Abort(id: Str)
      requires Valid()
      modifies this, openChanged
      ensures Valid() && Now() == GateRules.Abort(old(Now()), id)
      ensures if old(requestId) == Some(id) then old(openChanged).isSet && fresh(openChanged)
              else openChanged == old(openChanged) && openChanged.isSet == old(openChanged.isSet)
    {
      if requestId != Some(id) {
        return;
      }
      requestId := None;
      accepting := true;
      committed := false;
      var changed := openChanged;
      openChanged := new Event(changed.name + 1, false);
      changed.isSet := true;
    }
  }

  class ExternalRootPermit {
    const gate: RestartGate
    const requestId: Str
    var released: bool

    ghost predicate Holds(gate: RestartGate, id: Str)
      reads this
    {
      this.gate == gate && requestId == id && !released
    }

    constructor (gate: RestartGate, requestId: Str)
      ensures Holds(gate, requestId)
    {
      this.gate := gate;
      this.requestId := requestId;
      released := false;
    }

    /** Only the first release reaches the gate. */
    method Release() returns (r: Outcome)
      requires gate.Valid()
      modifies this, gate, gate.drained
      ensures gate.Valid() && released
      ensures (gate.Now(), r)
           == if old(released) then (old(gate.Now()), Done) else GateRules.Release(old(gate.Now()), requestId)
    {
      if released {
        return Done;
      }
      released := true;
      r := gate.ReleaseOne(requestId);
    }

    method Child() returns (permit: Option<ExternalRootPermit>)
      requires gate.Valid()
      modifies gate, gate.drained
      ensures gate.Valid()
      ensures var (g, r) := if released then (old(gate.Now()), Rejected(Released))
                            else GateRules.AcquireChild(old(gate.Now()), requestId);
              && gate.Now() == g
              && (permit.Some? <==> r == Done)
              && (permit.Some? ==> fresh(permit.value) && permit.value.Holds(gate, requestId))
    {
      if released {
        return None;
      }
      permit := gate.AcquireChild(requestId);
    }
  }
}
