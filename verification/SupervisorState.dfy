/** `_wait_child` and `run_supervisor` with their loops and local variables, proved against `Supervisor`. */
module SupervisorState {
  import opened Text
  import opened Lifecycle
  import opened LifecycleReader
  import opened BridgeRules
  import opened BridgeState
  import opened Supervisor

  /** What `_wait_child` returns to the boot loop. */
  datatype ChildResult = ChildResult(exitCode: int, ready: bool, commitValid: bool, settingsGeneration: nat,
                                     failed: bool)

  /** The locals and objects of one wait, as the value `w`. */
  ghost predicate Mirrors(state: LifecycleState, bridge: SettingsRestartBridge, raised: bool,
                          gen: nat, report: nat, gateway: bool, open: bool, w: Wait)
    reads state, bridge
  {
    w.life == state.Now(raised) && w.gen == gen && w.report == report && w.gateway == gateway && w.open == open
    && w.bridge == bridge.Now()
  }

  /** Requests of other threads. */
  method OtherThreads(bridge: SettingsRestartBridge, n: nat)
    modifies bridge
    ensures bridge.Now() == Arrive(old(bridge.Now()), n)
  {
    var left := n;
    while left > 0
      invariant Arrive(bridge.Now(), left) == Arrive(old(bridge.Now()), n)
    {
      var _ := bridge.RequestReload();
      left := left - 1;
    }
  }

  method TakeData(state: LifecycleState, bridge: SettingsRestartBridge, data: Bytes,
                  gen: nat, report: nat, gateway: bool, ghost w: Wait)
    returns (raised: bool, later: nat, ghost v: Wait)
    requires Mirrors(state, bridge, false, gen, report, gateway, true, w)
    modifies state, bridge
    ensures v == OnData(state.reader, w, data) && Mirrors(state, bridge, raised, later, report, gateway, true, v)
  {
    hide Lifecycle.Feed;
    later := gen;
    v := OnData(state.reader, w, data);
    raised := state.Feed(data, false);
    if raised || state.settingsResults == [] {
      return;
    }
    if gen == 0 {
      state.protocolError := Some(UnrequestedResult);
    } else if |state.settingsResults| != 1 {
      state.protocolError := Some(RepeatedResult);
    } else {
      bridge.CompleteRequest(gen, state.settingsResults[0].0);
      state.settingsResults := [];
      later := 0;
    }
  }

  method TakeWake(state: LifecycleState, bridge: SettingsRestartBridge, arrivals: nat, signal: Signal,
                  gen: nat, report: nat, open: bool, ghost w: Wait)
    returns (raised: bool, later: nat, ghost v: Wait)
    requires Mirrors(state, bridge, false, gen, report, true, open, w)
    modifies state, bridge
    ensures v == OnWake(w, arrivals, signal) && Mirrors(state, bridge, raised, later, report, true, open, v)
  {
    v := OnWake(w, arrivals, signal);
    raised, later := false, gen;
    OtherThreads(bridge, arrivals);
    if bridge.wakeBytes == 0 {
      return;
    }
    later := bridge.TakeRequest();
    if later != 0 {
      if signal.Gone? {
        state.protocolError := Some(GatewayGone);
        return;
      }
      raised := signal.SendRaises?;
    }
  }

  /** One batch of events. */
  method TakeEvents(state: LifecycleState, bridge: SettingsRestartBridge, events: seq<Event>,
                    gen0: nat, report: nat, gateway: bool, open0: bool, ghost w: Wait)
    returns (raised: bool, gen: nat, open: bool, ghost v: Wait)
    requires Mirrors(state, bridge, false, gen0, report, gateway, open0, w)
    modifies state, bridge
    ensures v == OnEvents(state.reader, w, events) && Mirrors(state, bridge, raised, gen, report, gateway, open, v)
  {
    hide Lifecycle.Feed, OnData, OnWake;
    raised, gen, open, v := false, gen0, open0, w;
    var j := 0;
    assert events[0..] == events;
    while j < |events|
      invariant j <= |events| && !raised && Mirrors(state, bridge, false, gen, report, gateway, open, v)
      invariant OnEvents(state.reader, v, events[j..]) == OnEvents(state.reader, w, events)
      decreases |events| - j
    {
      ghost var u := v;
      assert events[j..][0] == events[j] && events[j..][1..] == events[j + 1..];
      match events[j] {
        case GuardianExit =>
        case PipeData(data) =>
          if open { raised, gen, v := TakeData(state, bridge, data, gen, report, gateway, v); }
        case PipeEnd =>
          if open {
            v := OnEvent(state.reader, v, PipeEnd);
            raised := state.Feed([], true);
            open := false;
          }
        case WakePipe(arrivals, signal) =>
          if gateway { raised, gen, v := TakeWake(state, bridge, arrivals, signal, gen, report, open, v); }
      }
      assert v == OnEvent(state.reader, u, events[j]);
      if raised || state.protocolError == Some(GatewayGone) {
        return;
      }
      j := j + 1;
    }
  }

  method TakeReady(state: LifecycleState, bridge: SettingsRestartBridge, pid: PidCheck,
                   gen: nat, report0: nat, gateway0: bool, open: bool, ghost w: Wait)
    returns (raised: bool, report: nat, gateway: bool, ghost v: Wait)
    requires Mirrors(state, bridge, false, gen, report0, gateway0, open, w)
    modifies state, bridge
    ensures v == OnReady(w, pid) && Mirrors(state, bridge, raised, gen, report, gateway, open, v)
  {
    raised, report, gateway, v := false, report0, gateway0, OnReady(w, pid);
    if state.protocolError.Some? || !state.ready || gateway {
      return;
    }
    if pid.OpenRaises? {
      raised := true;
      return;
    }
    if pid.NotOurs? {
      state.protocolError := Some(ForeignPid);
      state.commitValid := false;
      return;
    }
    gateway := true;
    if report != 0 {
      bridge.CompleteRequest(report, true);
      report := 0;
    }
  }

  /** One pass of the wait loop. */
  method TakeTurn(state: LifecycleState, bridge: SettingsRestartBridge, turn: Turn,
                  gen0: nat, report0: nat, gateway0: bool, open0: bool, ghost w: Wait)
    returns (raised: bool, gen: nat, report: nat, gateway: bool, open: bool, ghost v: Wait)
    requires Mirrors(state, bridge, false, gen0, report0, gateway0, open0, w)
    modifies state, bridge
    ensures v == OneTurn(state.reader, w, turn) && Mirrors(state, bridge, raised, gen, report, gateway, open, v)
  {
    hide OnEvents, OnReady;
    raised, gen, report, gateway, open, v := false, gen0, report0, gateway0, open0, OneTurn(state.reader, w, turn);
    if !state.ready && turn.expired {
      state.protocolError := Some(StartupTimeout);
      return;
    }
    ghost var u;
    raised, gen, open, u := TakeEvents(state, bridge, turn.events, gen, report, gateway, open, w);
    if raised {
      RaisedNotReady(u, turn.pid);
      return;
    }
    raised, report, gateway, u := TakeReady(state, bridge, turn.pid, gen, report, gateway, open, u);
  }

  lemma RaisedNotReady(w: Wait, pid: PidCheck)
    requires w.life.core.status.Raised?
    ensures OnReady(w, pid) == w
  {}

  lemma TurnsCons(r: Reader, w: Wait, turns: seq<Turn>, i: nat)
    requires i < |turns| && w.life.core.status.Healthy?
    ensures Turns(r, w, turns[i..]) == Turns(r, OneTurn(r, w, turns[i]), turns[i + 1..])
  {
    hide OneTurn;
    assert turns[i..][1..] == turns[i + 1..];
  }

  lemma TurnsEnd(r: Reader, w: Wait, turns: seq<Turn>, i: nat)
    requires i <= |turns| && (i == |turns| || !w.life.core.status.Healthy?)
    ensures Turns(r, w, turns[i..]) == w
  {}

  /** The wait loop, until the guardian has exited or the boot has failed. */
  method SelectLoop(state: LifecycleState, bridge: SettingsRestartBridge, turns: seq<Turn>, owed: nat, ghost h: Hand)
    returns (raised: bool, gen: nat, report: nat, gateway: bool, open: bool, ghost w: Wait)
    requires Mirrors(state, bridge, false, 0, owed, false, true, Enter(h))
    modifies state, bridge
    ensures w == Turns(state.reader, Enter(h), turns) && Mirrors(state, bridge, raised, gen, report, gateway, open, w)
  {
    hide OneTurn, Turns;
    raised, gen, report, gateway, open, w := false, 0, owed, false, true, Enter(h);
    var i := 0;
    assert turns[0..] == turns;
    while i < |turns| && !raised && state.protocolError.None?
      invariant i <= |turns| && Mirrors(state, bridge, raised, gen, report, gateway, open, w)
      invariant Turns(state.reader, w, turns[i..]) == Turns(state.reader, Enter(h), turns)
      decreases |turns| - i
    {
      TurnsCons(state.reader, w, turns, i);
      raised, gen, report, gateway, open, w := TakeTurn(state, bridge, turns[i], gen, report, gateway, open, w);
      i := i + 1;
    }
    TurnsEnd(state.reader, w, turns, i);
  }

  /** The exit drain and the settlement of a reload still owed. */
  method LeaveChild(state: LifecycleState, bridge: SettingsRestartBridge, pending: seq<Read>,
                    gen: nat, report: nat, gateway: bool, open: bool, ghost w: Wait)
    returns (raised: bool, ghost v: Wait)
    requires Mirrors(state, bridge, false, gen, report, gateway, open, w)
    modifies state, bridge
    ensures v == Leave(state.reader, w, pending) && Mirrors(state, bridge, raised, gen, report, gateway, open, v)
  {
    hide ExitDrain;
    raised, v := false, DrainPipe(state.reader, w, pending);
    if open && state.protocolError.None? {
      var pipe := new Pipe(pending);
      ghost var drained;
      raised, drained := ReadLifecycleToEof(pipe, state);
    }
    if !raised && report != 0 {
      bridge.CompleteRequest(report, false);
      v := SettleGen(v, report, false);
    }
  }

  lemma RaisedLeaves(r: Reader, w: Wait, pipe: seq<Read>)
    requires w.life.core.status.Raised?
    ensures Leave(r, w, pipe) == w
  {}

  /** Waits for one guardian. */
  method WaitChild(script: Script, bridge: SettingsRestartBridge, owed: nat, ghost h: Hand)
    returns (raised: bool, result: ChildResult, ghost w: Wait)
    requires h.bridge == bridge.Now() && h.report == owed
    modifies bridge
    ensures w == Leave(script.reader, Turns(script.reader, Enter(h), script.turns), script.pipe)
    ensures bridge.Now() == w.bridge && (raised <==> w.life.core.status.Raised?)
    ensures var c := w.life.core;
            result == ChildResult(script.exitCode, c.ready, c.commit, Outstanding(w), c.status.Refused?)
  {
    hide Turns, Leave;
    var state := new LifecycleState(script.reader);
    var gen, report, gateway, open;
    raised, gen, report, gateway, open, w := SelectLoop(state, bridge, script.turns, owed, h);
    if raised {
      RaisedLeaves(script.reader, w, script.pipe);
    } else {
      raised, w := LeaveChild(state, bridge, script.pipe, gen, report, gateway, open, w);
    }
    result := ChildResult(script.exitCode, state.ready, state.commitValid, if gen != 0 then gen else report,
                          !raised && state.protocolError.Some?);
  }

  /** The decision after one boot; nothing comes back when another boot starts. */
  method AfterBoot(script: Script, result: ChildResult, bridge: SettingsRestartBridge, ghost w: Wait)
    returns (code: Option<int>, report: nat, ghost after: Hand)
    requires bridge.Now() == w.bridge && !w.life.core.status.Raised?
    requires var c := w.life.core;
             result == ChildResult(script.exitCode, c.ready, c.commit, Outstanding(w), c.status.Refused?)
    modifies bridge
    ensures var (decision, hand) := Decide(script, w);
            && after == hand && bridge.Now() == hand.bridge
            && code == (if decision.Return? then Some(decision.code) else None)
            && (code.None? ==> decision.Again? && report == hand.report)
  {
    after := Decide(script, w).1;
    report := 0;
    if script.stopped {
      return Some(0), 0, after;
    }
    if result.failed {
      return Some(SUPERVISOR_FAILURE), 0, after;
    }
    if result.exitCode == RESTART_EXIT_CODE && result.ready && result.commitValid {
      return None, result.settingsGeneration, after;
    }
    var failure := if result.exitCode != RESTART_EXIT_CODE then PortableExitCode(result.exitCode)
        else SUPERVISOR_FAILURE;
    code := Some(failure);
    if result.settingsGeneration != 0 {
      bridge.CompleteRequest(result.settingsGeneration, false);
      OtherThreads(bridge, script.rollback);
      var rollback := bridge.TakeRequest();
      if rollback != 0 {
        return None, rollback, after;
      }
    }
  }

  /** Goes from boot to boot until one decides otherwise or the scripts end. */
  method RunSupervisor(scripts: seq<Script>) returns (code: Option<int>, raised: bool)
    ensures (code, raised) == Verdict(History(scripts, FIRST))
  {
    hide Turns, Leave, Decide, History;
    var bridge := new SettingsRestartBridge();
    var report := 0;
    ghost var hand := FIRST;
    ghost var boots: seq<Boot> := [];
    code, raised := None, false;
    var k := 0;
    HistoryFrom(scripts, 0, FIRST, []);
    while k < |scripts|
      invariant k == |boots| <= |scripts| && fresh(bridge) && !raised && code.None?
      invariant hand.bridge == bridge.Now() && hand.report == report
      invariant History(scripts, FIRST) == boots + History(scripts[k..], hand)
      invariant boots != [] ==> boots[|boots| - 1].decision.Again?
    {
      var script := scripts[k];
      ghost var boot := RunBoot(script, hand);
      HistoryStep(scripts, k, hand, boots);
      boots := boots + [boot];
      if script.early {
        return Some(0), false;
      }
      var result;
      ghost var w;
      raised, result, w := WaitChild(script, bridge, report, hand);
      RaiseIs(script, w);
      if raised {
        return None, true;
      }
      code, report, hand := AfterBoot(script, result, bridge, w);
      if code.Some? {
        return code, false;
      }
      k := k + 1;
    }
    HistoryEnd(scripts, hand);
  }

  lemma HistoryFrom(scripts: seq<Script>, k: nat, h: Hand, boots: seq<Boot>)
    requires k == 0 && boots == []
    ensures History(scripts, h) == boots + History(scripts[k..], h)
  {
    assert scripts[0..] == scripts;
  }

  lemma HistoryStep(scripts: seq<Script>, k: nat, h: Hand, boots: seq<Boot>)
    requires k < |scripts|
    ensures var b := RunBoot(scripts[k], h);
            boots + History(scripts[k..], h)
              == boots + [b] + if b.decision.Again? then History(scripts[k + 1..], b.after) else []
  {
    hide RunBoot;
    assert scripts[k..][1..] == scripts[k + 1..];
  }

  lemma HistoryEnd(scripts: seq<Script>, h: Hand)
    ensures History(scripts[|scripts|..], h) == []
  {}

  lemma RaiseIs(s: Script, w: Wait)
    ensures Decide(s, w).0 == Raise <==> w.life.core.status.Raised?
  {}
}
