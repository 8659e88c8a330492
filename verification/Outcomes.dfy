/** What every boot comes to, read off its script and what its wait ended with, and how a wait fails. */
module Outcomes {
  import opened Text
  import opened Lifecycle
  import opened BridgeRules
  import opened Supervisor
  import opened Handshake
  import opened Settings

  // ----- The decision after a boot -----

  /** The reload that a wait leaves open: the one taken and not answered, or else the one owed. */
  predicate LeavesOpen(w: Wait, gen: nat) {
    if w.gen != 0 then gen == w.gen else gen == w.report
  }

  /** A healthy wait that asks for a restart and holds complete evidence. */
  ghost predicate Earned(s: Script, w: Wait) {
    w.life.core.status.Healthy? && s.exitCode == 75 && Trusted(s.reader, w.stream)
  }

  /** The code a supervisor without restart and rollback reports for what its child exited with: the restart code is a
      failure, and a signal is reported above 128. */
  predicate Reported(exitCode: int, code: int) {
    && (exitCode == 75 ==> code == 70)
    && (exitCode >= 0 && exitCode != 75 ==> code == exitCode)
    && (exitCode < 0 ==> code - 128 == -exitCode)
  }

  /** A rollback: the open reload has failed, and the newest request, with which the next boot starts, is taken. */
  predicate RollsBack(w: Wait, gen: nat, arrivals: nat, after: Hand) {
    var newest := w.bridge.next + arrivals;
    && after.report == newest && newest > 0
    && after.log == w.log + [Settled(gen, false), Took(newest)]
    && after.bridge == Bridge(newest, newest, false, 0, w.bridge.completed[gen := false])
  }

  /** No rollback: an open reload has failed and nothing is handed on. */
  predicate Stops(w: Wait, gen: nat, after: Hand) {
    && after.report == 0
    && after.log == w.log + (if gen != 0 then [Settled(gen, false)] else [])
    && after.bridge.completed == (if gen != 0 then w.bridge.completed[gen := false] else w.bridge.completed)
  }

  lemma GiveUpDecides(w: Wait, code: int, arrivals: nat, gen: nat)
    requires Alert(w.bridge) && LeavesOpen(w, gen)
    ensures var (d, after) := GiveUp(w, code, arrivals);
            if gen != 0 && (arrivals > 0 || w.bridge.flag)
            then d == Again(Rollback) && RollsBack(w, gen, arrivals, after)
            else d == Return(code) && Stops(w, gen, after)
  {
    hide Arrive;
    if gen != 0 {
      ArriveAlert(SettleGen(w, gen, false).bridge, arrivals);
      TwoEntries(w.log, Settled(gen, false), Took(w.bridge.next + arrivals));
    } else {
      assert w.log + [] == w.log;
    }
  }

  lemma TwoEntries(log: seq<Entry>, a: Entry, b: Entry)
    ensures log + [a] + [b] == log + [a, b]
  {}

  lemma PortableIsReported(exitCode: int)
    ensures Reported(exitCode, if exitCode != RESTART_EXIT_CODE then PortableExitCode(exitCode) else SUPERVISOR_FAILURE)
  {}

  /** The bridge of a wait is in order when the bridge it was handed is. */
  lemma {:induction false} EventsAlert(r: Reader, w: Wait, events: seq<Event>)
    requires Alert(w.bridge)
    ensures Alert(OnEvents(r, w, events).bridge)
    decreases |events|
  {
    hide Feed, Arrive;
    if events != [] {
      if events[0].WakePipe? { ArriveAlert(w.bridge, events[0].arrivals); }
      EventsAlert(r, OnEvent(r, w, events[0]), events[1..]);
    }
  }

  lemma {:induction false} TurnsAlert(r: Reader, w: Wait, turns: seq<Turn>)
    requires Alert(w.bridge)
    ensures Alert(Turns(r, w, turns).bridge)
    decreases |turns|
  {
    hide OnEvents;
    if turns != [] && w.life.core.status.Healthy? {
      EventsAlert(r, w, turns[0].events);
      TurnsAlert(r, OneTurn(r, w, turns[0]), turns[1..]);
    }
  }

  lemma BootAlert(s: Script, h: Hand)
    requires Alert(h.bridge)
    ensures Alert(RunBoot(s, h).waited.bridge)
  {
    hide Turns, Decide, ExitDrain;
    if !s.early { TurnsAlert(s.reader, Enter(h), s.turns); }
  }

  /** How a boot ends, for every script and hand. A stop ends the supervisor with 0, an exception raises, a refused
      stream fails with 70. Otherwise complete evidence restarts, with the open reload handed on. Without it an open
      reload fails, and then a request that is pending or still arrives rolls back; if there is none, or no reload is
      open, the supervisor returns what its child came to. */
  lemma EveryBootDecides(s: Script, h: Hand, gen: nat)
    requires Alert(h.bridge) && LeavesOpen(RunBoot(s, h).waited, gen)
    ensures var b := RunBoot(s, h);
            var w, status, pending := b.waited, b.waited.life.core.status, s.rollback > 0 || b.waited.bridge.flag;
            if s.early then b.decision == Return(0) && b.after == h
            else if status.Raised? then b.decision == Raise
            else if s.stopped then b.decision == Return(0)
            else if status.Refused? then b.decision == Return(70)
            else if Earned(s, w) then b.decision == Again(Restart) && b.after == Hand(w.bridge, gen, w.log)
            else if gen != 0 && pending then b.decision == Again(Rollback) && RollsBack(w, gen, s.rollback, b.after)
            else b.decision.Return? && Reported(s.exitCode, b.decision.code) && Stops(w, gen, b.after)
  {
    hide Turns, Leave, Trusted, RollsBack, Stops, GiveUp, Arrive;
    BootAlert(s, h);
    RestartExactlyOnEvidence(s, h);
    PortableIsReported(s.exitCode);
    var w := RunBoot(s, h).waited;
    GiveUpDecides(w, PortableExitCode(s.exitCode), s.rollback, gen);
    GiveUpDecides(w, SUPERVISOR_FAILURE, s.rollback, gen);
    hide Reported;
  }

  /** Over whole runs a boot is followed by a rollback exactly when, without a stop, an error or complete evidence, it
      left a reload open and another request was there; the next boot owes the newest one. */
  lemma RollbackExactly(boots: seq<Boot>, k: nat, gen: nat)
    requires Boots(boots) && k < |boots| && LeavesOpen(boots[k].waited, gen)
    ensures var s, w := boots[k].script, boots[k].waited;
            && (boots[k].decision == Again(Rollback) <==>
                  (&& !s.early && !s.stopped && w.life.core.status.Healthy? && !Earned(s, w)
                   && gen != 0 && (s.rollback > 0 || w.bridge.flag)))
            && (boots[k].decision == Again(Rollback) ==> RollsBack(w, gen, s.rollback, boots[k].after))
            && (boots[k].decision == Again(Rollback) && k + 1 < |boots| ==>
                  boots[k + 1].before.report == w.bridge.next + s.rollback)
  {
    hide RunBoot, Earned, Stops, Reported, Orderly, Accounted, Mixed, Alert;
    RunPasses(boots, k);
    assert Follows(boots, k);
    hide Passes, Owes;
    EveryBootDecides(boots[k].script, boots[k].before, gen);
    if k + 1 < |boots| { assert Follows(boots, k + 1); }
  }

  // ----- How a wait fails -----

  /** An event of a wait that goes on: what is read is taken without an error and brings an answer only to an
      outstanding request, the end of the pipe comes after a whole line, and the signal for a pending request is
      sent. */
  predicate EventPasses(r: Reader, w: Wait, e: Event) {
    match e
    case GuardianExit => true
    case PipeData(data) =>
      w.open ==>
        var fed := Feed(r, w.life, data, false).core;
        fed.status.Healthy? && (fed.results == [] || (w.gen != 0 && |fed.results| == 1))
    case PipeEnd => w.open ==> Feed(r, w.life, [], true).core.status.Healthy?
    case WakePipe(arrivals, signal) => w.gateway && (w.bridge.flag || arrivals > 0) ==> signal.Sent?
  }

  /** A pass that goes on: not past the deadline before ready, no event fails, and a new ready frame names a process of
      this boot. */
  ghost predicate TurnPasses(r: Reader, w: Wait, turn: Turn) {
    && (turn.expired ==> w.life.core.ready)
    && (forall j :: 0 <= j < |turn.events| ==> EventPasses(r, OnEvents(r, w, turn.events[..j]), turn.events[j]))
    && (OnEvents(r, w, turn.events).life.core.ready && !w.gateway ==> turn.pid.Ours?)
  }

  lemma EventPassesExactly(r: Reader, w: Wait, e: Event)
    requires w.life.core.status.Healthy? && Alert(w.bridge)
    ensures OnEvent(r, w, e).life.core.status.Healthy? <==> EventPasses(r, w, e)
  {
    hide Feed, Arrive;
    if e.WakePipe? { ArriveAlert(w.bridge, e.arrivals); }
  }

  /** A refused or raised wait is never healthy again. */
  lemma EventStaysSick(r: Reader, w: Wait, e: Event)
    requires !w.life.core.status.Healthy?
    ensures !OnEvent(r, w, e).life.core.status.Healthy? || w.life.core.status.Raised?
  {
    hide Arrive;
    if w.life.core.status.Refused? {
      hide Feed;
      match e {
        case PipeData(data) =>
          if Feed(r, w.life, data, false).core.status.Healthy? { FeedHealthy(r, w.life, data, false); }
        case PipeEnd =>
          if Feed(r, w.life, [], true).core.status.Healthy? { FeedHealthy(r, w.life, [], true); }
        case _ =>
      }
    }
  }

  predicate Halted(w: Wait) {
    w.life.core.status.Raised? || w.life.core.status == Refused(GatewayGone)
  }

  lemma {:induction false} EventsStaySick(r: Reader, w: Wait, events: seq<Event>)
    requires w.life.core.status.Refused?
    ensures !OnEvents(r, w, events).life.core.status.Healthy?
    decreases |events|
  {
    hide OnEvent;
    if events != [] {
      EventStaysSick(r, w, events[0]);
      var t := OnEvent(r, w, events[0]);
      if t.life.core.status.Refused? { EventsStaySick(r, t, events[1..]); }
    }
  }

  /** A batch in two parts. */
  lemma {:induction false} EventsSplit(r: Reader, w: Wait, events: seq<Event>, j: nat)
    requires j <= |events| && !Halted(w)
    ensures var u := OnEvents(r, w, events[..j]);
            OnEvents(r, w, events) == if Halted(u) then u else OnEvents(r, u, events[j..])
    decreases j
  {
    hide OnEvent;
    if j == 0 {
      assert events[0..] == events;
    } else {
      var t := OnEvent(r, w, events[0]);
      assert events[..j][0] == events[0] && events[..j][1..] == events[1..][..j - 1];
      assert events[1..][j - 1..] == events[j..];
      if !Halted(t) { EventsSplit(r, t, events[1..], j - 1); }
    }
  }

  lemma EventsNext(r: Reader, w: Wait, events: seq<Event>, j: nat)
    requires j < |events| && OnEvents(r, w, events[..j]).life.core.status.Healthy? && w.life.core.status.Healthy?
    ensures OnEvents(r, w, events[..j + 1]) == OnEvent(r, OnEvents(r, w, events[..j]), events[j])
  {
    hide OnEvent;
    var some := events[..j + 1];
    EventsSplit(r, w, some, j);
    assert some[..j] == events[..j] && some[j..] == [events[j]];
    var u := OnEvents(r, w, events[..j]);
    assert [events[j]][1..] == [];
    assert OnEvents(r, u, [events[j]]) == OnEvent(r, u, events[j]);
  }

  lemma {:induction false} EventsPassExactly(r: Reader, w: Wait, events: seq<Event>, n: nat)
    requires w.life.core.status.Healthy? && Alert(w.bridge) && n <= |events|
    ensures OnEvents(r, w, events[..n]).life.core.status.Healthy? <==>
              forall j :: 0 <= j < n ==> EventPasses(r, OnEvents(r, w, events[..j]), events[j])
    decreases n
  {
    hide OnEvent, OnEvents, EventPasses;
    if n == 0 {
      assert OnEvents(r, w, events[..0]) == w by { NoEvents(r, w, events); }
      return;
    }
    EventsPassExactly(r, w, events, n - 1);
    var u := OnEvents(r, w, events[..n - 1]);
    if u.life.core.status.Healthy? {
      EventsAlert(r, w, events[..n - 1]);
      EventsNext(r, w, events, n - 1);
      EventPassesExactly(r, u, events[n - 1]);
    } else {
      SickPrefix(r, w, events, n - 1);
    }
  }

  lemma NoEvents(r: Reader, w: Wait, events: seq<Event>)
    ensures OnEvents(r, w, events[..0]) == w
  {}

  lemma SickPrefix(r: Reader, w: Wait, events: seq<Event>, n: nat)
    requires n < |events| && w.life.core.status.Healthy? && !OnEvents(r, w, events[..n]).life.core.status.Healthy?
    ensures !OnEvents(r, w, events[..n + 1]).life.core.status.Healthy?
  {
    hide OnEvents;
    var some := events[..n + 1];
    EventsSplit(r, w, some, n);
    assert some[..n] == events[..n];
    var u := OnEvents(r, w, events[..n]);
    if !Halted(u) { EventsStaySick(r, u, some[n..]); }
  }

  lemma TurnPassesExactly(r: Reader, w: Wait, turn: Turn)
    requires w.life.core.status.Healthy? && Alert(w.bridge)
    ensures OneTurn(r, w, turn).life.core.status.Healthy? <==> TurnPasses(r, w, turn)
  {
    hide OnEvents, EventPasses;
    assert turn.events[..|turn.events|] == turn.events;
    EventsPassExactly(r, w, turn.events, |turn.events|);
    EventsReport(r, w, turn.events);
  }

  lemma {:induction false} TurnsSplit(r: Reader, w: Wait, turns: seq<Turn>, k: nat)
    requires k <= |turns|
    ensures Turns(r, w, turns) == Turns(r, Turns(r, w, turns[..k]), turns[k..])
    decreases k
  {
    hide OneTurn;
    if k == 0 {
      assert turns[0..] == turns;
    } else if w.life.core.status.Healthy? {
      assert turns[..k][0] == turns[0] && turns[..k][1..] == turns[1..][..k - 1] && turns[1..][k - 1..] == turns[k..];
      TurnsSplit(r, OneTurn(r, w, turns[0]), turns[1..], k - 1);
    }
  }

  lemma TurnsNext(r: Reader, w: Wait, turns: seq<Turn>, k: nat)
    requires k < |turns|
    ensures var u := Turns(r, w, turns[..k]);
            Turns(r, w, turns[..k + 1]) == if u.life.core.status.Healthy? then OneTurn(r, u, turns[k]) else u
  {
    hide OneTurn;
    TurnsSplit(r, w, turns[..k + 1], k);
    assert turns[..k + 1][..k] == turns[..k] && turns[..k + 1][k..] == [turns[k]];
    assert [turns[k]][1..] == [];
    var u := Turns(r, w, turns[..k]);
    if u.life.core.status.Healthy? {
      assert Turns(r, u, [turns[k]]) == Turns(r, OneTurn(r, u, turns[k]), []);
    }
  }

  lemma {:induction false} TurnsPassExactly(r: Reader, w: Wait, turns: seq<Turn>, n: nat)
    requires w.life.core.status.Healthy? && Alert(w.bridge) && n <= |turns|
    ensures Turns(r, w, turns[..n]).life.core.status.Healthy? <==>
              forall k :: 0 <= k < n ==> TurnPasses(r, Turns(r, w, turns[..k]), turns[k])
    decreases n
  {
    hide OneTurn, Turns, TurnPasses;
    if n == 0 {
      assert Turns(r, w, turns[..0]) == w by { NoTurns(r, w, turns); }
      return;
    }
    TurnsPassExactly(r, w, turns, n - 1);
    TurnsNext(r, w, turns, n - 1);
    var u := Turns(r, w, turns[..n - 1]);
    if u.life.core.status.Healthy? {
      TurnsAlert(r, w, turns[..n - 1]);
      TurnPassesExactly(r, u, turns[n - 1]);
    }
  }

  lemma NoTurns(r: Reader, w: Wait, turns: seq<Turn>)
    ensures Turns(r, w, turns[..0]) == w
  {}

  /** A wait ends without an error exactly when every pass of its loop goes on. */
  lemma WaitPassesExactly(r: Reader, h: Hand, turns: seq<Turn>)
    requires Alert(h.bridge)
    ensures Turns(r, Enter(h), turns).life.core.status.Healthy? <==>
              forall k :: 0 <= k < |turns| ==> TurnPasses(r, Turns(r, Enter(h), turns[..k]), turns[k])
  {
    hide OneTurn, Turns, TurnPasses;
    assert turns[..|turns|] == turns;
    TurnsPassExactly(r, Enter(h), turns, |turns|);
  }

  /** The state in which the wait of a boot begins its pass `k`. */
  function Reached(s: Script, h: Hand, k: nat): Wait
    requires k < |s.turns|
  {
    Turns(s.reader, Enter(h), s.turns[..k])
  }

  /** The pass that fails is the last, nothing more is read after it, and unless an exception escapes, a reload still
      owed fails. */
  lemma FailedPassEndsBoot(s: Script, h: Hand, k: nat)
    requires !s.early && k < |s.turns| && Reached(s, h, k).life.core.status.Healthy?
    requires !OneTurn(s.reader, Reached(s, h, k), s.turns[k]).life.core.status.Healthy?
    ensures var v, b := OneTurn(s.reader, Reached(s, h, k), s.turns[k]), RunBoot(s, h);
            && b.waited.life == v.life && b.waited.stream == v.stream && b.waited.gen == v.gen
            && b.waited.log == v.log + (if v.life.core.status.Refused? && v.report != 0 then [Settled(v.report, false)]
                                        else [])
            && b.decision == (if v.life.core.status.Raised? then Raise else Return(if s.stopped then 0 else 70))
  {
    hide OneTurn, Turns;
    var r, u := s.reader, Reached(s, h, k);
    TurnsSplit(r, Enter(h), s.turns, k);
    assert s.turns[k..][0] == s.turns[k];
    var v := OneTurn(r, u, s.turns[k]);
    assert Turns(r, Enter(h), s.turns) == v by { OnePass(r, u, s.turns[k..]); }
    assert v.log + [] == v.log;
    hide GiveUp, ExitDrain;
  }

  lemma OnePass(r: Reader, w: Wait, turns: seq<Turn>)
    requires turns != [] && w.life.core.status.Healthy? && !OneTurn(r, w, turns[0]).life.core.status.Healthy?
    ensures Turns(r, w, turns) == OneTurn(r, w, turns[0])
  {
    hide OneTurn;
  }

  /** A boot that reaches its deadline before ready is refused with what it has said so far. */
  lemma LateBootIsRefused(s: Script, h: Hand, k: nat)
    requires !s.early && k < |s.turns| && Reached(s, h, k).life.core.status.Healthy?
    requires s.turns[k].expired && !Reached(s, h, k).life.core.ready
    ensures var u, b := Reached(s, h, k), RunBoot(s, h);
            && b.waited.life.core == u.life.core.(status := Refused(StartupTimeout))
            && b.waited.stream == u.stream && b.decision == Return(if s.stopped then 0 else 70)
  {
    hide Turns, RunBoot, OnEvents, OnReady;
    FailedPassEndsBoot(s, h, k);
  }

  /** A ready frame with a pid of another boot is refused and its commit evidence dropped, whether a reload is owed or
      not; one whose process cannot be opened raises. */
  lemma StrangerIsRefused(s: Script, h: Hand, k: nat)
    requires !s.early && k < |s.turns| && Reached(s, h, k).life.core.status.Healthy?
    requires s.turns[k].expired ==> Reached(s, h, k).life.core.ready
    requires var v := OnEvents(s.reader, Reached(s, h, k), s.turns[k].events);
             v.life.core.status.Healthy? && v.life.core.ready && !Reached(s, h, k).gateway
    requires !s.turns[k].pid.Ours?
    ensures var v, b := OnEvents(s.reader, Reached(s, h, k), s.turns[k].events), RunBoot(s, h);
            if s.turns[k].pid.NotOurs? then
              && b.waited.life.core == v.life.core.(status := Refused(ForeignPid), commit := false)
              && b.decision == Return(if s.stopped then 0 else 70)
              && b.waited.log == v.log + (if v.report != 0 then [Settled(v.report, false)] else [])
            else b.decision == Raise && b.waited.log == v.log
  {
    hide Turns, RunBoot, OnEvents;
    EventsReport(s.reader, Reached(s, h, k), s.turns[k].events);
    FailedPassEndsBoot(s, h, k);
  }

  /** A request that is pending is taken, and then a gateway that is gone refuses the boot and a signal that raises ends
      the wait with its exception, whatever else the batch holds. */
  lemma UnsentSignalEndsBoot(s: Script, h: Hand, k: nat, j: nat)
    requires !s.early && k < |s.turns| && Reached(s, h, k).life.core.status.Healthy? && Alert(h.bridge)
    requires s.turns[k].expired ==> Reached(s, h, k).life.core.ready
    requires j < |s.turns[k].events| && s.turns[k].events[j].WakePipe? && !s.turns[k].events[j].signal.Sent?
    requires var u := OnEvents(s.reader, Reached(s, h, k), s.turns[k].events[..j]);
             !Halted(u) && u.gateway && (u.bridge.flag || s.turns[k].events[j].arrivals > 0)
    ensures var e, u, b := s.turns[k].events[j],
                           OnEvents(s.reader, Reached(s, h, k), s.turns[k].events[..j]), RunBoot(s, h);
            var newest := u.bridge.next + e.arrivals;
            && Took(newest) in b.waited.log && b.waited.gen == newest
            && b.decision == (if e.signal.SendRaises? then Raise else Return(if s.stopped then 0 else 70))
  {
    hide Turns, RunBoot, OnEvents, Arrive;
    var r, w, turn := s.reader, Reached(s, h, k), s.turns[k];
    var u, e := OnEvents(r, w, turn.events[..j]), turn.events[j];
    TurnsAlert(r, Enter(h), s.turns[..k]);
    EventsAlert(r, w, turn.events[..j]);
    ArriveAlert(u.bridge, e.arrivals);
    EventsSplit(r, w, turn.events, j);
    var v := OnEvent(r, u, e);
    assert turn.events[j..][0] == e && Halted(v);
    HaltsHere(r, u, turn.events[j..]);
    var newest := u.bridge.next + e.arrivals;
    assert v.gen == newest && v.log == u.log + [Took(newest)];
    assert v.log[|u.log|] == Took(newest);
    FailedPassEndsBoot(s, h, k);
  }

  lemma HaltsHere(r: Reader, w: Wait, events: seq<Event>)
    requires events != [] && Halted(OnEvent(r, w, events[0]))
    ensures OnEvents(r, w, events) == OnEvent(r, w, events[0])
  {
    hide OnEvent;
  }

  // ----- The history of a supervisor -----

  /** The boots of a history play the scripts one after the other and end with the scripts or with the first boot that
      does not lead to another. */
  lemma {:induction false} HistoryIsMaximal(scripts: seq<Script>, h: Hand)
    ensures var boots := History(scripts, h);
            && |boots| <= |scripts| && (scripts != [] ==> boots != [])
            && (forall k :: 0 <= k < |boots| ==> boots[k].script == scripts[k])
            && (forall k :: 0 <= k < |boots| - 1 ==> boots[k].decision.Again?)
            && (|boots| == |scripts| || !boots[|boots| - 1].decision.Again?)
    decreases |scripts|
  {
    if scripts != [] {
      var b := RunBoot(scripts[0], h);
      Plays(scripts[0], h);
      hide RunBoot;
      if b.decision.Again? {
        HistoryIsMaximal(scripts[1..], b.after);
        assert History(scripts, h) == [b] + History(scripts[1..], b.after);
      }
    }
  }

  /** A history is one of the runs of boots the theorems speak of. */
  lemma {:induction false} HistoryIsBoots(scripts: seq<Script>, boots: seq<Boot>, h: Hand)
    requires Boots(boots) && (forall k :: 0 <= k < |boots| ==> boots[k].decision.Again?)
    requires h == if boots == [] then FIRST else boots[|boots| - 1].after
    ensures Boots(boots + History(scripts, h))
    decreases |scripts|
  {
    hide RunBoot;
    if scripts == [] {
      assert boots + [] == boots;
      return;
    }
    var b := RunBoot(scripts[0], h);
    GrowBoots(boots, scripts[0], h);
    if b.decision.Again? {
      HistoryIsBoots(scripts[1..], boots + [b], b.after);
      assert boots + [b] + History(scripts[1..], b.after) == boots + History(scripts, h);
    } else {
      assert boots + History(scripts, h) == boots + [b];
    }
  }

  lemma GrowBoots(boots: seq<Boot>, s: Script, h: Hand)
    requires Boots(boots) && (forall k :: 0 <= k < |boots| ==> boots[k].decision.Again?)
    requires h == if boots == [] then FIRST else boots[|boots| - 1].after
    ensures Boots(boots + [RunBoot(s, h)])
  {
    hide RunBoot;
    Plays(s, h);
    var b := RunBoot(s, h);
    var grown := boots + [b];
    forall k | 0 <= k < |grown| ensures Follows(grown, k) {
      if k < |boots| { assert Follows(boots, k); }
    }
  }

  /** What a supervisor comes to is what the last boot of its history comes to: it raises exactly if the wait of that
      boot did, and a code is 0 for a stop, 70 for a refused stream, and otherwise reports what the child exited
      with. */
  lemma LastBootDecides(scripts: seq<Script>)
    requires scripts != []
    ensures var boots := History(scripts, FIRST);
            var (code, raised) := Verdict(boots);
            boots != []
            && var last := boots[|boots| - 1];
               var s, status := last.script, last.waited.life.core.status;
               && (raised <==> !s.early && status.Raised?)
               && (code.Some? <==> last.decision.Return?)
               && (code.Some? ==> if s.early || s.stopped then code.value == 0
                                  else if status.Refused? then code.value == 70 else Reported(s.exitCode, code.value))
               && (code.None? && !raised ==> |boots| == |scripts|)
  {
    hide RunBoot, History, Reported, Passes, Owes, RollsBack, Stops, Earned;
    HistoryIsMaximal(scripts, FIRST);
    assert Boots([]);
    HistoryIsBoots(scripts, [], FIRST);
    var boots := History(scripts, FIRST);
    assert [] + boots == boots;
    var k := |boots| - 1;
    RunPasses(boots, k);
    assert Follows(boots, k);
    var b := boots[k];
    assert Alert(b.before.bridge) by { PassesAlert(b.before, Excused(boots, k)); }
    var gen := if b.waited.gen != 0 then b.waited.gen else b.waited.report;
    EveryBootDecides(b.script, b.before, gen);
  }

  lemma PassesAlert(h: Hand, x: bool)
    requires Passes(h, x)
    ensures Alert(h.bridge)
  {
    hide Orderly, Accounted, Mixed;
  }
}
