/** The decisions of the supervisor: one boot seen through its lifecycle pipe and the settings bridge, and the loop
    that goes from boot to boot. The outside is a script of what each wait returns. */
module Supervisor {
  import opened Text
  import opened Lifecycle
  import opened BridgeRules

  const RESTART_EXIT_CODE: int := 75
  const SUPERVISOR_FAILURE: int := 70

  // ----- One boot -----

  /** The gateway is signalled, has lost its identity, or sending raises. */
  datatype Signal = Sent | Gone | SendRaises

  /** The pid of a ready frame is of this boot, is not, or opening its process raises. */
  datatype PidCheck = Ours | NotOurs | OpenRaises

  /** One ready file of a `select`. `arrivals` counts the requests other threads have made since the supervisor
      last looked at the bridge; `signal` says what becomes of the signal to the gateway. */
  datatype Event =
    | GuardianExit
    | PipeData(data: Chunk)
    | PipeEnd
    | WakePipe(arrivals: nat, signal: Signal)

  /** One pass of the wait loop: whether the start deadline has passed, the events of one `select`, and what a
      look at the pid of a new ready frame finds. */
  datatype Turn = Turn(expired: bool, events: seq<Event>, pid: PidCheck)

  /** What the supervisor did with generations, in order. */
  datatype Entry = Took(gen: nat) | Settled(gen: nat, ok: bool)

  /** The locals of `_wait_child`. `stream` collects the bytes read from the pipe, `log` what was done so far. */
  datatype Wait = Wait(
    life: State, gen: nat, report: nat, gateway: bool, open: bool, bridge: Bridge, log: seq<Entry>, stream: Bytes)

  function Fail(w: Wait, why: Refusal): Wait {
    w.(life := w.life.(core := Refuse(w.life.core, why)))
  }

  /** An exception leaves the wait. */
  function Throw(w: Wait): Wait {
    w.(life := w.life.(core := w.life.core.(status := Raised)))
  }

  function SettleGen(w: Wait, gen: nat, ok: bool): Wait {
    w.(bridge := Complete(w.bridge, gen, ok), log := w.log + [Settled(gen, ok)])
  }

  /** A chunk is fed; an answer it brings settles the outstanding request. */
  function OnData(r: Reader, w: Wait, data: Bytes): Wait {
    var fed := w.(life := Feed(r, w.life, data, false), stream := w.stream + data);
    var answers := fed.life.core.results;
    if fed.life.core.status.Raised? || answers == [] then fed
    else if fed.gen == 0 then Fail(fed, UnrequestedResult)
    else if |answers| != 1 then Fail(fed, RepeatedResult)
    else SettleGen(fed, fed.gen, answers[0].0).(gen := 0, life := fed.life.(core := fed.life.core.(results := [])))
  }

  /** A readable wake pipe; the request taken replaces an outstanding one. */
  function OnWake(w: Wait, arrivals: nat, signal: Signal): Wait {
    var b := Arrive(w.bridge, arrivals);
    if b.wake == 0 then w.(bridge := b) else
    var (c, gen) := Take(b);
    var t := w.(bridge := c, gen := gen, log := if gen == 0 then w.log else w.log + [Took(gen)]);
    if gen == 0 || signal.Sent? then t else if signal.Gone? then Fail(t, GatewayGone) else Throw(t)
  }

  /** An event reaches the loop only while its file is registered. */
  function OnEvent(r: Reader, w: Wait, e: Event): Wait {
    match e
    case GuardianExit => w
    case PipeData(data) => if w.open then OnData(r, w, data) else w
    case PipeEnd => if w.open then w.(life := Feed(r, w.life, [], true), open := false) else w
    case WakePipe(arrivals, signal) => if w.gateway then OnWake(w, arrivals, signal) else w
  }

  /** The `for` loop over one batch: an exception or an unreachable gateway leaves it. */
  function OnEvents(r: Reader, w: Wait, events: seq<Event>): Wait
    decreases |events|
  {
    if events == [] then w else
    var t := OnEvent(r, w, events[0]);
    if t.life.core.status.Raised? || t.life.core.status == Refused(GatewayGone) then t else OnEvents(r, t, events[1..])
  }

  /** After the batch: a new ready frame gains the signal right and settles the reload it owes. */
  function OnReady(w: Wait, pid: PidCheck): Wait {
    if !w.life.core.status.Healthy? || !w.life.core.ready || w.gateway then w
    else if pid.OpenRaises? then Throw(w)
    else if pid.NotOurs? then
      var f := Fail(w, ForeignPid);
      f.(life := f.life.(core := f.life.core.(commit := false)))
    else if w.report == 0 then w.(gateway := true)
    else SettleGen(w, w.report, true).(gateway := true, report := 0)
  }

  function OneTurn(r: Reader, w: Wait, turn: Turn): Wait {
    if !w.life.core.ready && turn.expired then Fail(w, StartupTimeout)
    else OnReady(OnEvents(r, w, turn.events), turn.pid)
  }

  /** The wait loop; it ends when the guardian has exited, which is when the script of turns ends. */
  function Turns(r: Reader, w: Wait, turns: seq<Turn>): Wait
    decreases |turns|
  {
    if turns == [] || !w.life.core.status.Healthy? then w
    else Turns(r, OneTurn(r, w, turns[0]), turns[1..])
  }

  function DrainPipe(r: Reader, w: Wait, pipe: seq<Read>): Wait {
    if !w.open || !w.life.core.status.Healthy? then w else
    var d := ExitDrain(r, w.life, [], pipe);
    w.(life := d.state, stream := w.stream + d.got)
  }

  /** The end of `_wait_child`: the pipe is drained and a reload still owed is settled as failed. */
  function Leave(r: Reader, w: Wait, pipe: seq<Read>): Wait {
    var t := DrainPipe(r, w, pipe);
    if t.life.core.status.Raised? || t.report == 0 then t else SettleGen(t, t.report, false)
  }

  /** `settings_generation or report_settings_generation` */
  function Outstanding(w: Wait): nat {
    if w.gen != 0 then w.gen else w.report
  }

  // ----- From boot to boot -----

  /** One boot as the outside plays it. `early` is a stop signal before the wait, `stopped` one seen after it;
      `rollback` counts the requests that arrive while the supervisor waits for a rollback. */
  datatype Script = Script(
    early: bool, reader: Reader, turns: seq<Turn>, pipe: seq<Read>, exitCode: int, stopped: bool, rollback: nat)

  /** What passes from one boot to the next. */
  datatype Hand = Hand(bridge: Bridge, report: nat, log: seq<Entry>)

  datatype Why = Restart | Rollback
  datatype Decision = Return(code: int) | Raise | Again(why: Why)

  datatype Boot = Boot(script: Script, before: Hand, waited: Wait, decision: Decision, after: Hand)

  const FIRST: Hand := Hand(IDLE, 0, [])

  function Enter(h: Hand): Wait {
    Wait(START, 0, h.report, false, true, h.bridge, h.log, [])
  }

  function PortableExitCode(code: int): int {
    if code >= 0 then code else 128 - code
  }

  /** No restart: an outstanding reload fails, and a rollback request may start another boot. */
  function GiveUp(w: Wait, code: int, arrivals: nat): (Decision, Hand) {
    var gen := Outstanding(w);
    if gen == 0 then (Return(code), Hand(w.bridge, 0, w.log)) else
    var f := SettleGen(w, gen, false);
    var (b, taken) := Take(Arrive(f.bridge, arrivals));
    if taken == 0 then (Return(code), Hand(b, 0, f.log))
    else (Again(Rollback), Hand(b, taken, f.log + [Took(taken)]))
  }

  function Decide(s: Script, w: Wait): (Decision, Hand) {
    var c := w.life.core;
    if c.status.Raised? then (Raise, Hand(w.bridge, Outstanding(w), w.log))
    else if s.stopped then (Return(0), Hand(w.bridge, Outstanding(w), w.log))
    else if c.status.Refused? then (Return(SUPERVISOR_FAILURE), Hand(w.bridge, Outstanding(w), w.log))
    else if s.exitCode != RESTART_EXIT_CODE then GiveUp(w, PortableExitCode(s.exitCode), s.rollback)
    else if !c.ready || !c.commit then GiveUp(w, SUPERVISOR_FAILURE, s.rollback)
    else (Again(Restart), Hand(w.bridge, Outstanding(w), w.log))
  }

  function RunBoot(s: Script, h: Hand): Boot {
    if s.early then Boot(s, h, Enter(h), Return(0), h) else
    var w := Leave(s.reader, Turns(s.reader, Enter(h), s.turns), s.pipe);
    var (decision, after) := Decide(s, w);
    Boot(s, h, w, decision, after)
  }

  lemma Plays(s: Script, h: Hand)
    ensures RunBoot(s, h).script == s && RunBoot(s, h).before == h
  {
    hide Turns, Leave, Decide;
  }

  /** Boot `k` plays its script from what the boot before it handed over. */
  ghost predicate Follows(boots: seq<Boot>, k: nat)
    requires k < |boots|
  {
    && boots[k] == RunBoot(boots[k].script, boots[k].before)
    && if k == 0 then boots[0].before == FIRST
       else boots[k - 1].decision.Again? && boots[k].before == boots[k - 1].after
  }

  /** The boots of one supervisor. */
  ghost predicate Boots(boots: seq<Boot>) {
    forall k :: 0 <= k < |boots| ==> Follows(boots, k)
  }

  /** The boots that scripts play from `h` on, up to the first that ends the supervisor. */
  function History(scripts: seq<Script>, h: Hand): seq<Boot>
    decreases |scripts|
  {
    if scripts == [] then []
    else
      var b := RunBoot(scripts[0], h);
      [b] + if b.decision.Again? then History(scripts[1..], b.after) else []
  }

  /** What the supervisor comes to after these boots: an exit code, an exception, or neither yet. */
  function Verdict(boots: seq<Boot>): (Option<int>, bool) {
    if boots == [] then (None, false)
    else match boots[|boots| - 1].decision
      case Return(code) => (Some(code), false)
      case Raise => (None, true)
      case Again(_) => (None, false)
  }

  /** The exit code that asks for a restart never leaves the supervisor, and success is reported only for a stop or a
      child that succeeded. */
  lemma ExitCodes(s: Script, h: Hand)
    ensures var d := RunBoot(s, h).decision;
            d.Return? ==> d.code != RESTART_EXIT_CODE && (d.code == 0 ==> s.early || s.stopped || s.exitCode == 0)
  {
    hide Turns, Leave, Outstanding, Arrive;
  }
}
