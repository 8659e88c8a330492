/** Every interleaving of the gate's users. A step is one stretch between two suspension points: roots take and
    release permits, requests are prepared and aborted, commit calls wait for the drain, and waiters sleep until
    the gate opens again. */
module GateRuns {
  import opened Text
  import opened GateRules

  datatype Permit = Permit(id: Str, live: bool)

  /** A `commit` call that waits: asleep on the drained event, or woken by it and not resumed yet. */
  datatype Phase = Asleep | Woken
  datatype Call = Call(id: Str, phase: Phase)

  /** A waiter asleep on a reopen event, with the number of aborts it had seen when it captured the event. */
  datatype Sleeper = Sleeper(event: nat, seen: nat)

  /** A commit frame, with the number of live roots when it was written. */
  datatype Frame = Frame(id: Str, live: nat)

  datatype World = World(
    gate: Gate, permits: seq<Permit>, calls: map<nat, Call>, sleepers: map<nat, Sleeper>, aborts: nat,
    frames: seq<Frame>)

  const BEGIN: World := World(OPEN, [], map[], map[], 0, [])

  /** `written` says whether the channel takes the frame. */
  datatype Step =
    | TakePermit
    | TakeChild(permit: nat)
    | DropPermit(permit: nat)
    | PrepareRestart(id: Str)
    | PrepareHalt(id: Str)
    | AbortRequest(id: Str)
    | ShutDown(error: Option<Str>)
    | CallCommit(task: nat, id: Str, written: bool)
    | ResumeCommit(task: nat, written: bool)
    | FailCommit(task: nat)
    | WaitOpen(waiter: nat)
    | WakeWaiter(waiter: nat)

  function Live(ps: seq<Permit>): nat {
    if ps == [] then 0 else Live(ps[..|ps| - 1]) + if ps[|ps| - 1].live then 1 else 0
  }

  function AbortIn(w: World, id: Str): World {
    w.(gate := Abort(w.gate, id), aborts := w.aborts + if w.gate.request == Some(id) then 1 else 0)
  }

  /** The end of a commit call; one that fails aborts what it committed for. */
  function WriteFrame(w: World, id: Str, written: bool): World {
    if written then w.(gate := EndCommit(w.gate, id, true), frames := w.frames + [Frame(id, Live(w.permits))])
    else w.(gate := EndCommit(w.gate, id, false), aborts := w.aborts + if w.gate.request == Some(id) then 1 else 0)
  }

  /** Setting the drained event wakes every call that waits for it. */
  function WakeCalls(calls: map<nat, Call>): map<nat, Call> {
    map t | t in calls :: calls[t].(phase := Woken)
  }

  function Next(c: Config, w: World, s: Step): World {
    match s
    case TakePermit =>
      var (g, id) := Acquire(w.gate);
      if id.None? then w else w.(gate := g, permits := w.permits + [Permit(id.value, true)])
    case TakeChild(p) =>
      if p >= |w.permits| || !w.permits[p].live then w else
      var (g, outcome) := AcquireChild(w.gate, w.permits[p].id);
      if outcome.Rejected? then w else w.(gate := g, permits := w.permits + [Permit(w.permits[p].id, true)])
    case DropPermit(p) =>
      if p >= |w.permits| || !w.permits[p].live then w else
      var (g, outcome) := Release(w.gate, w.permits[p].id);
      w.(gate := g, permits := w.permits[p := w.permits[p].(live := false)],
         calls := if outcome.Done? && g.permits == 0 then WakeCalls(w.calls) else w.calls)
    case PrepareRestart(id) => w.(gate := Prepare(c, w.gate, id).0)
    case PrepareHalt(id) => w.(gate := PrepareStop(w.gate, id).0)
    case AbortRequest(id) => AbortIn(w, id)
    case ShutDown(error) => w.(gate := RequestShutdown(c, w.gate, error).0)
    case CallCommit(t, id, written) =>
      if t in w.calls || !BeginCommit(c, w.gate, id).Waits? then w
      else if w.gate.drained then WriteFrame(w, id, written)
      else w.(calls := w.calls[t := Call(id, Asleep)])
    case ResumeCommit(t, written) =>
      if t !in w.calls || w.calls[t].phase.Asleep? then w
      else WriteFrame(w.(calls := w.calls - {t}), w.calls[t].id, written)
    case FailCommit(t) =>
      if t !in w.calls then w else WriteFrame(w.(calls := w.calls - {t}), w.calls[t].id, false)
    case WaitOpen(x) =>
      if Accepting(w.gate) || x in w.sleepers then w
      else w.(sleepers := w.sleepers[x := Sleeper(w.gate.reopens, w.aborts)])
    case WakeWaiter(x) =>
      if x !in w.sleepers || w.sleepers[x].event >= w.gate.reopens then w
      else if Accepting(w.gate) then w.(sleepers := w.sleepers - {x})
      else w.(sleepers := w.sleepers[x := Sleeper(w.gate.reopens, w.aborts)])
  }

  function Run(c: Config, w: World, steps: seq<Step>): World
    decreases |steps|
  {
    if steps == [] then w else Run(c, Next(c, w, steps[0]), steps[1..])
  }

  // ----- What holds in every reachable world -----

  /** Text that neither is empty nor begins or ends with white space. */
  predicate Trimmed(id: Str) {
    id != [] && !IsSpace(id[0]) && !IsSpace(id[|id| - 1])
  }

  predicate Sound(w: World) {
    && w.gate.permits == Live(w.permits)
    && (w.gate.drained <==> w.gate.permits == 0)
    && (w.gate.accepting <==> w.gate.request.None?)
    && (w.gate.request.Some? ==> Trimmed(w.gate.request.value))
    && (forall i :: 0 <= i < |w.permits| ==> w.permits[i].id == [])
    && (forall t :: t in w.calls && w.gate.drained ==> w.calls[t].phase.Woken?)
    && w.gate.reopens == w.aborts
    && (forall x :: x in w.sleepers ==> w.sleepers[x].event == w.sleepers[x].seen <= w.gate.reopens)
    && (forall x :: x in w.sleepers && Accepting(w.gate) ==> w.sleepers[x].event < w.gate.reopens)
  }

  lemma BeginSound()
    ensures Sound(BEGIN)
  {}

  lemma LiveSnoc(ps: seq<Permit>, p: Permit)
    ensures Live(ps + [p]) == Live(ps) + if p.live then 1 else 0
  {
    assert (ps + [p])[..|ps|] == ps;
  }

  lemma {:induction false} LiveDrop(ps: seq<Permit>, i: nat)
    requires i < |ps| && ps[i].live
    ensures Live(ps[i := ps[i].(live := false)]) == Live(ps) - 1
    decreases |ps|
  {
    var n := |ps| - 1;
    var qs := ps[i := ps[i].(live := false)];
    if i < n {
      assert qs[..n] == ps[..n][i := ps[i].(live := false)];
      LiveDrop(ps[..n], i);
    } else {
      assert qs[..n] == ps[..n];
    }
  }

  lemma {:induction false} LivePositive(ps: seq<Permit>, i: nat)
    requires i < |ps| && ps[i].live
    ensures Live(ps) > 0
    decreases |ps|
  {
    if i < |ps| - 1 { LivePositive(ps[..|ps| - 1], i); }
  }

  /** Neither of the two errors of a release can arise for a permit that is still held, nor that of a child. */
  lemma ReleaseSucceeds(w: World, p: nat)
    requires Sound(w) && p < |w.permits| && w.permits[p].live
    ensures Release(w.gate, w.permits[p].id).1 == Done
    ensures AcquireChild(w.gate, w.permits[p].id).1 == Done
  {
    LivePositive(w.permits, p);
  }

  lemma TakeSound(w: World, g: Gate, id: Str)
    requires Sound(w) && g == Count(w.gate) && id == []
    ensures Sound(w.(gate := g, permits := w.permits + [Permit(id, true)]))
  {
    LiveSnoc(w.permits, Permit([], true));
  }

  lemma DropSound(c: Config, w: World, p: nat)
    requires Sound(w) && p < |w.permits| && w.permits[p].live
    ensures Sound(Next(c, w, DropPermit(p)))
  {
    LiveDrop(w.permits, p);
    ReleaseSucceeds(w, p);
  }

  lemma AbortSound(w: World, id: Str)
    requires Sound(w)
    ensures Sound(AbortIn(w, id))
  {}

  lemma WriteSound(w: World, id: Str, written: bool)
    requires Sound(w)
    ensures Sound(WriteFrame(w, id, written))
  {}

  lemma ValidIsTrimmed(id: Str)
    ensures ValidId(id) <==> Trimmed(id)
  {
    StripFixpoint(id);
  }

  lemma NextSound(c: Config, w: World, s: Step)
    requires Sound(w)
    ensures Sound(Next(c, w, s))
  {
    hide ValidId, Live, Trimmed;
    if s.PrepareRestart? || s.PrepareHalt? { ValidIsTrimmed(s.id); }
    match s {
      case TakePermit => if Accepting(w.gate) { TakeSound(w, Count(w.gate), []); }
      case TakeChild(p) => if p < |w.permits| && w.permits[p].live { TakeSound(w, Count(w.gate), []); }
      case DropPermit(p) => if p < |w.permits| && w.permits[p].live { DropSound(c, w, p); }
      case AbortRequest(id) => AbortSound(w, id);
      case CallCommit(t, id, written) => if w.gate.drained { WriteSound(w, id, written); }
      case ResumeCommit(t, written) =>
        if t in w.calls { WriteSound(w.(calls := w.calls - {t}), w.calls[t].id, written); }
      case FailCommit(t) => if t in w.calls { WriteSound(w.(calls := w.calls - {t}), w.calls[t].id, false); }
      case _ =>
    }
  }

  /** In every interleaving the permit count is the number of unreleased permits, the drained event is set exactly
      when it is zero, the gate accepts exactly when no request is pending, and no sleeper misses an event. */
  lemma {:induction false} RunsAreSound(c: Config, w: World, steps: seq<Step>)
    requires Sound(w)
    ensures Sound(Run(c, w, steps))
    decreases |steps|
  {
    if steps != [] {
      NextSound(c, w, steps[0]);
      RunsAreSound(c, Next(c, w, steps[0]), steps[1..]);
    }
  }

  /** No lost wakeup: a waiter asleep on an unset event captured the current event and no abort came since; and
      while the gate is open, or the roots have drained, nobody is left asleep. */
  lemma NoLostWakeup(c: Config, steps: seq<Step>)
    ensures var w := Run(c, BEGIN, steps);
            && (forall x :: x in w.sleepers && w.sleepers[x].event >= w.gate.reopens ==>
                  w.sleepers[x].event == w.gate.reopens && w.sleepers[x].seen == w.aborts && !Accepting(w.gate))
            && (forall t :: t in w.calls && Live(w.permits) == 0 ==> w.calls[t].phase.Woken?)
  {
    RunsAreSound(c, BEGIN, steps);
  }

  /** The error of the first shutdown request among the steps. */
  function FirstShutdown(steps: seq<Step>): Option<Option<Str>>
    decreases |steps|
  {
    if steps == [] then None else if steps[0].ShutDown? then Some(steps[0].error) else FirstShutdown(steps[1..])
  }

  lemma NextRunning(c: Config, w: World, s: Step)
    requires w.gate.shutdown.Running?
    ensures Next(c, w, s).gate.shutdown == if c.executes && s.ShutDown? then Requested(s.error) else Running
  {
    hide ValidId, Live, WakeCalls;
  }

  /** In every run from the beginning the shutdown event is set exactly if the runtime may execute and shutdown was
      requested, and then with the error of the first request. */
  lemma ShutdownIsFirstRequest(c: Config, steps: seq<Step>)
    ensures Run(c, BEGIN, steps).gate.shutdown
         == if c.executes && FirstShutdown(steps).Some? then Requested(FirstShutdown(steps).value) else Running
  {
    RunsToShutdown(c, BEGIN, steps);
  }

  lemma {:induction false} RunsToShutdown(c: Config, w: World, steps: seq<Step>)
    requires w.gate.shutdown.Running?
    ensures Run(c, w, steps).gate.shutdown
         == if c.executes && FirstShutdown(steps).Some? then Requested(FirstShutdown(steps).value) else Running
    decreases |steps|
  {
    hide Next;
    if steps != [] {
      NextRunning(c, w, steps[0]);
      var v := Next(c, w, steps[0]);
      if v.gate.shutdown.Running? {
        RunsToShutdown(c, v, steps[1..]);
      } else {
        ShutdownIsFinal(c, v, steps[1..]);
      }
    }
  }

  /** A new root is admitted, with a live permit that carries the empty id, exactly while no request is pending and no
      shutdown was requested of a runtime that may execute; otherwise nothing happens. A live permit always yields a
      child. */
  lemma AdmittedExactlyWhileOpen(c: Config, steps: seq<Step>, p: nat)
    ensures var w := Run(c, BEGIN, steps);
            && Next(c, w, TakePermit).permits
                 == (if w.gate.request.None? && !(c.executes && FirstShutdown(steps).Some?)
                     then w.permits + [Permit([], true)] else w.permits)
            && (p < |w.permits| && w.permits[p].live ==>
                  Next(c, w, TakeChild(p)).permits == w.permits + [Permit([], true)])
  {
    hide Run;
    RunsAreSound(c, BEGIN, steps);
    ShutdownIsFirstRequest(c, steps);
    if p < |Run(c, BEGIN, steps).permits| && Run(c, BEGIN, steps).permits[p].live {
      ReleaseSucceeds(Run(c, BEGIN, steps), p);
    }
  }

  /** A preparation is taken exactly if none is pending and its id is trimmed, and one for a restart only by a
      supervised runtime that may execute; it stays until its own abort or until a commit for it fails. */
  lemma PreparedExactly(c: Config, w: World, id: Str, t: nat)
    requires Sound(w)
    ensures var taken := w.gate.request.None? && Trimmed(id);
            && Next(c, w, PrepareHalt(id)).gate.request == (if taken then Some(id) else w.gate.request)
            && Next(c, w, PrepareRestart(id)).gate.request
                 == (if taken && c.supervised && c.executes then Some(id) else w.gate.request)
            && Next(c, w, AbortRequest(id)).gate.request
                 == (if w.gate.request == Some(id) then None else w.gate.request)
            && (CheckStop(w.gate, id) == Done <==> w.gate.request == Some(id))
            && (t in w.calls && w.gate.request == Some(w.calls[t].id) ==> Next(c, w, FailCommit(t)).gate.request.None?)
            && (t in w.calls && w.calls[t].phase.Woken? && w.gate.request == Some(w.calls[t].id) ==>
                  Next(c, w, ResumeCommit(t, false)).gate.request.None?)
  {
    hide ValidId, Trimmed;
    ValidIsTrimmed(id);
  }

  /** What the calls answer in a reachable state. A preparation reports success exactly if its own check passes from
      then on, and says why otherwise; a shutdown is accepted exactly by a runtime that may execute; and a commit waits,
      or is told that it is done, only for the pending request. */
  lemma AnswersAreHonest(c: Config, w: World, id: Str, error: Option<Str>)
    requires Sound(w)
    ensures var (g, answer) := PrepareStop(w.gate, id);
            && (answer == Done <==> CheckStop(g, id) == Done)
            && (answer != Done ==> answer == Rejected(if Trimmed(id) then Pending else InvalidId))
    ensures var (g, answer) := Prepare(c, w.gate, id);
            && (answer == Done <==> c.supervised && c.executes && CheckStop(g, id) == Done)
            && (!c.supervised ==> answer == Rejected(NotSupervised))
            && (c.supervised && !c.executes ==> answer == Rejected(NotExecuting))
    ensures RequestShutdown(c, w.gate, error).1 == if c.executes then Done else Rejected(NotExecuting)
    ensures BeginCommit(c, w.gate, id).Waits? || BeginCommit(c, w.gate, id).AlreadyCommitted?
       <==> c.executes && CheckStop(w.gate, id) == Done && (w.gate.committed || c.hasChannel)
    ensures BeginCommit(c, w.gate, id).AlreadyCommitted? ==> w.gate.committed
  {
    hide ValidId, Trimmed, Live;
    ValidIsTrimmed(id);
  }

  /** A permit may be released or have children exactly if it carries the empty id or that of the pending request. */
  lemma PermitsBelong(g: Gate, id: Str)
    ensures AcquireChild(g, id).1 == if id == [] || g.request == Some(id) then Done else Rejected(Foreign)
    ensures Release(g, id).1 == if g.permits <= 0 then Rejected(Unbalanced) else AcquireChild(g, id).1
  {}

  /** Nothing that may go on waits: an open gate lets its waiters go, a commit for the pending request writes at once
      when no root is live, and so does one that was woken; both write the id of the request they were called for. */
  lemma NothingWaitsInVain(c: Config, w: World, x: nat, t: nat, id: Str)
    requires Sound(w)
    ensures x in w.sleepers && Accepting(w.gate) ==> x !in Next(c, w, WakeWaiter(x)).sleepers
    ensures && t !in w.calls && c.executes && c.hasChannel && w.gate.request == Some(id) && !w.gate.committed
            && Live(w.permits) == 0 ==>
              Next(c, w, CallCommit(t, id, true)).frames == w.frames + [Frame(id, 0)]
    ensures t in w.calls && Live(w.permits) == 0 ==>
              Next(c, w, ResumeCommit(t, true)).frames == w.frames + [Frame(w.calls[t].id, 0)]
  {
    hide Live;
  }

  /** Once shutdown is requested nothing but children is admitted any more, whatever is prepared or aborted, and the
      error of the first request stays. */
  lemma {:induction false} ShutdownIsFinal(c: Config, w: World, steps: seq<Step>)
    requires w.gate.shutdown.Requested?
    ensures Run(c, w, steps).gate.shutdown == w.gate.shutdown && !Accepting(Run(c, w, steps).gate)
    decreases |steps|
  {
    hide Next;
    if steps != [] {
      NextShutdown(c, w, steps[0]);
      ShutdownIsFinal(c, Next(c, w, steps[0]), steps[1..]);
    }
  }

  lemma NextShutdown(c: Config, w: World, s: Step)
    requires w.gate.shutdown.Requested?
    ensures Next(c, w, s).gate.shutdown == w.gate.shutdown
  {
    hide ValidId, Live, WakeCalls;
  }

  lemma {:induction false} AbortsGrow(c: Config, w: World, steps: seq<Step>)
    ensures Run(c, w, steps).aborts >= w.aborts
    decreases |steps|
  {
    hide Next;
    if steps != [] {
      NextAborts(c, w, steps[0]);
      AbortsGrow(c, Next(c, w, steps[0]), steps[1..]);
    }
  }

  lemma NextDrained(c: Config, w: World, s: Step)
    requires Sound(w) && w.gate.request.Some? && Live(w.permits) == 0
    requires Next(c, w, s).aborts == w.aborts
    ensures var v := Next(c, w, s); v.permits == w.permits && v.gate.request == w.gate.request
  {
    hide ValidId, Live;
    match s {
      case TakeChild(p) => if p < |w.permits| && w.permits[p].live { LivePositive(w.permits, p); }
      case DropPermit(p) => if p < |w.permits| && w.permits[p].live { LivePositive(w.permits, p); }
      case _ =>
    }
  }

  lemma NextAborts(c: Config, w: World, s: Step)
    ensures Next(c, w, s).aborts >= w.aborts
  {}

  /** Once a request is pending and no root is live, no root becomes live until an abort. */
  lemma {:induction false} DrainedStaysDrained(c: Config, w: World, steps: seq<Step>)
    requires Sound(w) && w.gate.request.Some? && Live(w.permits) == 0
    requires Run(c, w, steps).aborts == w.aborts
    ensures var v := Run(c, w, steps); Live(v.permits) == 0 && v.gate.request == w.gate.request
    decreases |steps|
  {
    hide Next, Sound;
    if steps != [] {
      var v := Next(c, w, steps[0]);
      AbortsGrow(c, v, steps[1..]);
      NextAborts(c, w, steps[0]);
      NextSound(c, w, steps[0]);
      NextDrained(c, w, steps[0]);
      DrainedStaysDrained(c, v, steps[1..]);
    }
  }

  // ----- Preparations -----

  /** The step prepares this id. */
  predicate Prepares(s: Step, id: Str) {
    (s.PrepareRestart? || s.PrepareHalt?) && s.id == id
  }

  /** A stop that was prepared keeps passing its check in every continuation without an abort. */
  lemma {:induction false} PreparationStands(c: Config, w: World, steps: seq<Step>, id: Str)
    requires Sound(w) && CheckStop(w.gate, id) == Done && Run(c, w, steps).aborts == w.aborts
    ensures CheckStop(Run(c, w, steps).gate, id) == Done
    decreases |steps|
  {
    hide Next, Sound;
    if steps != [] {
      AbortsGrow(c, Next(c, w, steps[0]), steps[1..]);
      NextAborts(c, w, steps[0]);
      NextSound(c, w, steps[0]);
      NextStands(c, w, steps[0], id);
      PreparationStands(c, Next(c, w, steps[0]), steps[1..], id);
    }
  }

  lemma NextStands(c: Config, w: World, s: Step, id: Str)
    requires Sound(w) && CheckStop(w.gate, id) == Done && Next(c, w, s).aborts == w.aborts
    ensures CheckStop(Next(c, w, s).gate, id) == Done
  {
    hide ValidId, Live, WakeCalls;
  }

  /** A matching abort is counted and makes the check fail at once. */
  lemma AbortCancels(w: World, id: Str)
    requires CheckStop(w.gate, id) == Done
    ensures AbortIn(w, id).aborts == w.aborts + 1 && CheckStop(AbortIn(w, id).gate, id) == Rejected(Stale)
  {}

  /** And it keeps failing in every continuation that does not prepare the id again. */
  lemma {:induction false} CancelledStaysRejected(c: Config, w: World, steps: seq<Step>, id: Str)
    requires CheckStop(w.gate, id) == Rejected(Stale) && (forall i :: 0 <= i < |steps| ==> !Prepares(steps[i], id))
    requires Sound(w)
    ensures CheckStop(Run(c, w, steps).gate, id) == Rejected(Stale)
    decreases |steps|
  {
    hide Next, Sound;
    if steps != [] {
      NextSound(c, w, steps[0]);
      NextRejected(c, w, steps[0], id);
      CancelledStaysRejected(c, Next(c, w, steps[0]), steps[1..], id);
    }
  }

  lemma NextRejected(c: Config, w: World, s: Step, id: Str)
    requires Sound(w) && CheckStop(w.gate, id) == Rejected(Stale) && !Prepares(s, id)
    ensures CheckStop(Next(c, w, s).gate, id) == Rejected(Stale)
  {
    hide ValidId, Live, WakeCalls;
  }

  // ----- Commits -----

  lemma NextSilent(c: Config, w: World, s: Step)
    requires (!c.executes || !c.hasChannel) && w.calls == map[] && w.frames == []
    ensures Next(c, w, s).calls == map[] && Next(c, w, s).frames == []
  {
    hide ValidId, Live;
  }

  /** A gate that may not execute, or has no channel, never commits and never keeps a commit waiting. */
  lemma {:induction false} NoCommitWithoutChannel(c: Config, w: World, steps: seq<Step>)
    requires (!c.executes || !c.hasChannel) && w.calls == map[] && w.frames == []
    ensures Run(c, w, steps).calls == map[] && Run(c, w, steps).frames == []
    decreases |steps|
  {
    hide Next;
    if steps != [] {
      NextSilent(c, w, steps[0]);
      NoCommitWithoutChannel(c, Next(c, w, steps[0]), steps[1..]);
    }
  }

  predicate Waiting(w: World, id: Str) {
    exists t :: t in w.calls && w.calls[t].id == id
  }

  /** Commit calls for a request do not overlap, and nobody aborts a request while a commit waits for it. */
  predicate Disciplined(w: World, s: Step) {
    && (s.CallCommit? ==> !Waiting(w, s.id))
    && (s.AbortRequest? ==> !Waiting(w, s.id))
  }

  predicate DisciplinedRun(c: Config, w: World, steps: seq<Step>)
    decreases |steps|
  {
    steps == [] || (Disciplined(w, steps[0]) && DisciplinedRun(c, Next(c, w, steps[0]), steps[1..]))
  }

  predicate Quiet(w: World) {
    && Sound(w)
    && (forall f :: f in w.frames ==> f.live == 0)
    && (w.gate.committed ==> w.gate.request.Some?)
    && (forall t :: t in w.calls ==> w.gate.request == Some(w.calls[t].id) && !w.gate.committed)
    && (forall t, u :: t in w.calls && u in w.calls ==> t == u)
    && (forall t :: t in w.calls && w.calls[t].phase.Woken? ==> w.gate.permits == 0)
    && |w.frames| <= w.aborts + if w.gate.committed then 1 else 0
  }

  lemma NextQuiet(c: Config, w: World, s: Step)
    requires Quiet(w) && Disciplined(w, s)
    ensures Quiet(Next(c, w, s))
  {
    hide ValidId, Live;
    NextSound(c, w, s);
    match s {
      case TakeChild(p) => if p < |w.permits| && w.permits[p].live { LivePositive(w.permits, p); }
      case DropPermit(p) => if p < |w.permits| && w.permits[p].live { LivePositive(w.permits, p); }
      case CallCommit(t, id, written) =>
        assert forall u :: u in w.calls ==> w.calls[u].id == id || w.gate.request != Some(id);
      case _ =>
    }
  }

  /** In disciplined runs every commit frame is written while no root is live, and no write finds the request
      committed already. */
  lemma {:induction false} DisciplinedCommitsAreQuiet(c: Config, w: World, steps: seq<Step>)
    requires Quiet(w) && DisciplinedRun(c, w, steps)
    ensures Quiet(Run(c, w, steps)) && NoRepeat(c, w, steps) && NoneLoud(c, w, steps)
    decreases |steps|
  {
    hide Next;
    if steps != [] {
      NextQuiet(c, w, steps[0]);
      DisciplinedCommitsAreQuiet(c, Next(c, w, steps[0]), steps[1..]);
    }
  }

  // ----- Exactly when a frame is written twice or over a live root -----

  /** A commit call that waited resumes and puts its frame on the pipe. */
  predicate ResumesAndWrites(w: World, s: Step) {
    s.ResumeCommit? && s.written && s.task in w.calls && w.calls[s.task].phase.Woken?
  }

  /** No resumed commit finds the request committed already, which the source does not look at again. */
  predicate NoRepeat(c: Config, w: World, steps: seq<Step>)
    decreases |steps|
  {
    || steps == []
    || (!(ResumesAndWrites(w, steps[0]) && w.gate.committed) && NoRepeat(c, Next(c, w, steps[0]), steps[1..]))
  }

  /** No resumed commit finds the drained event clear, which the source does not look at again either. */
  predicate NoneLoud(c: Config, w: World, steps: seq<Step>)
    decreases |steps|
  {
    || steps == []
    || (!(ResumesAndWrites(w, steps[0]) && !w.gate.drained) && NoneLoud(c, Next(c, w, steps[0]), steps[1..]))
  }

  predicate AllQuiet(frames: seq<Frame>) {
    forall i :: 0 <= i < |frames| ==> frames[i].live == 0
  }

  function Fresh(g: Gate): nat {
    if g.committed then 0 else 1
  }

  /** One step without an abort writes at most one frame, and then the request is committed. */
  lemma NextWrites(c: Config, w: World, s: Step)
    requires Next(c, w, s).aborts == w.aborts
    ensures var v := Next(c, w, s);
            if |v.frames| == |w.frames| then v.gate.committed == w.gate.committed
            else |v.frames| == |w.frames| + 1 && v.gate.committed && (w.gate.committed ==> ResumesAndWrites(w, s))
    ensures ResumesAndWrites(w, s) ==> |Next(c, w, s).frames| == |w.frames| + 1
  {
    hide ValidId, Live, WakeCalls;
  }

  lemma {:induction false} FramesGrow(c: Config, w: World, steps: seq<Step>)
    ensures w.frames <= Run(c, w, steps).frames
    decreases |steps|
  {
    hide Next;
    if steps != [] {
      NextFrames(c, w, steps[0]);
      FramesGrow(c, Next(c, w, steps[0]), steps[1..]);
    }
  }

  lemma NextFrames(c: Config, w: World, s: Step)
    ensures w.frames <= Next(c, w, s).frames
  {
    hide ValidId, Live, WakeCalls;
  }

  /** Between two aborts there is more than one frame for a request exactly when some resumed commit finds the request
      committed. */
  lemma {:induction false} OneFrameExactlyWithoutRepeat(c: Config, w: World, steps: seq<Step>)
    requires Run(c, w, steps).aborts == w.aborts
    ensures NoRepeat(c, w, steps) <==> |Run(c, w, steps).frames| <= |w.frames| + Fresh(w.gate)
    decreases |steps|
  {
    hide Next;
    if steps != [] {
      var v := Next(c, w, steps[0]);
      AbortsGrow(c, v, steps[1..]);
      NextAborts(c, w, steps[0]);
      NextWrites(c, w, steps[0]);
      FramesGrow(c, v, steps[1..]);
      OneFrameExactlyWithoutRepeat(c, v, steps[1..]);
    }
  }

  /** So disciplined runs put at most one frame on the pipe between two aborts, wherever one starts to count. */
  lemma OneFrameBetweenAborts(c: Config, before: seq<Step>, during: seq<Step>)
    requires DisciplinedRun(c, BEGIN, before) && DisciplinedRun(c, Run(c, BEGIN, before), during)
    requires Run(c, BEGIN, before + during).aborts == Run(c, BEGIN, before).aborts
    ensures |Run(c, BEGIN, before + during).frames| <= |Run(c, BEGIN, before).frames| + 1
  {
    hide Run, DisciplinedRun, NoRepeat, NoneLoud;
    DisciplinedCommitsAreQuiet(c, BEGIN, before);
    DisciplinedCommitsAreQuiet(c, Run(c, BEGIN, before), during);
    RunAppend(c, BEGIN, before, during);
    OneFrameExactlyWithoutRepeat(c, Run(c, BEGIN, before), during);
  }

  lemma NextLoud(c: Config, w: World, s: Step)
    requires Sound(w)
    ensures AllQuiet(Next(c, w, s).frames) <==> AllQuiet(w.frames) && !(ResumesAndWrites(w, s) && !w.gate.drained)
  {
    hide ValidId, Live, WakeCalls, AllQuiet;
    if s.CallCommit? {
      AppendQuiet(w.frames, Frame(s.id, Live(w.permits)));
    }
    if ResumesAndWrites(w, s) {
      AppendQuiet(w.frames, Frame(w.calls[s.task].id, Live(w.permits)));
    }
  }

  lemma AppendQuiet(frames: seq<Frame>, f: Frame)
    ensures AllQuiet(frames + [f]) <==> AllQuiet(frames) && f.live == 0
  {
    assert (frames + [f])[|frames|] == f;
    assert forall i :: 0 <= i < |frames| ==> (frames + [f])[i] == frames[i];
  }

  /** In every interleaving, some frame is written while a root is live exactly when some resumed commit finds the
      drained event clear. */
  lemma {:induction false} QuietExactlyWithoutLoud(c: Config, w: World, steps: seq<Step>)
    requires Sound(w)
    ensures AllQuiet(Run(c, w, steps).frames) <==> AllQuiet(w.frames) && NoneLoud(c, w, steps)
    decreases |steps|
  {
    hide Next, Sound, AllQuiet;
    if steps != [] {
      NextSound(c, w, steps[0]);
      NextLoud(c, w, steps[0]);
      QuietExactlyWithoutLoud(c, Next(c, w, steps[0]), steps[1..]);
    }
  }

  /** The step puts a frame on the pipe. */
  predicate Writes(c: Config, w: World, s: Step) {
    || ResumesAndWrites(w, s)
    || (s.CallCommit? && s.written && s.task !in w.calls && BeginCommit(c, w.gate, s.id).Waits? && w.gate.drained)
  }

  /** The first write of the run, if there is one, finds the drained event set. */
  predicate FirstWriteDrained(c: Config, w: World, steps: seq<Step>)
    decreases |steps|
  {
    || steps == []
    || if Writes(c, w, steps[0]) then w.gate.drained else FirstWriteDrained(c, Next(c, w, steps[0]), steps[1..])
  }

  lemma NextFirst(c: Config, w: World, s: Step)
    requires Sound(w)
    ensures var v := Next(c, w, s);
            if Writes(c, w, s) then |v.frames| == |w.frames| + 1 && (v.frames[|w.frames|].live == 0 <==> w.gate.drained)
            else v.frames == w.frames
  {
    hide ValidId, Live, WakeCalls;
  }

  /** The first frame of a run is written over no live root exactly when its write finds the drained event set. */
  lemma {:induction false} FirstFrameIsQuietIffDrained(c: Config, w: World, steps: seq<Step>)
    requires Sound(w) && |Run(c, w, steps).frames| > |w.frames|
    ensures Run(c, w, steps).frames[|w.frames|].live == 0 <==> FirstWriteDrained(c, w, steps)
    decreases |steps|
  {
    hide Next, Sound, Writes;
    if steps != [] {
      NextSound(c, w, steps[0]);
      NextFirst(c, w, steps[0]);
      if Writes(c, w, steps[0]) {
        FramesGrow(c, Next(c, w, steps[0]), steps[1..]);
      } else {
        FirstFrameIsQuietIffDrained(c, Next(c, w, steps[0]), steps[1..]);
      }
    }
  }

  const SUPERVISED: Config := Config(true, true, true)
  const REQUEST: Str := [114]

  lemma RequestIsValid()
    ensures ValidId(REQUEST)
  {
    StripFixpoint(REQUEST);
  }

  /** One root is live and one commit call waits for it. */
  const PREFIX: seq<Step> := [TakePermit, PrepareRestart(REQUEST), CallCommit(0, REQUEST, true)]
  const PREPARED: Gate := Gate(Some(REQUEST), 1, false, false, 0, false, Running)
  const ONE_WAITS: World := World(PREPARED, [Permit([], true)], map[0 := Call(REQUEST, Asleep)], map[], 0, [])

  lemma {:induction false} RunAppend(c: Config, w: World, s: seq<Step>, t: seq<Step>)
    ensures Run(c, w, s + t) == Run(c, Run(c, w, s), t)
    decreases |s|
  {
    hide Next;
    if s == [] {
      assert s + t == t;
    } else {
      assert (s + t)[1..] == s[1..] + t;
      RunAppend(c, Next(c, w, s[0]), s[1..], t);
    }
  }

  lemma RunCons(c: Config, w: World, s: Step, steps: seq<Step>)
    ensures Run(c, w, [s] + steps) == Run(c, Next(c, w, s), steps)
  {
    hide Next;
    assert ([s] + steps)[1..] == steps;
  }

  lemma RunFour(c: Config, w: World, s: Step, t: Step, u: Step, v: Step)
    ensures Run(c, w, [s, t, u, v]) == Next(c, Next(c, Next(c, Next(c, w, s), t), u), v)
  {
    hide Next;
    var a := Next(c, w, s);
    var b := Next(c, a, t);
    var d := Next(c, b, u);
    RunCons(c, w, s, [t, u, v]);
    RunCons(c, a, t, [u, v]);
    RunCons(c, b, u, [v]);
    RunCons(c, d, v, []);
    assert [s] + [t, u, v] == [s, t, u, v] && [t] + [u, v] == [t, u, v] && [u] + [v] == [u, v] && [v] + [] == [v];
  }

  lemma PrefixWaits()
    ensures Run(SUPERVISED, BEGIN, PREFIX) == ONE_WAITS
  {
    RequestIsValid();
    hide ValidId;
    var c := SUPERVISED;
    var a := World(Gate(None, 1, true, false, 0, false, Running), [Permit([], true)], map[], map[], 0, []);
    assert Next(c, BEGIN, TakePermit) == a;
    assert Next(c, a, PrepareRestart(REQUEST)) == a.(gate := PREPARED);
    assert Next(c, a.(gate := PREPARED), CallCommit(0, REQUEST, true)) == ONE_WAITS;
    RunCons(c, BEGIN, TakePermit, [PrepareRestart(REQUEST), CallCommit(0, REQUEST, true)]);
    RunCons(c, a, PrepareRestart(REQUEST), [CallCommit(0, REQUEST, true)]);
    RunCons(c, a.(gate := PREPARED), CallCommit(0, REQUEST, true), []);
    assert PREFIX == [TakePermit] + [PrepareRestart(REQUEST), CallCommit(0, REQUEST, true)];
    assert [PrepareRestart(REQUEST)] + [CallCommit(0, REQUEST, true)]
          == [PrepareRestart(REQUEST), CallCommit(0, REQUEST, true)];
    assert [CallCommit(0, REQUEST, true)] + [] == [CallCommit(0, REQUEST, true)];
  }

  /** The last root goes and every waiting call is woken. */
  lemma LastDrop(w: World)
    requires w.gate == PREPARED && w.permits == [Permit([], true)]
    ensures Next(SUPERVISED, w, DropPermit(0))
         == w.(gate := PREPARED.(permits := 0, drained := true), permits := [Permit([], false)],
               calls := WakeCalls(w.calls))
  {
    assert w.permits[0 := Permit([], false)] == [Permit([], false)];
  }

  lemma ResumeWrites(w: World, t: nat)
    requires t in w.calls && w.calls[t] == Call(REQUEST, Woken)
    ensures Next(SUPERVISED, w, ResumeCommit(t, true))
         == w.(gate := w.gate.(committed := true), calls := w.calls - {t},
               frames := w.frames + [Frame(REQUEST, Live(w.permits))])
  {}

  lemma AbortReopens(w: World)
    requires w.gate == PREPARED.(permits := 0, drained := true) && w.aborts == 0
    ensures AbortIn(w, REQUEST) == w.(gate := Gate(None, 0, true, true, 1, false, Running), aborts := 1)
    ensures Next(SUPERVISED, w, AbortRequest(REQUEST)) == AbortIn(w, REQUEST)
    ensures 1 in w.calls && w.calls[1] == Call(REQUEST, Woken) ==>
              Next(SUPERVISED, w, FailCommit(1)) == AbortIn(w.(calls := w.calls - {1}), REQUEST)
  {}

  lemma Readmits(w: World)
    requires w.gate == Gate(None, 0, true, true, 1, false, Running) && w.permits == [Permit([], false)]
    ensures Next(SUPERVISED, w, TakePermit)
              == w.(gate := Count(w.gate), permits := [Permit([], false), Permit([], true)])
  {
    assert w.permits + [Permit([], true)] == [Permit([], false), Permit([], true)];
  }

  lemma OneIsLive()
    ensures Live([Permit([], false), Permit([], true)]) == 1
  {
    assert [] + [Permit([], false)] == [Permit([], false)];
    assert [Permit([], false)] + [Permit([], true)] == [Permit([], false), Permit([], true)];
    LiveSnoc([], Permit([], false));
    LiveSnoc([Permit([], false)], Permit([], true));
  }

  /** A second call for the same request waits beside the first. */
  lemma SecondWaits()
    ensures Next(SUPERVISED, ONE_WAITS, CallCommit(1, REQUEST, true))
         == ONE_WAITS.(calls := ONE_WAITS.calls[1 := Call(REQUEST, Asleep)])
  {}

  /** Without the discipline on aborts the frame can be written while a root is live: the request is aborted
      between the wakeup and the resumption, and a new root is admitted. */
  lemma AbortedCommitStillWrites()
    ensures Run(SUPERVISED, BEGIN,
                PREFIX + [DropPermit(0), AbortRequest(REQUEST), TakePermit, ResumeCommit(0, true)]).frames
         == [Frame(REQUEST, 1)]
  {
    hide Run, ValidId, Live, Next, AbortIn;
    var c, w := SUPERVISED, ONE_WAITS;
    PrefixWaits();
    RunAppend(c, BEGIN, PREFIX, [DropPermit(0), AbortRequest(REQUEST), TakePermit, ResumeCommit(0, true)]);
    RunFour(c, w, DropPermit(0), AbortRequest(REQUEST), TakePermit, ResumeCommit(0, true));
    LastDrop(w);
    AbortReopens(Next(c, w, DropPermit(0)));
    var a := Next(c, Next(c, w, DropPermit(0)), AbortRequest(REQUEST));
    Readmits(a);
    OneIsLive();
    ResumeWrites(Next(c, a, TakePermit), 0);
  }

  /** Nor is it enough that nobody else aborts: of two overlapping commits one fails after the drain and so reopens the
      gate, a new root is admitted, and the other one writes over it. */
  lemma OverlappingCommitStillWrites()
    ensures Run(SUPERVISED, BEGIN,
                PREFIX + ([CallCommit(1, REQUEST, true)]
                          + [DropPermit(0), FailCommit(1), TakePermit, ResumeCommit(0, true)])).frames
         == [Frame(REQUEST, 1)]
  {
    hide Run, ValidId, Live, Next, AbortIn;
    var c := SUPERVISED;
    var rest := [DropPermit(0), FailCommit(1), TakePermit, ResumeCommit(0, true)];
    PrefixWaits();
    RunAppend(c, BEGIN, PREFIX, [CallCommit(1, REQUEST, true)] + rest);
    RunCons(c, ONE_WAITS, CallCommit(1, REQUEST, true), rest);
    SecondWaits();
    var w := Next(c, ONE_WAITS, CallCommit(1, REQUEST, true));
    RunFour(c, w, DropPermit(0), FailCommit(1), TakePermit, ResumeCommit(0, true));
    LastDrop(w);
    var b := Next(c, w, DropPermit(0));
    AbortReopens(b);
    AbortReopens(b.(calls := b.calls - {1}));
    var a := Next(c, b, FailCommit(1));
    Readmits(a);
    OneIsLive();
    ResumeWrites(Next(c, a, TakePermit), 0);
  }

  /** Without the discipline on overlap one request can put two frames on the pipe. */
  lemma OverlappingCommitsWriteTwice()
    ensures var w := Run(SUPERVISED, BEGIN,
                         PREFIX + [CallCommit(1, REQUEST, true), DropPermit(0), ResumeCommit(0, true),
                                   ResumeCommit(1, true)]);
            |w.frames| == 2 && w.aborts == 0
  {
    hide Run, ValidId, Live, Next;
    var c := SUPERVISED;
    PrefixWaits();
    RunAppend(c, BEGIN, PREFIX,
              [CallCommit(1, REQUEST, true), DropPermit(0), ResumeCommit(0, true), ResumeCommit(1, true)]);
    RunFour(c, ONE_WAITS, CallCommit(1, REQUEST, true), DropPermit(0), ResumeCommit(0, true), ResumeCommit(1, true));
    SecondWaits();
    var a := Next(c, ONE_WAITS, CallCommit(1, REQUEST, true));
    LastDrop(a);
    var b := Next(c, a, DropPermit(0));
    ResumeWrites(b, 0);
    ResumeWrites(Next(c, b, ResumeCommit(0, true)), 1);
  }
}
