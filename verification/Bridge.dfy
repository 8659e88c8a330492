/** The bridge that hands numbered settings reloads from the web threads to the supervisor. A step is one stretch
    inside its lock. */
module BridgeRules {
  import opened Text

  type Capacity = n: int | 0 < n witness 1

  /** Bytes the wake pipe holds before a write would block: whatever the platform gives it. */
  const PIPE_CAPACITY: Capacity

  /** `wake` counts the unread bytes of the wake pipe. */
  datatype Bridge = Bridge(next: nat, requested: nat, flag: bool, wake: nat, completed: map<nat, bool>)

  const IDLE: Bridge := Bridge(0, 0, false, 0, map[])

  /** The locked part of a request before it waits; a full pipe makes the wake write raise after the flag is set. */
  function Request(b: Bridge): (Bridge, bool) {
    var c := b.(next := b.next + 1, requested := b.next + 1, flag := true);
    if b.wake >= PIPE_CAPACITY then (c, false) else (c.(wake := b.wake + 1), true)
  }

  /** `take_request`: zero when nothing is requested. */
  function Take(b: Bridge): (Bridge, nat) {
    if !b.flag then (b, 0) else (b.(flag := false, wake := 0), b.requested)
  }

  function Complete(b: Bridge, gen: nat, ok: bool): Bridge {
    b.(completed := b.completed[gen := ok])
  }

  /** The waiter's pop of its own completion. */
  function Collect(b: Bridge, gen: nat): Bridge {
    b.(completed := b.completed - {gen})
  }

  /** `n` requests from other threads. */
  function Arrive(b: Bridge, n: nat): Bridge
    decreases n
  {
    if n == 0 then b else Arrive(Request(b).0, n - 1)
  }

  /** The flag and the wake pipe agree, so the selector sees every request. */
  predicate Alert(b: Bridge) {
    && (b.flag <==> b.wake > 0)
    && b.requested == b.next
    && (b.flag ==> b.next > 0)
  }

  lemma {:induction false} ArriveAlert(b: Bridge, n: nat)
    requires Alert(b)
    ensures var c := Arrive(b, n);
            Alert(c) && c.next == b.next + n && c.completed == b.completed && (c.flag <==> b.flag || n > 0)
    decreases n
  {
    if n > 0 { ArriveAlert(Request(b).0, n - 1); }
  }
}

/** Every interleaving of waiters and supervisor on one bridge. */
module BridgeRuns {
  import opened Text
  import opened BridgeRules

  datatype Waiter = Waiting | Succeeded | Refused | TimedOut | Blocked

  datatype Verdict = Verdict(gen: nat, ok: bool)

  datatype World = World(bridge: Bridge, waiters: map<nat, Waiter>, takes: seq<nat>, verdicts: seq<Verdict>)

  const BEGIN: World := World(IDLE, map[], [], [])

  datatype Step = Ask | TakeOne | Settle(gen: nat, ok: bool) | Resume(gen: nat) | GiveUp(gen: nat)

  function Next(w: World, s: Step): World {
    match s
    case Ask =>
      var (b, written) := Request(w.bridge);
      w.(bridge := b, waiters := w.waiters[b.next := if written then Waiting else Blocked])
    case TakeOne =>
      var (b, gen) := Take(w.bridge);
      w.(bridge := b, takes := if gen == 0 then w.takes else w.takes + [gen])
    case Settle(gen, ok) => w.(bridge := Complete(w.bridge, gen, ok), verdicts := w.verdicts + [Verdict(gen, ok)])
    case Resume(gen) =>
      if gen !in w.waiters || !w.waiters[gen].Waiting? || gen !in w.bridge.completed then w
      else w.(bridge := Collect(w.bridge, gen),
              waiters := w.waiters[gen := if w.bridge.completed[gen] then Succeeded else Refused])
    case GiveUp(gen) =>
      if gen !in w.waiters || !w.waiters[gen].Waiting? || gen in w.bridge.completed then w
      else w.(waiters := w.waiters[gen := TimedOut])
  }

  function Run(w: World, steps: seq<Step>): World
    decreases |steps|
  {
    if steps == [] then w else Run(Next(w, steps[0]), steps[1..])
  }

  /** The last verdict on a generation. */
  function LastVerdict(verdicts: seq<Verdict>, gen: nat): Option<bool>
    decreases |verdicts|
  {
    if verdicts == [] then None
    else
      var v := verdicts[|verdicts| - 1];
      if v.gen == gen then Some(v.ok) else LastVerdict(verdicts[..|verdicts| - 1], gen)
  }

  /** Its waiter has not taken a verdict on this generation. */
  predicate Untold(w: World, gen: nat) {
    gen !in w.waiters || !(w.waiters[gen].Succeeded? || w.waiters[gen].Refused?)
  }

  /** A verdict that was not taken is kept. */
  ghost predicate Keeps(w: World) {
    forall g :: Untold(w, g) && LastVerdict(w.verdicts, g).Some? ==>
      g in w.bridge.completed && w.bridge.completed[g] == LastVerdict(w.verdicts, g).value
  }

  predicate Sound(w: World) {
    && Alert(w.bridge)
    && (forall g :: g in w.waiters ==> 0 < g <= w.bridge.next)
    && (forall i, j :: 0 <= i < j < |w.takes| ==> w.takes[i] < w.takes[j])
    && (forall i :: 0 <= i < |w.takes| ==>
         0 < w.takes[i] <= w.bridge.next && (w.bridge.flag ==> w.takes[i] < w.bridge.next))
    && (!w.bridge.flag ==> if w.takes == [] then w.bridge.next == 0 else w.takes[|w.takes| - 1] == w.bridge.next)
    && (forall g :: g in w.bridge.completed ==> Verdict(g, w.bridge.completed[g]) in w.verdicts)
    && (forall g :: g in w.waiters && w.waiters[g].Succeeded? ==> Verdict(g, true) in w.verdicts)
    && (forall g :: g in w.waiters && w.waiters[g].Refused? ==> Verdict(g, false) in w.verdicts)
  }

  lemma NextSound(w: World, s: Step)
    requires Sound(w)
    ensures Sound(Next(w, s))
  {
    if s.Settle? {
      var v := w.verdicts + [Verdict(s.gen, s.ok)];
      assert v[|w.verdicts|] == Verdict(s.gen, s.ok);
      assert forall x :: x in w.verdicts ==> x in v;
    }
  }

  /** In every interleaving the selector sees a wakeup exactly while a request is pending, the takes strictly
      increase, the newest request is pending or was the last one taken, and a waiter succeeds or is refused only
      by a completion of its own generation that said so. */
  lemma {:induction false} RunsAreSound(w: World, steps: seq<Step>)
    requires Sound(w)
    ensures Sound(Run(w, steps))
    decreases |steps|
  {
    if steps != [] {
      NextSound(w, steps[0]);
      RunsAreSound(Next(w, steps[0]), steps[1..]);
    }
  }

  lemma VerdictStep(verdicts: seq<Verdict>, v: Verdict, gen: nat)
    ensures LastVerdict(verdicts + [v], gen) == if v.gen == gen then Some(v.ok) else LastVerdict(verdicts, gen)
  {
    assert (verdicts + [v])[..|verdicts|] == verdicts;
  }

  lemma NextKeeps(w: World, s: Step)
    requires Sound(w) && Keeps(w)
    ensures Keeps(Next(w, s))
  {
    hide LastVerdict;
    var v := Next(w, s);
    forall g | Untold(v, g) && LastVerdict(v.verdicts, g).Some?
      ensures g in v.bridge.completed && v.bridge.completed[g] == LastVerdict(v.verdicts, g).value
    {
      if s.Settle? { VerdictStep(w.verdicts, Verdict(s.gen, s.ok), g); }
      assert Untold(w, g);
    }
  }

  lemma {:induction false} RunsKeep(w: World, steps: seq<Step>)
    requires Sound(w) && Keeps(w)
    ensures Keeps(Run(w, steps))
    decreases |steps|
  {
    hide Next, Keeps, Sound;
    if steps != [] {
      NextSound(w, steps[0]);
      NextKeeps(w, steps[0]);
      RunsKeep(Next(w, steps[0]), steps[1..]);
    }
  }

  /** A waiter on whose generation something was settled resumes with the last verdict and takes it away, even if its
      time is up; one without a verdict times out. */
  lemma VerdictsReachWaiters(steps: seq<Step>, gen: nat)
    ensures var w := Run(BEGIN, steps);
            gen in w.waiters && w.waiters[gen].Waiting? ==>
              var verdict, v := LastVerdict(w.verdicts, gen), Next(w, Resume(gen));
              if verdict.None? then v == w && Next(w, GiveUp(gen)).waiters[gen] == TimedOut
              else (&& v.waiters[gen] == (if verdict.value then Succeeded else Refused)
                    && gen !in v.bridge.completed && Next(w, GiveUp(gen)) == w)
  {
    hide Run, LastVerdict;
    assert Keeps(BEGIN) by { NothingSettled(); }
    RunsKeep(BEGIN, steps);
    RunsAreSound(BEGIN, steps);
    var w := Run(BEGIN, steps);
    assert Untold(w, gen) || gen in w.waiters;
    if gen in w.bridge.completed { VerdictFound(w.verdicts, Verdict(gen, w.bridge.completed[gen])); }
  }

  lemma {:induction false} VerdictFound(verdicts: seq<Verdict>, v: Verdict)
    requires v in verdicts
    ensures LastVerdict(verdicts, v.gen).Some?
    decreases |verdicts|
  {
    if verdicts[|verdicts| - 1] != v { VerdictFound(verdicts[..|verdicts| - 1], v); }
  }

  /** A request gets the next number and is pending, whether its wake byte is written or the full pipe makes it raise;
      the next take takes it. */
  lemma RequestsAreNeverLost(steps: seq<Step>)
    ensures var w := Run(BEGIN, steps);
            var v, gen := Next(w, Ask), w.bridge.next + 1;
            && gen !in w.waiters
            && v.waiters == w.waiters[gen := if w.bridge.wake < PIPE_CAPACITY then Waiting else Blocked]
            && v.bridge.next == gen && v.bridge.flag && Next(v, TakeOne).takes == v.takes + [gen]
  {
    hide Run;
    RunsAreSound(BEGIN, steps);
  }

  lemma NothingSettled()
    ensures Keeps(BEGIN)
  {}

  /** A take never skips to anything but the newest request. */
  lemma TakesTheNewest(steps: seq<Step>)
    ensures var w := Run(BEGIN, steps);
            w.bridge.wake > 0 ==>
              var v := Next(w, TakeOne);
              && v.takes == w.takes + [w.bridge.next]
              && v.bridge.wake == 0 && !v.bridge.flag
              && forall i :: 0 <= i < |w.takes| ==> w.takes[i] < w.bridge.next
  {
    RunsAreSound(BEGIN, steps);
  }
}

/** The bridge as the object it is. */
module BridgeState {
  import opened Text
  import opened BridgeRules

  const READ_SIZE: nat := 4096

  class SettingsRestartBridge {
    var nextGeneration: nat
    var requestedGeneration: nat
    var requestEvent: bool
    var wakeBytes: nat
    var completed: map<nat, bool>

    function Now(): Bridge
      reads this
    {
      Bridge(nextGeneration, requestedGeneration, requestEvent, wakeBytes, completed)
    }

    constructor ()
      ensures Now() == IDLE
    {
      nextGeneration, requestedGeneration, requestEvent, wakeBytes, completed := 0, 0, false, 0, map[];
    }

    /** `request_and_wait` up to its wait; nothing comes back when the wake write raises. */
    method RequestReload() returns (generation: Option<nat>)
      modifies this
      ensures Now() == Request(old(Now())).0
      ensures generation == if Request(old(Now())).1 then Some(nextGeneration) else None
    {
      nextGeneration := nextGeneration + 1;
      requestedGeneration := nextGeneration;
      requestEvent := true;
      if wakeBytes >= PIPE_CAPACITY {
        return None;
      }
      wakeBytes := wakeBytes + 1;
      generation := Some(nextGeneration);
    }

    /** `request_and_wait` after its wait; nothing comes back when it timed out. */
    method CollectResult(generation: nat) returns (ok: Option<bool>)
      modifies this
      ensures ok == if generation in old(completed) then Some(old(completed)[generation]) else None
      ensures Now() == if ok.Some? then Collect(old(Now()), generation) else old(Now())
    {
      if generation !in completed {
        return None;
      }
      ok := Some(completed[generation]);
      completed := completed - {generation};
    }

    method TakeRequest() returns (generation: nat)
      modifies this
      ensures (Now(), generation) == Take(old(Now()))
    {
      if !requestEvent {
        return 0;
      }
      generation := requestedGeneration;
      requestEvent := false;
      DrainWake();
    }

    /** Reads the wake pipe until it would block. */
    method DrainWake()
      modifies this
      ensures Now() == old(Now()).(wake := 0)
    {
      while wakeBytes > 0
        invariant Now() == old(Now()).(wake := wakeBytes)
      {
        wakeBytes := if wakeBytes < READ_SIZE then 0 else wakeBytes - READ_SIZE;
      }
    }

    method CompleteRequest(generation: nat, success: bool)
      modifies this
      ensures Now() == Complete(old(Now()), generation, success)
    {
      completed := completed[generation := success];
    }
  }
}
