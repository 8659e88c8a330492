/** How long the web shell keeps relaying a WebSocket whose authorisation it rechecks: the loop, the exact rounds in
    which it closes, and the bound on relaying without a confirmation. Seconds are real numbers. */
module Relay {
  import opened Text

  const RECHECK_SECONDS: real := 5.0
  const GRACE_SECONDS: real := 30.0

  /** What asking for admission again comes to: an endpoint, a response of the guard, no route, or an unreadable
      plan. */
  datatype Admission = Routed | Answered(status: int) | NoRoute | Unreadable

  datatype Outcome = Admitted | Denied | Unavailable

  function Recheck(admission: Admission): Outcome {
    match admission
    case Unreadable => Unavailable
    case Routed => Admitted
    case Answered(status) => if status >= 500 then Unavailable else Denied
    case NoRoute => Denied
  }

  /** One recheck: its result, the clock when it was over, and whether the browser is still connected then. */
  datatype Round = Round(admission: Admission, at: real, connected: bool)

  /** The relay ended by itself, perhaps with an exception; or it was cancelled, and the browser was told the code if it
      was still there. */
  datatype End = Finished(raised: bool) | Closed(code: int, round: nat, told: bool)

  // ----- When the loop closes -----

  /** The guard cannot answer: the plan is unreadable, or the response is a server error. */
  predicate Fails(rounds: seq<Round>, k: int) {
    && 0 <= k < |rounds|
    && var a := rounds[k].admission; a.Unreadable? || (a.Answered? && a.status >= 500)
  }

  /** The authorisation is gone: the route was withdrawn, or the guard gives any other answer. */
  predicate Denies(rounds: seq<Round>, k: int) {
    && 0 <= k < |rounds|
    && var a := rounds[k].admission; a.NoRoute? || (a.Answered? && a.status < 500)
  }

  /** Every recheck from `s` to `k` failed. */
  predicate Outage(rounds: seq<Round>, s: nat, k: nat) {
    s <= k < |rounds| && forall j :: s <= j <= k ==> Fails(rounds, j)
  }

  /** The failures up to round `k` span the grace. */
  predicate GraceOver(rounds: seq<Round>, k: nat) {
    exists s :: 0 <= s <= k && Outage(rounds, s, k) && rounds[k].at - rounds[s].at >= GRACE_SECONDS
  }

  ghost predicate Monotonic(rounds: seq<Round>) {
    forall i, j :: 0 <= i <= j < |rounds| ==> rounds[i].at <= rounds[j].at
  }

  /** The loop is over at round `k`. */
  predicate Over(rounds: seq<Round>, k: nat) {
    Denies(rounds, k) || GraceOver(rounds, k)
  }

  predicate Reaches(rounds: seq<Round>, k: nat) {
    forall j :: 0 <= j < k ==> !Over(rounds, j)
  }

  /** How the loop has to end: at the first denial with 1008, at the first failure that completes the grace with 1013,
      and with the relay if there is neither. */
  predicate EndsAs(rounds: seq<Round>, relayRaises: bool, end: End) {
    match end
    case Finished(raised) => Reaches(rounds, |rounds|) && raised == relayRaises
    case Closed(code, k, told) =>
      && k < |rounds| && Reaches(rounds, k) && told == rounds[k].connected
      && ((code == 1008 && Denies(rounds, k)) || (code == 1013 && GraceOver(rounds, k)))
  }

  /** There is one way to end, so the loop closes exactly when it has to. */
  lemma EndIsUnique(rounds: seq<Round>, relayRaises: bool, end: End, other: End)
    requires EndsAs(rounds, relayRaises, end) && EndsAs(rounds, relayRaises, other)
    ensures end == other
  {
    hide GraceOver;
    forall k: nat | GraceOver(rounds, k) ensures k < |rounds| && !Denies(rounds, k) {
      GraceNeedsFailure(rounds, k);
    }
    if end.Closed? { assert Over(rounds, end.round); }
    if other.Closed? { assert Over(rounds, other.round); }
  }

  lemma GraceNeedsFailure(rounds: seq<Round>, k: nat)
    requires GraceOver(rounds, k)
    ensures Fails(rounds, k)
  {}

  /** What a round that is reached means: an answer that is no server error, and a withdrawn route, end the loop there
      with 1008; a server error or an unreadable plan after any other round does not. */
  lemma AnswersDecide(rounds: seq<Round>, relayRaises: bool, end: End, k: nat)
    requires EndsAs(rounds, relayRaises, end) && k < |rounds| && Reaches(rounds, k)
    ensures var a := rounds[k].admission;
            && (a.NoRoute? || (a.Answered? && a.status < 500) <==> end == Closed(1008, k, rounds[k].connected))
            && (a.Routed? ==> !(end.Closed? && end.round == k))
            && (!Fails(rounds, k - 1) && (a.Unreadable? || (a.Answered? && a.status >= 500)) ==>
                  !(end.Closed? && end.round == k))
  {
    hide GraceOver;
    if GraceOver(rounds, k) {
      GraceNeedsFailure(rounds, k);
    }
    if !Fails(rounds, k - 1) {
      OneFailureNeverCloses(rounds, k);
    }
    if end.Closed? && end.code == 1013 {
      GraceNeedsFailure(rounds, end.round);
    }
    if Denies(rounds, k) {
      EndIsUnique(rounds, relayRaises, end, Closed(1008, k, rounds[k].connected));
    }
  }

  /** Relays until the relay itself ends, which it does after the last of the given rounds. */
  method RelayWhileAdmitted(rounds: seq<Round>, relayRaises: bool) returns (end: End)
    requires Monotonic(rounds)
    ensures EndsAs(rounds, relayRaises, end)
  {
    var unavailableSince: Option<real> := None;
    var k := 0;
    ghost var s := 0;
    while k < |rounds|
      invariant k <= |rounds| && Reaches(rounds, k)
      invariant unavailableSince.None? <==> s == k
      invariant s <= k && (s == 0 || !Fails(rounds, s - 1))
      invariant s < k ==> Outage(rounds, s, k - 1) && unavailableSince == Some(rounds[s].at)
    {
      var outcome := Recheck(rounds[k].admission);
      LongestOutage(rounds, s, k);
      if outcome == Admitted {
        unavailableSince := None;
        k := k + 1;
        s := k;
        continue;
      }
      if outcome == Denied {
        return Closed(1008, k, rounds[k].connected);
      }
      var now := rounds[k].at;
      if unavailableSince.None? {
        unavailableSince := Some(now);
      }
      if now - unavailableSince.value >= GRACE_SECONDS {
        return Closed(1013, k, rounds[k].connected);
      }
      k := k + 1;
    }
    return Finished(relayRaises);
  }

  /** The grace is over exactly if the whole outage up to now spans it. */
  lemma LongestOutage(rounds: seq<Round>, s: nat, k: nat)
    requires Monotonic(rounds) && s <= k < |rounds| && (s == 0 || !Fails(rounds, s - 1))
    requires s < k ==> Outage(rounds, s, k - 1)
    ensures GraceOver(rounds, k) <==> Fails(rounds, k) && rounds[k].at - rounds[s].at >= GRACE_SECONDS
  {
    if GraceOver(rounds, k) {
      var t :| 0 <= t <= k && Outage(rounds, t, k) && rounds[k].at - rounds[t].at >= GRACE_SECONDS;
      assert t >= s;
    }
    if Fails(rounds, k) {
      assert Outage(rounds, s, k);
    }
  }

  // ----- Bounds -----

  /** A wait takes at most five seconds and a recheck at most `slowest`, from the admission at `start` on. */
  ghost predicate Paced(rounds: seq<Round>, start: real, slowest: real) {
    && Monotonic(rounds)
    && (rounds != [] ==> start <= rounds[0].at <= start + RECHECK_SECONDS + slowest)
    && forall j :: 0 <= j < |rounds| - 1 ==> rounds[j + 1].at <= rounds[j].at + RECHECK_SECONDS + slowest
  }

  /** When the authorisation was last confirmed before round `k` was over. */
  function LastConfirmed(rounds: seq<Round>, start: real, k: nat): real
    requires k <= |rounds|
  {
    if k == 0 then start
    else if rounds[k - 1].admission.Routed? then rounds[k - 1].at
    else LastConfirmed(rounds, start, k - 1)
  }

  /** A single failure between other answers closes nothing. */
  lemma OneFailureNeverCloses(rounds: seq<Round>, k: nat)
    requires k < |rounds| && !Fails(rounds, k - 1)
    ensures !GraceOver(rounds, k)
  {}

  /** Where the outage that reaches round `k` began, and that the confirmation before it is the last one. */
  lemma {:induction false} OutageStart(rounds: seq<Round>, start: real, slowest: real, k: nat) returns (s: nat)
    requires Paced(rounds, start, slowest) && Fails(rounds, k) && Reaches(rounds, k)
    ensures Outage(rounds, s, k) && (s == 0 || !Fails(rounds, s - 1))
    ensures rounds[s].at <= LastConfirmed(rounds, start, k) + RECHECK_SECONDS + slowest
  {
    if k > 0 && Fails(rounds, k - 1) {
      s := OutageStart(rounds, start, slowest, k - 1);
    } else {
      s := k;
      assert k > 0 ==> !Over(rounds, k - 1);
    }
  }

  /** When a round is over that the loop still waited for, the first failure is less than 35 seconds and one recheck
      ago, the last confirmation less than 40 seconds and two rechecks, whatever the outcomes. */
  lemma UnconfirmedIsBounded(rounds: seq<Round>, start: real, slowest: real, k: nat)
    requires slowest >= 0.0 && Paced(rounds, start, slowest) && k < |rounds| && Reaches(rounds, k)
    ensures rounds[k].at < LastConfirmed(rounds, start, k) + 40.0 + 2.0 * slowest
    ensures forall s :: 0 <= s <= k && Outage(rounds, s, k) ==> rounds[k].at < rounds[s].at + 35.0 + slowest
  {
    forall s | 0 <= s <= k && Outage(rounds, s, k) ensures rounds[k].at < rounds[s].at + 35.0 + slowest {
      if s < k {
        assert !Over(rounds, k - 1) && Outage(rounds, s, k - 1);
      }
    }
    if Fails(rounds, k) {
      var s := OutageStart(rounds, start, slowest, k);
    } else {
      BeforeAnswer(rounds, start, slowest, k);
    }
  }

  lemma BeforeAnswer(rounds: seq<Round>, start: real, slowest: real, k: nat)
    requires slowest >= 0.0 && Paced(rounds, start, slowest) && k < |rounds| && Reaches(rounds, k)
    ensures rounds[k].at < LastConfirmed(rounds, start, k) + 40.0 + 2.0 * slowest
  {
    if k > 0 {
      assert !Over(rounds, k - 1) && Reaches(rounds, k - 1);
      if Fails(rounds, k - 1) {
        var s := OutageStart(rounds, start, slowest, k - 1);
        assert Outage(rounds, s, k - 1);
      }
    }
  }

  /** A guard that stays unavailable is not relayed for ever: the round that completes the grace ends the loop. */
  lemma OutageIsClosed(rounds: seq<Round>, s: nat, k: nat)
    requires Monotonic(rounds) && Outage(rounds, s, k) && rounds[k].at - rounds[s].at >= GRACE_SECONDS
    ensures !Reaches(rounds, k + 1)
  {
    assert Over(rounds, k);
  }

  function Tick(from: real, step: real, i: nat): real {
    if i == 0 then from else Tick(from, step, i - 1) + step
  }

  lemma {:induction false} TicksGrow(from: real, step: real, i: nat, j: nat)
    requires i <= j && step >= 0.0
    ensures Tick(from, step, i) <= Tick(from, step, j)
  {
    if i < j { TicksGrow(from, step, i, j - 1); }
  }

  lemma SixTicks(from: real, step: real)
    ensures Tick(from, step, 6) == from + 6.0 * step
  {
    assert Tick(from, step, 1) == from + step;
    assert Tick(from, step, 3) == from + 3.0 * step;
    assert Tick(from, step, 5) == from + 5.0 * step;
  }

  /** Nothing less bounds the relaying: for any recheck time, runs come as close to that bound as one likes. With the
      guard's ten seconds a socket can outlive its last confirmation by almost sixty. */
  lemma BoundIsSharp(slowest: real, margin: real) returns (rounds: seq<Round>)
    requires slowest >= 0.0 && 0.0 < margin <= 5.0
    ensures |rounds| == 8 && Paced(rounds, 0.0, slowest) && Reaches(rounds, 7) && GraceOver(rounds, 7)
    ensures LastConfirmed(rounds, 0.0, 7) == 0.0 && rounds[7].at == 40.0 + 2.0 * slowest - margin
  {
    hide Tick;
    var from, step := 5.0 + slowest, 5.0 - margin / 6.0;
    assert 6.0 * step == 30.0 - margin && 0.0 <= step <= 5.0;
    var last := 40.0 + 2.0 * slowest - margin;
    rounds := seq(8, i requires 0 <= i < 8 => Round(Unreadable, if i < 7 then Tick(from, step, i) else last, true));
    SixTicks(from, step);
    assert Tick(from, step, 0) == from by { FirstTick(from, step); }
    forall i, j | 0 <= i <= j < 8 ensures rounds[i].at <= rounds[j].at {
      if i < 7 { TicksGrow(from, step, i, if j < 7 then j else 6); }
    }
    forall j | 0 <= j < 7 ensures rounds[j + 1].at <= rounds[j].at + RECHECK_SECONDS + slowest {
      NextTick(from, step, j);
    }
    forall j: nat | j < 8 ensures Fails(rounds, j) {}
    forall j: nat | j < 7 ensures !Over(rounds, j) {
      assert rounds[6].at - rounds[0].at < GRACE_SECONDS;
    }
    assert Outage(rounds, 0, 7);
    Unconfirmed(rounds, 7);
  }

  lemma FirstTick(from: real, step: real)
    ensures Tick(from, step, 0) == from
  {}

  lemma NextTick(from: real, step: real, i: nat)
    ensures Tick(from, step, i + 1) == Tick(from, step, i) + step
  {}

  lemma {:induction false} Unconfirmed(rounds: seq<Round>, k: nat)
    requires k <= |rounds| && forall j :: 0 <= j < k ==> Fails(rounds, j)
    ensures LastConfirmed(rounds, 0.0, k) == 0.0
  {
    if k > 0 {
      assert Fails(rounds, k - 1);
      Unconfirmed(rounds, k - 1);
    }
  }
}
