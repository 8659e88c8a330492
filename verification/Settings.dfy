/** What becomes of every settings reload the supervisor takes, over whole runs of boots. */
module Settings {
  import opened Text
  import opened Lifecycle
  import opened BridgeRules
  import opened Supervisor
  import opened Handshake

  // ----- The ledger of generations -----

  /** A generation is taken once, later takes are larger, and only the newest generation taken is settled. */
  predicate Orderly(log: seq<Entry>, newest: nat) {
    && (forall i :: 0 <= i < |log| ==> 0 < log[i].gen <= newest)
    && (forall i, j :: 0 <= i < j < |log| && log[i].Took? && log[j].Took? ==> log[i].gen < log[j].gen)
    && (forall j :: 0 <= j < |log| && log[j].Settled? ==> Took(log[j].gen) in log[..j])
    && (forall i, j :: 0 <= i < j < |log| && log[j].Settled? ==> log[i].gen <= log[j].gen)
  }

  /** Every taken generation is settled, superseded by a later take, or the one still open. */
  predicate Accounted(log: seq<Entry>, open: nat) {
    forall i :: 0 <= i < |log| && log[i].Took? && log[i].gen != open ==> Closed(log, i)
  }

  predicate Closed(log: seq<Entry>, i: nat)
    requires i < |log|
  {
    exists j :: i < j < |log| && (log[j].Took? || log[j].gen == log[i].gen)
  }

  predicate Mixed(log: seq<Entry>) {
    exists i, j :: 0 <= i < |log| && 0 <= j < |log| && log[i].Settled? && log[j] == Settled(log[i].gen, !log[i].ok)
  }

  /** The open generation of a boot: an outstanding request, or the reload owed from the boot before. */
  ghost predicate Books(b: Bridge, log: seq<Entry>, gen: nat, report: nat, owedFailed: bool, excused: bool) {
    var open := if gen != 0 then gen else report;
    && Alert(b)
    && Orderly(log, b.next)
    && (b.flag ==> forall i :: 0 <= i < |log| ==> log[i].gen < b.next)
    && (gen == 0 || report == 0)
    && (open != 0 ==> forall i :: 0 <= i < |log| ==> log[i].gen <= open)
    && (open != 0 ==> Took(open) in log && Settled(open, true) !in log)
    && (gen != 0 ==> Settled(gen, false) !in log)
    && (report != 0 ==> (Settled(report, false) in log <==> owedFailed))
    && Accounted(log, open)
    && (Mixed(log) ==> excused)
  }

  // ----- Appending to the ledger -----

  lemma AppendOrderly(log: seq<Entry>, e: Entry, newest: nat, newer: nat)
    requires Orderly(log, newest) && newest <= newer && 0 < e.gen <= newer
    requires e.Settled? ==> Took(e.gen) in log && forall i :: 0 <= i < |log| ==> log[i].gen <= e.gen
    requires e.Took? ==> forall i :: 0 <= i < |log| ==> log[i].gen < e.gen
    ensures Orderly(log + [e], newer)
  {
    var l := log + [e];
    assert l[|log|] == e && l[..|log|] == log;
    assert forall i :: 0 <= i < |log| ==> l[i] == log[i];
    assert forall j :: 0 <= j < |log| ==> l[..j] == log[..j];
  }

  /** A new take supersedes what was open; a settlement closes its generation. */
  lemma AppendAccounted(log: seq<Entry>, e: Entry, open: nat, later: nat)
    requires Accounted(log, open)
    requires later == open || (e.Took? && later == e.gen) || (e.Settled? && e.gen == open)
    requires e.Took? ==> later == e.gen
    ensures Accounted(log + [e], later)
  {
    var l := log + [e];
    assert l[|log|] == e;
    assert forall i :: 0 <= i < |log| ==> l[i] == log[i];
    forall i | 0 <= i < |l| && l[i].Took? && l[i].gen != later ensures Closed(l, i) {
      assert i < |log|;
      if e.Took? || e.gen == l[i].gen {
        assert l[|log|].Took? || l[|log|].gen == l[i].gen;
      } else {
        assert Closed(log, i);
        var j :| i < j < |log| && (log[j].Took? || log[j].gen == log[i].gen);
        assert l[j].Took? || l[j].gen == l[i].gen;
      }
    }
  }

  lemma AppendMixed(log: seq<Entry>, e: Entry)
    requires e.Settled? ==> Settled(e.gen, !e.ok) !in log
    ensures Mixed(log + [e]) ==> Mixed(log)
  {
    var l := log + [e];
    if Mixed(l) {
      var i, j :| 0 <= i < |l| && 0 <= j < |l| && l[i].Settled? && l[j] == Settled(l[i].gen, !l[i].ok);
      assert forall k :: 0 <= k < |log| ==> l[k] == log[k] && log[k] in log;
      assert i < |log| && j < |log|;
    }
  }

  lemma AppendTook(b: Bridge, c: Bridge, log: seq<Entry>, gen: nat, report: nat, f: bool, x: bool)
    requires Books(b, log, gen, report, f, x) && b.flag && (c, b.requested) == Take(b)
    ensures Books(c, log + [Took(b.next)], b.next, 0, f, x)
    ensures Books(c, log + [Took(b.next)], 0, b.next, false, x)
  {
    AppendOrderly(log, Took(b.next), b.next, b.next);
    AppendAccounted(log, Took(b.next), if gen != 0 then gen else report, b.next);
    AppendMixed(log, Took(b.next));
    Unseen(log, b.next);
    hide Orderly, Accounted, Mixed;
  }

  lemma Unseen(log: seq<Entry>, gen: nat)
    requires forall i :: 0 <= i < |log| ==> log[i].gen < gen
    ensures forall ok :: Settled(gen, ok) !in log
  {}

  /** One settlement more, of the generation that is open. */
  lemma AppendSettled(log: seq<Entry>, newest: nat, gen: nat, ok: bool)
    requires Orderly(log, newest) && Took(gen) in log && Accounted(log, gen)
    requires forall i :: 0 <= i < |log| ==> log[i].gen <= gen
    ensures var l := log + [Settled(gen, ok)];
            && Orderly(l, newest) && Accounted(l, gen) && Accounted(l, 0)
            && (Mixed(l) ==> Mixed(log) || Settled(gen, !ok) in log)
  {
    var i :| 0 <= i < |log| && log[i] == Took(gen);
    AppendOrderly(log, Settled(gen, ok), newest, newest);
    AppendAccounted(log, Settled(gen, ok), gen, gen);
    AppendAccounted(log, Settled(gen, ok), gen, 0);
    if Settled(gen, !ok) !in log { AppendMixed(log, Settled(gen, ok)); }
  }

  /** The outstanding request is answered. */
  lemma SettleOutstanding(b: Bridge, log: seq<Entry>, gen: nat, ok: bool, f: bool, x: bool)
    requires gen != 0 && Books(b, log, gen, 0, f, x)
    ensures Books(Complete(b, gen, ok), log + [Settled(gen, ok)], 0, 0, f, x)
  {
    hide Orderly, Accounted, Mixed;
    AppendSettled(log, b.next, gen, ok);
    GensBelow(b, log, Settled(gen, ok), gen);
  }

  lemma GensBelow(b: Bridge, log: seq<Entry>, e: Entry, gen: nat)
    requires Took(gen) in log && e.gen == gen && (b.flag ==> forall i :: 0 <= i < |log| ==> log[i].gen < b.next)
    ensures b.flag ==> forall i :: 0 <= i < |log + [e]| ==> (log + [e])[i].gen < b.next
  {
    var i :| 0 <= i < |log| && log[i] == Took(gen);
  }

  /** The owed reload is confirmed by a ready gateway. */
  lemma Confirm(b: Bridge, log: seq<Entry>, report: nat, f: bool, x: bool)
    requires report != 0 && Books(b, log, 0, report, f, x)
    ensures Books(Complete(b, report, true), log + [Settled(report, true)], 0, 0, f, x || f)
  {
    hide Orderly, Accounted, Mixed;
    AppendSettled(log, b.next, report, true);
    GensBelow(b, log, Settled(report, true), report);
  }

  /** The owed reload fails and stays in hand, or is dropped. */
  lemma FailOwed(b: Bridge, log: seq<Entry>, report: nat, f: bool, x: bool)
    requires report != 0 && Books(b, log, 0, report, f, x)
    ensures Books(Complete(b, report, false), log + [Settled(report, false)], 0, report, true, x)
    ensures Books(Complete(b, report, false), log + [Settled(report, false)], 0, 0, f, x)
  {
    hide Orderly, Accounted, Mixed;
    AppendSettled(log, b.next, report, false);
    GensBelow(b, log, Settled(report, false), report);
  }

  lemma ArriveBooks(b: Bridge, n: nat, log: seq<Entry>, gen: nat, report: nat, f: bool, x: bool)
    requires Books(b, log, gen, report, f, x)
    ensures Books(Arrive(b, n), log, gen, report, f, x)
  {
    hide Arrive, Accounted, Mixed;
    ArriveAlert(b, n);
  }

  // ----- One boot -----

  /** Books of a wait that began with `h`; `f` says that the reload it owes has already been failed once. */
  ghost predicate Keeps(h: Hand, w: Wait, f: bool, x: bool) {
    && Books(w.bridge, w.log, w.gen, w.report, f, x || (f && w.report == 0))
    && (w.report != 0 ==> !w.gateway)
    && (w.gen != 0 ==> w.gateway)
    && h.log <= w.log
    && (w.report == h.report || (w.report == 0 && Settled(h.report, true) in w.log))
  }

  lemma DataKeeps(r: Reader, h: Hand, w: Wait, data: Bytes, f: bool, x: bool)
    requires Keeps(h, w, f, x)
    ensures Keeps(h, OnData(r, w, data), f, x)
  {
    hide Feed, Orderly, Accounted, Mixed, Alert;
    if w.gen != 0 {
      SettleOutstanding(w.bridge, w.log, w.gen, true, f, x || (f && w.report == 0));
      SettleOutstanding(w.bridge, w.log, w.gen, false, f, x || (f && w.report == 0));
    }
    hide Books;
  }

  lemma WakeKeeps(h: Hand, w: Wait, arrivals: nat, signal: Signal, f: bool, x: bool)
    requires Keeps(h, w, f, x) && w.gateway
    ensures Keeps(h, OnWake(w, arrivals, signal), f, x)
  {
    hide Arrive, Orderly, Accounted, Mixed;
    var b := Arrive(w.bridge, arrivals);
    var y := x || (f && w.report == 0);
    ArriveBooks(w.bridge, arrivals, w.log, w.gen, w.report, f, y);
    if b.flag {
      AppendTook(b, Take(b).0, w.log, w.gen, w.report, f, y);
    }
  }

  lemma {:induction false} EventsKeep(r: Reader, h: Hand, w: Wait, events: seq<Event>, f: bool, x: bool)
    requires Keeps(h, w, f, x)
    ensures Keeps(h, OnEvents(r, w, events), f, x)
    decreases |events|
  {
    hide Feed, Books, OnData, OnWake;
    if events != [] {
      match events[0] {
        case GuardianExit =>
        case PipeData(data) => DataKeeps(r, h, w, data, f, x);
        case PipeEnd =>
        case WakePipe(arrivals, signal) => if w.gateway { WakeKeeps(h, w, arrivals, signal, f, x); }
      }
      EventsKeep(r, h, OnEvent(r, w, events[0]), events[1..], f, x);
    }
  }

  lemma ReadyKeeps(h: Hand, w: Wait, pid: PidCheck, f: bool, x: bool)
    requires Keeps(h, w, f, x)
    ensures Keeps(h, OnReady(w, pid), f, x)
  {
    hide Orderly, Accounted, Mixed, Alert;
    if w.report != 0 { Confirm(w.bridge, w.log, w.report, f, x); }
  }

  lemma {:induction false} TurnsKeep(r: Reader, h: Hand, w: Wait, turns: seq<Turn>, f: bool, x: bool)
    requires Keeps(h, w, f, x)
    ensures Keeps(h, Turns(r, w, turns), f, x)
    decreases |turns|
  {
    hide Books, OnEvents, OnReady;
    if turns != [] && w.life.core.status.Healthy? {
      EventsKeep(r, h, w, turns[0].events, f, x);
      ReadyKeeps(h, OnEvents(r, w, turns[0].events), turns[0].pid, f, x);
      TurnsKeep(r, h, OneTurn(r, w, turns[0]), turns[1..], f, x);
    }
  }

  /** A boot that restarts although it has just settled the reload it owed as failed, and hands it on. */
  predicate HandsFailedOn(b: Boot) {
    b.decision == Again(Restart) && b.waited.report != 0
  }

  /** A boot that settled the reload it owed as done. */
  predicate SettlesOwed(b: Boot) {
    b.before.report != 0 && b.waited.report == 0
  }

  lemma LeaveKeeps(r: Reader, h: Hand, w: Wait, pipe: seq<Read>, f: bool, x: bool)
    requires Keeps(h, w, f, x)
    ensures var v := Leave(r, w, pipe);
            && v.report == w.report && v.gen == w.gen && h.log <= v.log
            && (v.report != 0 && !v.life.core.status.Raised? ==> Settled(v.report, false) in v.log)
            && (v.report == h.report || (v.report == 0 && Settled(h.report, true) in v.log))
            && Books(v.bridge, v.log, v.gen, v.report, if v.life.core.status.Raised? then f else f || v.report != 0,
                     x || (f && v.report == 0))
  {
    hide DrainPipe, Orderly, Accounted, Mixed, Alert;
    var t := DrainPipe(r, w, pipe);
    DrainKeeps(r, w, pipe);
    if w.report != 0 {
      FailOwed(w.bridge, w.log, w.report, f, x || (f && w.report == 0));
    }
  }

  lemma DrainKeeps(r: Reader, w: Wait, pipe: seq<Read>)
    ensures var t := DrainPipe(r, w, pipe);
            t.bridge == w.bridge && t.log == w.log && t.report == w.report && t.gen == w.gen
  {
    hide ExitDrain;
  }

  /** Books between two boots: the reload in hand has been failed already exactly when the log says so. */
  ghost predicate Passes(h: Hand, x: bool) {
    Books(h.bridge, h.log, 0, h.report, Owes(h), x)
  }

  predicate Owes(h: Hand) {
    h.report != 0 && Settled(h.report, false) in h.log
  }

  /** What is outstanding becomes what is handed on. */
  lemma HandOn(b: Bridge, log: seq<Entry>, gen: nat, report: nat, f: bool, x: bool)
    requires Books(b, log, gen, report, f, x)
    ensures var h := Hand(b, if gen != 0 then gen else report, log);
            Passes(h, x) && (Owes(h) <==> gen == 0 && report != 0 && f)
  {
    hide Orderly, Accounted, Mixed;
  }

  lemma GiveUpPasses(w: Wait, code: int, arrivals: nat, f: bool, x: bool)
    requires Books(w.bridge, w.log, w.gen, w.report, f, x)
    ensures var (d, h) := GiveUp(w, code, arrivals);
            Passes(h, x) && !Owes(h) && w.log <= h.log && d != Again(Restart)
  {
    hide Orderly, Accounted, Mixed, Arrive;
    var gen := Outstanding(w);
    if gen == 0 {
      return;
    }
    if w.gen != 0 {
      SettleOutstanding(w.bridge, w.log, gen, false, f, x);
    } else {
      FailOwed(w.bridge, w.log, gen, f, x);
    }
    var settled := SettleGen(w, gen, false);
    ArriveBooks(settled.bridge, arrivals, settled.log, 0, 0, f, x);
    var b := Arrive(settled.bridge, arrivals);
    if b.flag {
      AppendTook(b, Take(b).0, settled.log, 0, 0, f, x);
      var l := settled.log + [Took(b.next)];
      HandOn(Take(b).0, l, 0, b.next, false, x);
    }
  }

  /** One boot keeps the books. They become mixed only when a reload that was already failed is confirmed. */
  lemma BootPasses(s: Script, h: Hand, x: bool)
    requires Passes(h, x)
    ensures var b := RunBoot(s, h);
            && Passes(b.after, x || (Owes(h) && SettlesOwed(b)))
            && h.log <= b.after.log
            && (Owes(b.after) ==> HandsFailedOn(b) || !b.decision.Again?)
            && (HandsFailedOn(b) ==> Owes(b.after) && b.after.report == h.report)
            && (SettlesOwed(b) ==> Settled(h.report, true) in b.after.log)
  {
    hide Books, Turns, Leave, Outstanding, GiveUp;
    if s.early {
      return;
    }
    var w := Enter(h);
    EnterKeeps(h, x);
    TurnsKeep(s.reader, h, w, s.turns, Owes(h), x);
    var t := Turns(s.reader, w, s.turns);
    LeaveKeeps(s.reader, h, t, s.pipe, Owes(h), x);
    var v := Leave(s.reader, t, s.pipe);
    var f := if v.life.core.status.Raised? then Owes(h) else Owes(h) || v.report != 0;
    var y := x || (Owes(h) && v.report == 0);
    HandOn(v.bridge, v.log, v.gen, v.report, f, y);
    GiveUpPasses(v, PortableExitCode(s.exitCode), s.rollback, f, y);
    GiveUpPasses(v, SUPERVISOR_FAILURE, s.rollback, f, y);
    assert v.report != 0 ==> v.gen == 0 by { OneOpen(v.bridge, v.log, v.gen, v.report, f, y); }
    assert Outstanding(v) == if v.gen != 0 then v.gen else v.report by { OutstandingIs(v); }
  }

  lemma OneOpen(b: Bridge, log: seq<Entry>, gen: nat, report: nat, f: bool, x: bool)
    requires Books(b, log, gen, report, f, x)
    ensures gen == 0 || report == 0
  {}

  lemma OutstandingIs(w: Wait)
    ensures Outstanding(w) == if w.gen != 0 then w.gen else w.report
  {}

  lemma EnterKeeps(h: Hand, x: bool)
    requires Passes(h, x)
    ensures Keeps(h, Enter(h), Owes(h), x)
  {
    hide Orderly, Accounted, Mixed, Alert;
  }

  // ----- Whole runs -----

  /** A boot that handed on a failed reload was followed by one that confirmed it. */
  ghost predicate Excused(boots: seq<Boot>, n: nat) {
    exists k :: 0 < k < n <= |boots| && FailedThenSettled(boots, k)
  }

  ghost predicate FailedThenSettled(boots: seq<Boot>, k: nat)
    requires 0 < k < |boots|
  {
    HandsFailedOn(boots[k - 1]) && SettlesOwed(boots[k])
  }

  lemma {:induction false} RunPasses(boots: seq<Boot>, n: nat)
    requires Boots(boots) && n <= |boots|
    ensures n < |boots| ==>
              Passes(boots[n].before, Excused(boots, n))
                  && (Owes(boots[n].before) <==> n > 0 && HandsFailedOn(boots[n - 1]))
    ensures n > 0 ==> Passes(boots[n - 1].after, Excused(boots, n))
    decreases n
  {
    hide RunBoot, Passes, Owes;
    if n == 0 {
      if |boots| > 0 {
        assert Follows(boots, 0);
        FirstPasses();
      }
      return;
    }
    RunPasses(boots, n - 1);
    assert Follows(boots, n - 1);
    var b := boots[n - 1];
    BootPasses(b.script, b.before, Excused(boots, n - 1));
    if Excused(boots, n - 1) {
      var k :| 0 < k < n - 1 && FailedThenSettled(boots, k);
      assert 0 < k < n && FailedThenSettled(boots, k);
    }
    if Owes(b.before) && SettlesOwed(b) { assert FailedThenSettled(boots, n - 1); }
    assert Excused(boots, n) <==> Excused(boots, n - 1) || (Owes(b.before) && SettlesOwed(b));
    if n < |boots| { assert Follows(boots, n); }
  }

  lemma FirstPasses()
    ensures Passes(FIRST, false) && !Owes(FIRST)
  {}

  /** Takes strictly increase and only a taken generation is settled; every taken generation is settled, superseded
      by a later take, handed to the next boot, or left open by a supervisor that has returned. */
  lemma EveryReloadIsAccountedFor(boots: seq<Boot>, k: nat)
    requires Boots(boots) && k < |boots|
    ensures Orderly(boots[k].after.log, boots[k].after.bridge.next)
    ensures Accounted(boots[k].after.log, boots[k].after.report)
    ensures k + 1 < |boots| ==> boots[k + 1].before.report == boots[k].after.report
  {
    hide RunBoot, Orderly, Accounted, Mixed, Alert;
    RunPasses(boots, k + 1);
    if k + 1 < |boots| { assert Follows(boots, k + 1); }
  }

  /** The reload a boot owes and a fresh one are never outstanding together when the boot ends. */
  lemma OneOutstanding(boots: seq<Boot>, k: nat)
    requires Boots(boots) && k < |boots|
    ensures boots[k].waited.gen == 0 || boots[k].waited.report == 0
  {
    hide Turns, Leave, Decide, Books;
    RunPasses(boots, k);
    assert Follows(boots, k);
    var s, h := boots[k].script, boots[k].before;
    if !s.early {
      EnterKeeps(h, Excused(boots, k));
      TurnsKeep(s.reader, h, Enter(h), s.turns, Owes(h), Excused(boots, k));
      var t := Turns(s.reader, Enter(h), s.turns);
      LeaveKeeps(s.reader, h, t, s.pipe, Owes(h), Excused(boots, k));
      var v := Leave(s.reader, t, s.pipe);
      var failed := if v.life.core.status.Raised? then Owes(h) else Owes(h) || v.report != 0;
      OneOpen(v.bridge, v.log, v.gen, v.report, failed, Excused(boots, k) || (Owes(h) && v.report == 0));
    }
  }

  lemma {:induction false} LogsGrow(boots: seq<Boot>, k: nat, n: nat)
    requires Boots(boots) && k <= n < |boots|
    ensures boots[k].after.log <= boots[n].after.log
    decreases n
  {
    hide RunBoot, Passes, Owes, HandsFailedOn, SettlesOwed, Excused;
    if k < n {
      LogsGrow(boots, k, n - 1);
      RunPasses(boots, n);
      assert Follows(boots, n);
      BootPasses(boots[n].script, boots[n].before, Excused(boots, n));
      PrefixTransitive(boots[k].after.log, boots[n].before.log, boots[n].after.log);
    }
  }

  lemma PrefixTransitive(a: seq<Entry>, b: seq<Entry>, c: seq<Entry>)
    requires a <= b <= c
    ensures a <= c
  {}

  /** The books become mixed exactly when a boot settles as done what the one before handed on as failed. */
  lemma MixedExactlyAfterHandOn(boots: seq<Boot>, n: nat)
    requires Boots(boots) && n < |boots|
    ensures Mixed(boots[n].after.log) <==> exists k :: 0 < k <= n && FailedThenSettled(boots, k)
  {
    hide RunBoot, Orderly, Accounted, Alert;
    RunPasses(boots, n + 1);
    if Mixed(boots[n].after.log) {
      hide Mixed;
      assert Excused(boots, n + 1);
    }
    if k: nat :| 0 < k <= n && FailedThenSettled(boots, k) {
      hide Passes, Mixed;
      RunPasses(boots, k);
      assert Follows(boots, k) && Follows(boots, k - 1);
      var b := boots[k];
      BootPasses(b.script, b.before, Excused(boots, k));
      LogsGrow(boots, k, n);
      var log, last := b.after.log, boots[n].after.log;
      assert Settled(b.before.report, true) in log && Settled(b.before.report, false) in b.before.log;
      BothMixed(b.before.log, log, last, b.before.report);
    }
  }

  lemma BothMixed(early: seq<Entry>, log: seq<Entry>, last: seq<Entry>, gen: nat)
    requires early <= log <= last && Settled(gen, true) in log && Settled(gen, false) in early
    ensures Mixed(last)
  {
    var i :| 0 <= i < |log| && log[i] == Settled(gen, true);
    var j :| 0 <= j < |early| && early[j] == Settled(gen, false);
    assert last[i] == log[i] && last[j] == early[j];
  }

  // ----- The cause, read off the scripts -----

  /** Some pass of the wait loop ends without an error, with the ready frame seen and its pid of this boot. */
  predicate SeesReady(r: Reader, w: Wait, turns: seq<Turn>)
    decreases |turns|
  {
    && turns != [] && w.life.core.status.Healthy?
    && var v := OneTurn(r, w, turns[0]);
       || (v.life.core.status.Healthy? && v.life.core.ready && turns[0].pid.Ours?)
       || SeesReady(r, v, turns[1..])
  }

  /** The boot owes a reload, exits for a restart with complete evidence and without an error, and its wait loop has
      not seen the ready frame: the exit drain is the first to see it. */
  ghost predicate Late(s: Script, h: Hand) {
    && !s.early && !s.stopped && s.exitCode == RESTART_EXIT_CODE && h.report != 0
    && !Turns(s.reader, Enter(h), s.turns).life.core.ready
    && RunBoot(s, h).waited.life.core.status.Healthy? && Trusted(s.reader, RunBoot(s, h).waited.stream)
  }

  /** The boot owes a reload, and its wait loop sees it ready. */
  predicate Confirmed(s: Script, h: Hand) {
    !s.early && h.report != 0 && SeesReady(s.reader, Enter(h), s.turns)
  }

  ghost predicate LateThenConfirmed(boots: seq<Boot>, k: nat)
    requires 0 < k < |boots|
  {
    Late(boots[k - 1].script, boots[k - 1].before) && Confirmed(boots[k].script, boots[k].before)
  }

  lemma AcceptStaysReady(r: Reader, c: Core, raw: Bytes)
    requires c.ready
    ensures Accept(r, c, raw).ready
  {
    hide Strip, IsAscii, Encodable, Utf8Length, Value.Shown;
  }

  lemma {:induction false} DrainStaysReady(r: Reader, s: State)
    requires s.core.ready
    ensures Drain(r, s).core.ready
    decreases |s.buffer|
  {
    hide Accept, Newline;
    if Newline(s.buffer) < |s.buffer| {
      AcceptStaysReady(r, s.core, s.buffer[..Newline(s.buffer)]);
      DrainStep(r, s);
      hide Drain;
      var (t, stop) := FirstLine(r, s);
      if !stop { DrainStaysReady(r, t); }
    }
  }

  lemma FeedStaysReady(r: Reader, s: State, payload: Bytes, eof: bool)
    requires s.core.ready
    ensures Feed(r, s, payload, eof).core.ready
  {
    hide Drain;
    DrainStaysReady(r, State(s.core, s.buffer + payload));
  }

  lemma {:induction false} EventsReport(r: Reader, w: Wait, events: seq<Event>)
    ensures var v := OnEvents(r, w, events);
            v.report == w.report && v.gateway == w.gateway && (w.life.core.ready ==> v.life.core.ready)
    decreases |events|
  {
    hide Feed, Arrive;
    if events != [] {
      if w.life.core.ready {
        if events[0].PipeData? { FeedStaysReady(r, w.life, events[0].data, false); }
        FeedStaysReady(r, w.life, [], true);
      }
      EventsReport(r, OnEvent(r, w, events[0]), events[1..]);
    }
  }

  /** While a reload is owed and the wait is healthy, the loop has not seen the ready frame. */
  predicate Expects(w: Wait) {
    w.report != 0 ==> !w.gateway && (w.life.core.status.Healthy? ==> !w.life.core.ready)
  }

  lemma TurnReport(r: Reader, w: Wait, turn: Turn)
    requires Expects(w) && w.life.core.status.Healthy?
    ensures var v := OneTurn(r, w, turn);
            && Expects(v) && (w.life.core.ready ==> v.life.core.ready)
            && (v.report == 0 <==>
                  w.report == 0 || (v.life.core.status.Healthy? && v.life.core.ready && turn.pid.Ours?))
            && (v.report == 0 && w.report != 0 ==> v.life.core.ready)
  {
    hide OnEvents;
    EventsReport(r, w, turn.events);
  }

  lemma {:induction false} TurnsReport(r: Reader, w: Wait, turns: seq<Turn>)
    requires Expects(w)
    ensures var v := Turns(r, w, turns);
            && Expects(v) && (w.life.core.ready ==> v.life.core.ready)
            && (w.report != 0 ==> (v.report == 0 <==> SeesReady(r, w, turns)))
            && (w.report == 0 ==> v.report == 0)
            && (v.report == 0 && w.report != 0 ==> v.life.core.ready)
    decreases |turns|
  {
    hide OneTurn, Expects;
    if turns != [] && w.life.core.status.Healthy? {
      var v := OneTurn(r, w, turns[0]);
      TurnReport(r, w, turns[0]);
      TurnsReport(r, v, turns[1..]);
      if w.report != 0 && v.report == 0 { TurnsKeepNoReport(r, v, turns[1..]); }
    }
  }

  lemma {:induction false} TurnsKeepNoReport(r: Reader, w: Wait, turns: seq<Turn>)
    requires w.report == 0
    ensures Turns(r, w, turns).report == 0
    decreases |turns|
  {
    hide OnEvents;
    if turns != [] && w.life.core.status.Healthy? {
      EventsReport(r, w, turns[0].events);
      TurnsKeepNoReport(r, OneTurn(r, w, turns[0]), turns[1..]);
    }
  }

  /** Leaving keeps what is owed, and drains only a healthy wait. */
  lemma LeaveReport(r: Reader, w: Wait, pipe: seq<Read>)
    ensures Leave(r, w, pipe).report == w.report
    ensures Leave(r, w, pipe).life.core.status.Healthy? ==> w.life.core.status.Healthy?
  {
    hide ExitDrain;
  }

  /** Both results of a boot have their cause in what it read. */
  lemma CausesDecide(s: Script, h: Hand)
    ensures HandsFailedOn(RunBoot(s, h)) <==> Late(s, h)
    ensures SettlesOwed(RunBoot(s, h)) <==> Confirmed(s, h)
  {
    hide Turns, Leave, Trusted, SeesReady, Decide;
    RestartExactlyOnEvidence(s, h);
    EarlyIsNoRestart(s, h);
    if !s.early {
      TurnsReport(s.reader, Enter(h), s.turns);
      LeaveReport(s.reader, Turns(s.reader, Enter(h), s.turns), s.pipe);
    }
  }

  lemma EarlyIsNoRestart(s: Script, h: Hand)
    ensures s.early ==> RunBoot(s, h).waited.report == h.report && RunBoot(s, h).decision == Return(0)
    ensures RunBoot(s, h).before == h
  {
    hide Turns, Leave, Decide;
  }

  /** A generation is settled both ways exactly when some boot restarted although its ready frame was first seen by
      the exit drain while it owed a reload, and the next boot was seen ready by its wait loop. */
  lemma MixedExactlyWhenLateThenConfirmed(boots: seq<Boot>, n: nat)
    requires Boots(boots) && n < |boots|
    ensures Mixed(boots[n].after.log) <==>
              exists k :: 0 < k <= n && LateThenConfirmed(boots, k)
  {
    hide RunBoot, Late, Confirmed, HandsFailedOn, SettlesOwed, Mixed;
    MixedExactlyAfterHandOn(boots, n);
    forall k | 0 <= k <= n
      ensures HandsFailedOn(boots[k]) <==> Late(boots[k].script, boots[k].before)
      ensures SettlesOwed(boots[k]) <==> Confirmed(boots[k].script, boots[k].before)
    {
      assert Follows(boots, k);
      CausesDecide(boots[k].script, boots[k].before);
    }
    if Mixed(boots[n].after.log) {
      var k :| 0 < k <= n && FailedThenSettled(boots, k);
      assert LateThenConfirmed(boots, k);
    }
    if k: nat :| 0 < k <= n && LateThenConfirmed(boots, k) {
      assert FailedThenSettled(boots, k);
    }
  }

  // ----- Answers without a generation -----

  /** Every settlement, by an answer or otherwise, goes to the newest generation taken before it, so a reload that a
      later take has superseded is never settled again. */
  lemma SupersededIsNeverSettled(boots: seq<Boot>, n: nat, i: nat, j: nat, m: nat)
    requires Boots(boots) && n < |boots| && i < j < m < |boots[n].after.log|
    requires boots[n].after.log[i].Took? && boots[n].after.log[j].Took? && boots[n].after.log[m].Settled?
    ensures boots[n].after.log[m].gen >= boots[n].after.log[j].gen > boots[n].after.log[i].gen
  {
    hide RunBoot, Accounted, Mixed, Alert;
    RunPasses(boots, n + 1);
  }

  /** Answers carry no generation: when a second request is taken before the answer to the first, the answer is
      credited to the second, and the first, not settled so far, is superseded and so never will be. */
  lemma AnswerIsCreditedToTheNewest(r: Reader, w: Wait, arrivals: nat, data: Bytes, f: bool, x: bool)
    requires Books(w.bridge, w.log, w.gen, w.report, f, x) && w.gateway && w.open && w.gen != 0 && arrivals > 0
    requires w.life.core.status.Healthy? && Feed(r, w.life, data, false).core.status.Healthy?
    requires |Feed(r, w.life, data, false).core.results| == 1
    ensures var v := OnData(r, OnWake(w, arrivals, Sent), data);
            var newest := w.bridge.next + arrivals;
            && newest > w.gen
            && v.log == w.log + [Took(newest), Settled(newest, Feed(r, w.life, data, false).core.results[0].0)]
            && forall ok :: Settled(w.gen, ok) !in v.log
  {
    hide Feed, Arrive, Accounted, Mixed;
    ArriveAlert(w.bridge, arrivals);
    var newest := w.bridge.next + arrivals;
    var t := OnWake(w, arrivals, Sent);
    assert t.gen == newest && t.log == w.log + [Took(newest)];
    var i :| 0 <= i < |w.log| && w.log[i] == Took(w.gen);
    var answer := Feed(r, w.life, data, false).core.results[0].0;
    assert w.log + [Took(newest)] + [Settled(newest, answer)] == w.log + [Took(newest), Settled(newest, answer)];
  }
}
