/** What a wait makes of everything it reads: no byte is lost, no half line is overlooked, every answer becomes one
    settlement, and the bridge tells what the log says. */
module Evidence {
  import opened Text
  import opened Lifecycle
  import opened Grammar
  import opened BridgeRules
  import opened Supervisor
  import opened Handshake
  import opened Settings
  import opened Outcomes

  // ----- Every byte is read -----

  /** What the pipe brings in these events, and whether it ends. */
  function Brings(events: seq<Event>): (Bytes, bool)
    decreases |events|
  {
    if events == [] then ([], false)
    else match events[0]
      case PipeData(data) => (data + Brings(events[1..]).0, Brings(events[1..]).1)
      case PipeEnd => ([], true)
      case _ => Brings(events[1..])
  }

  function Batches(turns: seq<Turn>): seq<Event> {
    if turns == [] then [] else turns[0].events + Batches(turns[1..])
  }

  lemma {:induction false} BringsBoth(a: seq<Event>, b: seq<Event>)
    ensures Brings(a + b) == if Brings(a).1 then Brings(a) else (Brings(a).0 + Brings(b).0, Brings(b).1)
    decreases |a|
  {
    if a == [] {
      assert a + b == b && [] + Brings(b).0 == Brings(b).0;
    } else {
      assert (a + b)[1..] == a[1..] + b;
      BringsBoth(a[1..], b);
      if a[0].PipeData? {
        assert a[0].data + (Brings(a[1..]).0 + Brings(b).0) == a[0].data + Brings(a[1..]).0 + Brings(b).0;
      }
    }
  }

  /** `v` has read from `w` on what these events bring, and a pipe at its end left no half line behind. */
  predicate HasRead(w: Wait, v: Wait, events: seq<Event>) {
    if w.open then v.stream == w.stream + Brings(events).0 && v.open == !Brings(events).1
    else v.stream == w.stream && !v.open
  }

  predicate WholeAtEnd(w: Wait) {
    w.life.core.status.Healthy? && !w.open ==> w.life.buffer == []
  }

  lemma BringsOne(e: Event)
    ensures Brings([e]) == (if e.PipeData? then e.data else [], e.PipeEnd?)
  {
    assert [e][1..] == [];
    assert e.PipeData? ==> e.data + [] == e.data;
  }

  lemma EventWhole(r: Reader, w: Wait, e: Event)
    requires WholeAtEnd(w) && !w.life.core.status.Raised?
    ensures WholeAtEnd(OnEvent(r, w, e))
  {
    hide Arrive, OnData, Feed;
    match e {
      case PipeData(data) => DataReads(r, w, data);
      case PipeEnd => EndReads(r, w.life);
      case GuardianExit =>
      case WakePipe(_, _) => if w.life.core.status.Refused? { EventStaysSick(r, w, e); }
    }
  }

  lemma EventReads(r: Reader, w: Wait, e: Event)
    ensures HasRead(w, OnEvent(r, w, e), [e])
  {
    hide Arrive, Brings, OnData, Feed;
    BringsOne(e);
    assert w.stream + [] == w.stream;
    if e.PipeData? { DataReads(r, w, e.data); }
  }

  lemma DataReads(r: Reader, w: Wait, data: Bytes)
    ensures OnData(r, w, data).stream == w.stream + data && OnData(r, w, data).open == w.open
  {
    hide Feed;
  }

  lemma EndReads(r: Reader, s: State)
    ensures Feed(r, s, [], true).core.status.Healthy? ==> Feed(r, s, [], true).buffer == []
  {
    hide Drain;
  }

  lemma {:induction false} EventsRead(r: Reader, w: Wait, events: seq<Event>)
    requires WholeAtEnd(w) && !w.life.core.status.Raised?
    ensures var v := OnEvents(r, w, events); WholeAtEnd(v) && (!Halted(v) ==> HasRead(w, v, events))
    decreases |events|
  {
    hide OnEvent, WholeAtEnd;
    if events == [] {
      assert w.stream + [] == w.stream;
      return;
    }
    var t := OnEvent(r, w, events[0]);
    EventWhole(r, w, events[0]);
    EventReads(r, w, events[0]);
    if !Halted(t) {
      EventsRead(r, t, events[1..]);
      var v := OnEvents(r, t, events[1..]);
      if !Halted(v) { ReadsOn(w, t, v, events[0], events[1..]); }
    }
  }

  lemma ReadsOn(w: Wait, t: Wait, v: Wait, e: Event, more: seq<Event>)
    requires HasRead(w, t, [e]) && HasRead(t, v, more)
    ensures HasRead(w, v, [e] + more)
  {
    BatchesRead(w, t, v, [e], more);
  }

  lemma BatchesRead(w: Wait, t: Wait, v: Wait, a: seq<Event>, b: seq<Event>)
    requires HasRead(w, t, a) && HasRead(t, v, b)
    ensures HasRead(w, v, a + b)
  {
    hide Brings;
    BringsBoth(a, b);
    assert w.stream + Brings(a).0 + Brings(b).0 == w.stream + (Brings(a).0 + Brings(b).0);
  }

  lemma TurnReads(r: Reader, w: Wait, turn: Turn)
    requires WholeAtEnd(w) && w.life.core.status.Healthy? && OneTurn(r, w, turn).life.core.status.Healthy?
    ensures WholeAtEnd(OneTurn(r, w, turn)) && HasRead(w, OneTurn(r, w, turn), turn.events)
  {
    hide OnEvents, Brings;
    EventsRead(r, w, turn.events);
  }

  lemma {:induction false} TurnsRead(r: Reader, w: Wait, turns: seq<Turn>)
    requires WholeAtEnd(w) && w.life.core.status.Healthy? && Turns(r, w, turns).life.core.status.Healthy?
    ensures WholeAtEnd(Turns(r, w, turns)) && HasRead(w, Turns(r, w, turns), Batches(turns))
    decreases |turns|
  {
    hide OneTurn, WholeAtEnd;
    if turns == [] {
      assert w.stream + [] == w.stream;
      return;
    }
    var t := OneTurn(r, w, turns[0]);
    if t.life.core.status.Healthy? {
      TurnReads(r, w, turns[0]);
      TurnsRead(r, t, turns[1..]);
      BatchesRead(w, t, Turns(r, t, turns[1..]), turns[0].events, Batches(turns[1..]));
    }
  }

  /** All that the pipe of a boot holds: what its wait reads, and unless it ended then, what is left at the exit. */
  function Whole(s: Script): (Bytes, bool) {
    var (bytes, end) := Brings(Batches(s.turns));
    if end then (bytes, true) else (bytes + Available(s.pipe).0, Available(s.pipe).1)
  }

  /** What is left is within the budget of the drain. */
  predicate WithinBudget(s: Script) {
    !Brings(Batches(s.turns)).1 ==> |Available(s.pipe).0| <= 65536
  }

  /** A healthy reader goes on as one feed of all bytes would. */
  lemma MoreDecides(r: Reader, s: State, stream: Bytes, more: Bytes, eof: bool)
    requires s.core.status.Healthy? && Erase(s) == Erase(Feed(r, START, stream, false))
    ensures Feed(r, s, more, eof).core.status.Healthy? <==> Clean(r, stream + more, eof)
  {
    hide Feed, Clean;
    FeedErase(r, s, Feed(r, START, stream, false), more, eof);
    FeedTwice(r, START, stream, more, eof);
    FeedDecidesClean(r, stream + more, eof);
  }

  lemma RaisedEarly(r: Reader, s: State, part: Bytes, whole: Bytes, eof: bool, end: bool)
    requires s.core.status.Healthy? && part <= whole && Feed(r, s, part, end).core.status.Raised?
    ensures !Feed(r, s, whole, eof).core.status.Healthy?
  {
    hide Drain;
    assert Feed(r, s, part, false).core.status.Raised?;
    hide Feed;
    assert part + whole[|part|..] == whole;
    FeedTwice(r, s, part, whole[|part|..], eof);
  }

  /** The exit drain of a healthy wait is healthy exactly when what is left is within its budget and completes a clean
      stream; then it has read all of it. */
  lemma DrainDecides(r: Reader, w: Wait, pipe: seq<Read>)
    requires Tracks(r, w) && w.life.core.status.Healthy? && w.open
    ensures var (more, eof) := Available(pipe);
            var v := DrainPipe(r, w, pipe);
            && (v.life.core.status.Healthy? <==> |more| <= 65536 && Clean(r, w.stream + more, eof))
            && (v.life.core.status.Healthy? ==> v.stream == w.stream + more)
  {
    hide Feed, ExitDrain, Available, Clean, Newline;
    var (more, eof) := Available(pipe);
    var s, d := w.life, ExitDrain(r, w.life, [], pipe);
    FeedBetween(r, START, w.stream, false);
    FeedNothing(r, s);
    DrainIsOneFeed(r, s, s, [], pipe);
    DrainTakesPart(r, s, [], pipe);
    assert [] + more == more;
    MoreDecides(r, s, w.stream, more, eof);
    if d.state.core.status.Raised? {
      RaisedEarly(r, s, d.got, more, eof, d.eof);
    } else {
      DrainTakesAll(r, s, [], pipe);
    }
  }

  lemma EndedIsWhole(r: Reader, w: Wait)
    requires Tracks(r, w) && WholeAtEnd(w) && w.life.core.status.Healthy? && !w.open
    ensures Clean(r, w.stream, true)
  {
    hide Feed, Lines, Tail, Decodes, Grammatical;
    FeedDecidesClean(r, w.stream, false);
  }

  /** The wait of a boot ends without an error exactly when every pass of its loop goes on, what is left at the exit is
      within the budget, and all that its pipe holds is clean up to its end; and then all of it was read. */
  lemma BootIsHealthyExactly(s: Script, h: Hand)
    requires !s.early && Alert(h.bridge)
    ensures var w := RunBoot(s, h).waited;
            && (w.life.core.status.Healthy? <==>
                  (&& (forall k :: 0 <= k < |s.turns| ==> TurnPasses(s.reader, Reached(s, h, k), s.turns[k]))
                   && WithinBudget(s) && Clean(s.reader, Whole(s).0, Whole(s).1)))
            && (w.life.core.status.Healthy? ==> w.stream == Whole(s).0)
  {
    hide OneTurn, Turns, TurnPasses, ExitDrain, Feed, Clean, Brings, Available, WholeAtEnd, Decide, Tracks;
    var r, t := s.reader, Turns(s.reader, Enter(h), s.turns);
    WaitPassesExactly(r, h, s.turns);
    StartsInStep(r, h);
    TurnsTrack(r, Enter(h), s.turns);
    if t.life.core.status.Healthy? {
      TurnsRead(r, Enter(h), s.turns);
      FromTheStart(h, t, Batches(s.turns));
      if t.open { DrainDecides(r, t, s.pipe); } else { EndedIsWhole(r, t); }
    }
    assert RunBoot(s, h).waited == Leave(r, t, s.pipe);
    LeaveSettles(r, t, s.pipe);
  }

  lemma StartsInStep(r: Reader, h: Hand)
    ensures Tracks(r, Enter(h)) && WholeAtEnd(Enter(h))
  {
    FeedNothing(r, START);
  }

  lemma FromTheStart(h: Hand, t: Wait, events: seq<Event>)
    requires HasRead(Enter(h), t, events)
    ensures t.stream == Brings(events).0 && t.open == !Brings(events).1
  {
    hide Brings;
    assert [] + Brings(events).0 == Brings(events).0;
  }

  /** Leaving drains the pipe and settles nothing but a reload still owed, which fails. */
  lemma LeaveSettles(r: Reader, w: Wait, pipe: seq<Read>)
    ensures var t, v := DrainPipe(r, w, pipe), Leave(r, w, pipe);
            && v.life == t.life && v.stream == t.stream && v.gen == w.gen && v.report == w.report
            && v.log == w.log + if w.report != 0 && !t.life.core.status.Raised? then [Settled(w.report, false)] else []
  {
    hide ExitDrain;
    assert w.log + [] == w.log;
  }

  /** So a restart is decided by the script alone. */
  lemma RestartExactlyOnScript(s: Script, h: Hand)
    requires Alert(h.bridge)
    ensures RunBoot(s, h).decision == Again(Restart) <==>
              (&& !s.early && !s.stopped && s.exitCode == 75
               && (forall k :: 0 <= k < |s.turns| ==> TurnPasses(s.reader, Reached(s, h, k), s.turns[k]))
               && WithinBudget(s) && Clean(s.reader, Whole(s).0, Whole(s).1) && Trusted(s.reader, Whole(s).0))
  {
    hide RunBoot, TurnPasses, Reached, Whole, WithinBudget, Clean, Trusted;
    RestartExactlyOnEvidence(s, h);
    if !s.early { BootIsHealthyExactly(s, h); }
  }

  // ----- Every answer settles one reload -----

  /** The results of the settlements of a log, but for those of one reload. */
  function Results(log: seq<Entry>, owed: nat): seq<bool> {
    if log == [] then []
    else
      var e := log[|log| - 1];
      Results(log[..|log| - 1], owed) + if e.Settled? && e.gen != owed then [e.ok] else []
  }

  function Flags(answers: seq<(bool, Str)>): (flags: seq<bool>)
    ensures |flags| == |answers| && forall i :: 0 <= i < |flags| ==> flags[i] == answers[i].0
  {
    seq(|answers|, i requires 0 <= i < |answers| => answers[i].0)
  }

  /** What has been added to a log. */
  function Since(before: seq<Entry>, log: seq<Entry>): seq<Entry>
    requires before <= log
  {
    log[|before|..]
  }

  /** The answers read so far are the settlements made so far, apart from that of the reload owed. */
  predicate InStep(r: Reader, h: Hand, w: Wait) {
    w.life.core.status.Healthy? ==>
      && h.log <= w.log && w.life.core.results == []
      && Erase(w.life) == Erase(Feed(r, START, w.stream, false))
      && Flags(Feed(r, START, w.stream, false).core.results) == Results(Since(h.log, w.log), h.report)
  }

  lemma ResultsStep(log: seq<Entry>, e: Entry, owed: nat)
    ensures Results(log + [e], owed) == Results(log, owed) + if e.Settled? && e.gen != owed then [e.ok] else []
  {
    assert (log + [e])[..|log|] == log;
  }

  lemma SinceStep(before: seq<Entry>, log: seq<Entry>, e: Entry)
    requires before <= log
    ensures before <= log + [e] && Since(before, log + [e]) == Since(before, log) + [e]
  {}

  /** More bytes bring their answers after those before. */
  lemma MoreAnswers(r: Reader, s: State, stream: Bytes, data: Bytes)
    requires s.core.status.Healthy? && s.core.results == [] && Erase(s) == Erase(Feed(r, START, stream, false))
    requires Feed(r, s, data, false).core.status.Healthy?
    ensures Feed(r, START, stream + data, false).core.results
         == Feed(r, START, stream, false).core.results + Feed(r, s, data, false).core.results
  {
    var p := Feed(r, START, stream, false).core.results;
    assert Feed(r, START, stream, false) == Shift(s, p) by { assert p + [] == p; }
    hide Feed;
    FeedShift(r, s, data, false, p);
    FeedTwice(r, START, stream, data, false);
  }

  lemma FlagsBoth(a: seq<(bool, Str)>, b: seq<(bool, Str)>)
    ensures Flags(a + b) == Flags(a) + Flags(b)
  {}

  lemma DataInStep(r: Reader, h: Hand, w: Wait, data: Bytes)
    requires InStep(r, h, w) && !w.life.core.status.Raised? && (w.gen != 0 ==> w.gen != h.report)
    ensures InStep(r, h, OnData(r, w, data))
  {
    hide Feed, Flags, Results, Since;
    var fed, v := Feed(r, w.life, data, false), OnData(r, w, data);
    if v.life.core.status.Healthy? {
      FeedHealthy(r, w.life, data, false);
      MoreAnswers(r, w.life, w.stream, data);
      DataTracks(r, w.life, w.stream, data);
      FlagsBoth(Feed(r, START, w.stream, false).core.results, fed.core.results);
      if fed.core.results == [] {
        NoFlags();
      } else {
        var a := fed.core.results[0];
        assert fed.core.results == [a];
        OneFlag(a);
        SinceStep(h.log, w.log, Settled(w.gen, a.0));
        ResultsStep(Since(h.log, w.log), Settled(w.gen, a.0), h.report);
      }
      assert Erase(v.life) == Erase(fed);
    }
  }

  lemma NoFlags()
    ensures Flags([]) == [] && forall b: seq<bool> :: b + [] == b
  {}

  lemma OneFlag(a: (bool, Str))
    ensures Flags([a]) == [a.0]
  {}

  lemma EventInStep(r: Reader, h: Hand, w: Wait, e: Event, f: bool, x: bool)
    requires InStep(r, h, w) && !w.life.core.status.Raised? && Keeps(h, w, f, x)
    ensures InStep(r, h, OnEvent(r, w, e))
  {
    hide Feed, Arrive, Results, Flags, Since, Books;
    match e {
      case GuardianExit =>
      case PipeData(data) =>
        if w.open {
          OpenIsFresh(h, w, f, x);
          DataInStep(r, h, w, data);
        }
      case PipeEnd =>
        if w.open && Feed(r, w.life, [], true).core.status.Healthy? {
          FeedHealthy(r, w.life, [], true);
          EndTracks(r, w.life, w.stream);
        }
      case WakePipe(arrivals, signal) =>
        if w.gateway { WakeInStep(r, h, w, arrivals, signal); }
    }
  }

  lemma WakeInStep(r: Reader, h: Hand, w: Wait, arrivals: nat, signal: Signal)
    requires InStep(r, h, w)
    ensures InStep(r, h, OnWake(w, arrivals, signal))
  {
    hide Feed, Arrive, Results, Flags, Since;
    var v := OnWake(w, arrivals, signal);
    if v.life.core.status.Healthy? && v.log != w.log {
      SinceStep(h.log, w.log, Took(v.gen));
      ResultsStep(Since(h.log, w.log), Took(v.gen), h.report);
      NoFlags();
    }
  }

  /** An outstanding request is never the reload the boot was handed. */
  lemma OpenIsFresh(h: Hand, w: Wait, f: bool, x: bool)
    requires Keeps(h, w, f, x)
    ensures w.gen != 0 ==> w.gen != h.report
  {
    hide Orderly, Accounted, Mixed, Alert;
  }

  lemma {:induction false} EventsInStep(r: Reader, h: Hand, w: Wait, events: seq<Event>, f: bool, x: bool)
    requires InStep(r, h, w) && !w.life.core.status.Raised? && Keeps(h, w, f, x)
    ensures InStep(r, h, OnEvents(r, w, events))
    decreases |events|
  {
    hide OnEvent, InStep, Keeps;
    if events != [] {
      EventInStep(r, h, w, events[0], f, x);
      EventKeeps(r, h, w, events[0], f, x);
      var t := OnEvent(r, w, events[0]);
      if !t.life.core.status.Raised? { EventsInStep(r, h, t, events[1..], f, x); }
    }
  }

  lemma EventKeeps(r: Reader, h: Hand, w: Wait, e: Event, f: bool, x: bool)
    requires Keeps(h, w, f, x)
    ensures Keeps(h, OnEvent(r, w, e), f, x)
  {
    hide OnEvent, Keeps;
    EventsKeep(r, h, w, [e], f, x);
    assert [e][1..] == [];
    assert OnEvents(r, w, [e]) == OnEvent(r, w, e);
  }

  lemma ReadyInStep(r: Reader, h: Hand, w: Wait, pid: PidCheck, f: bool, x: bool)
    requires InStep(r, h, w) && Keeps(h, w, f, x)
    ensures InStep(r, h, OnReady(w, pid))
  {
    hide Feed, Results, Flags, Since, Books;
    var v := OnReady(w, pid);
    if v.life.core.status.Healthy? && v.log != w.log {
      SinceStep(h.log, w.log, Settled(h.report, true));
      ResultsStep(Since(h.log, w.log), Settled(h.report, true), h.report);
      NoFlags();
    }
  }

  lemma {:induction false} TurnsInStep(r: Reader, h: Hand, w: Wait, turns: seq<Turn>, f: bool, x: bool)
    requires InStep(r, h, w) && Keeps(h, w, f, x)
    ensures InStep(r, h, Turns(r, w, turns))
    decreases |turns|
  {
    hide OnEvents, OnReady, Keeps, InStep;
    if turns != [] && w.life.core.status.Healthy? {
      EventsInStep(r, h, w, turns[0].events, f, x);
      EventsKeep(r, h, w, turns[0].events, f, x);
      var u := OnEvents(r, w, turns[0].events);
      ReadyInStep(r, h, u, turns[0].pid, f, x);
      ReadyKeeps(h, u, turns[0].pid, f, x);
      LateInStep(r, h, w);
      var v := OneTurn(r, w, turns[0]);
      if !v.life.core.status.Healthy? {
        assert Turns(r, v, turns[1..]) == v;
      } else {
        TurnsInStep(r, h, v, turns[1..], f, x);
      }
    }
  }

  lemma LateInStep(r: Reader, h: Hand, w: Wait)
    ensures InStep(r, h, Fail(w, StartupTimeout))
  {}

  lemma EnterInStep(r: Reader, h: Hand)
    ensures InStep(r, h, Enter(h))
  {
    FeedNothing(r, START);
    assert h.log[|h.log|..] == [];
  }

  /** While a wait is healthy, the answers its stream holds are, in order, the settlements it makes, apart from that of
      the reload it was handed: each answer settles one request with the success it reports. */
  lemma AnswersAreSettled(boots: seq<Boot>, k: nat)
    requires Boots(boots) && k < |boots| && !boots[k].script.early
    ensures var s, h := boots[k].script, boots[k].before;
            var w := Turns(s.reader, Enter(h), s.turns);
            w.life.core.status.Healthy? ==>
              && h.log <= w.log && Decodes(s.reader, Lines(w.stream))
              && Flags(Answers(Frames(s.reader, Lines(w.stream)))) == Results(Since(h.log, w.log), h.report)
  {
    hide Turns, RunBoot, Passes, Keeps, Feed, Lines, Decodes, Grammatical, Flags, Results, Since, ReportsStage, Owes;
    var s, h := boots[k].script, boots[k].before;
    RunPasses(boots, k);
    assert Follows(boots, k);
    EnterKeeps(h, Excused(boots, k));
    EnterInStep(s.reader, h);
    TurnsInStep(s.reader, h, Enter(h), s.turns, Owes(h), Excused(boots, k));
    var w := Turns(s.reader, Enter(h), s.turns);
    FeedDecidesClean(s.reader, w.stream, false);
  }

  // ----- The bridge tells what the log says -----

  /** The last settlement of each reload. */
  function Told(log: seq<Entry>): map<nat, bool> {
    if log == [] then map[]
    else
      var e, before := log[|log| - 1], Told(log[..|log| - 1]);
      if e.Settled? then before[e.gen := e.ok] else before
  }

  lemma ToldStep(log: seq<Entry>, e: Entry)
    ensures Told(log + [e]) == if e.Settled? then Told(log)[e.gen := e.ok] else Told(log)
  {
    assert (log + [e])[..|log|] == log;
  }

  predicate Tells(b: Bridge, log: seq<Entry>) {
    b.completed == Told(log)
  }

  lemma ArriveTells(b: Bridge, n: nat)
    requires Alert(b)
    ensures Arrive(b, n).completed == b.completed
  {
    ArriveAlert(b, n);
  }

  lemma EventTells(r: Reader, w: Wait, e: Event)
    requires Tells(w.bridge, w.log) && Alert(w.bridge)
    ensures Tells(OnEvent(r, w, e).bridge, OnEvent(r, w, e).log)
  {
    hide Feed, Arrive, Told, Alert;
    match e {
      case PipeData(data) =>
        forall ok ensures Told(w.log + [Settled(w.gen, ok)]) == Told(w.log)[w.gen := ok] {
          ToldStep(w.log, Settled(w.gen, ok));
        }
      case WakePipe(arrivals, signal) =>
        ArriveTells(w.bridge, arrivals);
        forall gen ensures Told(w.log + [Took(gen)]) == Told(w.log) { ToldStep(w.log, Took(gen)); }
      case _ =>
    }
  }

  lemma {:induction false} EventsTell(r: Reader, w: Wait, events: seq<Event>)
    requires Tells(w.bridge, w.log) && Alert(w.bridge)
    ensures Tells(OnEvents(r, w, events).bridge, OnEvents(r, w, events).log)
    decreases |events|
  {
    hide OnEvent, Alert, Tells;
    if events != [] {
      EventTells(r, w, events[0]);
      OneAlert(r, w, events[0]);
      EventsTell(r, OnEvent(r, w, events[0]), events[1..]);
    }
  }

  lemma OneAlert(r: Reader, w: Wait, e: Event)
    requires Alert(w.bridge)
    ensures Alert(OnEvent(r, w, e).bridge)
  {
    hide OnEvent, Alert;
    EventsAlert(r, w, [e]);
    assert [e][1..] == [];
    assert OnEvents(r, w, [e]) == OnEvent(r, w, e);
  }

  lemma {:induction false} TurnsTell(r: Reader, w: Wait, turns: seq<Turn>)
    requires Tells(w.bridge, w.log) && Alert(w.bridge)
    ensures Tells(Turns(r, w, turns).bridge, Turns(r, w, turns).log)
    decreases |turns|
  {
    hide OnEvents, Alert, Told;
    if turns != [] && w.life.core.status.Healthy? {
      EventsTell(r, w, turns[0].events);
      EventsAlert(r, w, turns[0].events);
      var u := OnEvents(r, w, turns[0].events);
      ToldStep(u.log, Settled(u.report, true));
      TurnAlert(r, w, turns[0]);
      TurnsTell(r, OneTurn(r, w, turns[0]), turns[1..]);
    }
  }

  lemma TurnAlert(r: Reader, w: Wait, turn: Turn)
    requires Alert(w.bridge)
    ensures Alert(OneTurn(r, w, turn).bridge)
  {
    hide OnEvents;
    EventsAlert(r, w, turn.events);
  }

  lemma GiveUpTells(w: Wait, code: int, arrivals: nat)
    requires Tells(w.bridge, w.log) && Alert(w.bridge)
    ensures var (d, h) := GiveUp(w, code, arrivals); Tells(h.bridge, h.log)
  {
    hide Arrive, Told;
    var gen := Outstanding(w);
    if gen != 0 {
      var f := SettleGen(w, gen, false);
      ToldStep(w.log, Settled(gen, false));
      ArriveAlert(f.bridge, arrivals);
      var newest := w.bridge.next + arrivals;
      ToldStep(f.log, Took(newest));
    }
  }

  lemma BootTells(s: Script, h: Hand)
    requires Tells(h.bridge, h.log) && Alert(h.bridge)
    ensures Tells(RunBoot(s, h).after.bridge, RunBoot(s, h).after.log)
  {
    hide Turns, Told, GiveUp, ExitDrain, Alert;
    if !s.early {
      TurnsTell(s.reader, Enter(h), s.turns);
      var t := Turns(s.reader, Enter(h), s.turns);
      ToldStep(t.log, Settled(t.report, false));
      BootAlert(s, h);
      var w := RunBoot(s, h).waited;
      GiveUpTells(w, PortableExitCode(s.exitCode), s.rollback);
      GiveUpTells(w, SUPERVISOR_FAILURE, s.rollback);
    }
  }

  /** In every run the bridge holds for each reload the result of its last settlement, and nothing else. */
  lemma {:induction false} BridgeTellsTheLog(boots: seq<Boot>, k: nat)
    requires Boots(boots) && k < |boots|
    ensures boots[k].after.bridge.completed == Told(boots[k].after.log)
    decreases k
  {
    hide RunBoot, Told, Passes, Owes;
    RunPasses(boots, k);
    assert Follows(boots, k);
    assert Alert(boots[k].before.bridge) by { PassesAlert(boots[k].before, Excused(boots, k)); }
    if k == 0 {
      assert Told([]) == map[] by { NothingTold(); }
    } else {
      BridgeTellsTheLog(boots, k - 1);
    }
    BootTells(boots[k].script, boots[k].before);
  }

  lemma NothingTold()
    ensures Told([]) == map[]
  {}

  // ----- The signal right -----

  lemma TurnGains(r: Reader, w: Wait, turn: Turn)
    requires w.life.core.status.Healthy? && (w.gateway ==> w.life.core.ready)
    ensures var v := OneTurn(r, w, turn);
            && (v.gateway ==> v.life.core.ready)
            && (v.life.core.status.Healthy? && v.life.core.ready ==> v.gateway)
  {
    hide OnEvents;
    EventsReport(r, w, turn.events);
  }

  /** A healthy wait may signal the gateway, and so takes requests, exactly when its ready frame has been seen. */
  lemma {:induction false} SignalsExactlyWhenReady(r: Reader, w: Wait, turns: seq<Turn>)
    requires w.gateway <==> w.life.core.ready
    ensures var v := Turns(r, w, turns);
            && (v.gateway ==> v.life.core.ready) && (v.life.core.status.Healthy? && v.life.core.ready ==> v.gateway)
    decreases |turns|
  {
    hide OneTurn;
    if turns != [] && w.life.core.status.Healthy? {
      TurnGains(r, w, turns[0]);
      var v := OneTurn(r, w, turns[0]);
      if v.life.core.status.Healthy? {
        SignalsExactlyWhenReady(r, v, turns[1..]);
      } else {
        assert Turns(r, v, turns[1..]) == v;
      }
    }
  }

  /** A wake event that reaches the loop takes the newest of all requests made so far and clears the bridge; one that
      finds no request changes nothing. */
  lemma WakeTakesTheNewest(r: Reader, w: Wait, arrivals: nat, signal: Signal)
    requires Alert(w.bridge) && w.gateway
    ensures var v, newest := OnEvent(r, w, WakePipe(arrivals, signal)), w.bridge.next + arrivals;
            if w.bridge.flag || arrivals > 0 then
              && newest > 0 && v.gen == newest && v.log == w.log + [Took(newest)]
              && v.bridge == Bridge(newest, newest, false, 0, w.bridge.completed)
              && (v.report, v.gateway, v.open, v.stream) == (w.report, true, w.open, w.stream)
              && (signal.Sent? ==> v.life == w.life)
            else v == w
  {
    hide Arrive;
    ArriveAlert(w.bridge, arrivals);
    if !w.bridge.flag && arrivals == 0 { NobodyArrives(w.bridge); }
  }

  lemma NobodyArrives(b: Bridge)
    ensures Arrive(b, 0) == b
  {}
}
