/** Why a restart may be trusted: a boot follows exit code 75 only after an error-free stream that holds one ready
    frame and, after it, one commit frame of that boot. */
module Handshake {
  import opened Text
  import opened Lifecycle
  import opened Grammar
  import opened BridgeRules
  import opened Supervisor

  // ----- The reader does not look at the answers it has collected -----

  function Bare(c: Core): Core {
    c.(results := [])
  }

  function Erase(s: State): State {
    State(Bare(s.core), s.buffer)
  }

  /** The same with answers collected before. */
  function Ahead(c: Core, p: seq<(bool, Str)>): Core {
    c.(results := p + c.results)
  }

  function Shift(s: State, p: seq<(bool, Str)>): State {
    State(Ahead(s.core, p), s.buffer)
  }

  lemma AcceptShift(r: Reader, c: Core, raw: Bytes, p: seq<(bool, Str)>)
    ensures Accept(r, Ahead(c, p), raw) == Ahead(Accept(r, c, raw), p)
  {
    hide Strip, IsAscii, Encodable, Utf8Length, Value.Shown;
    if c.status.Healthy? && r.decode(raw).Parsed? {
      var f := r.decode(raw).frame;
      if f.Object? && f.bootId == Value.Text(r.boot) {
        match f.kind {
          case Stage => assert AcceptFrame(r, c, f) == AcceptStage(c, f);
          case Ready => assert AcceptFrame(r, c, f) == AcceptReady(c, f);
          case Commit => assert AcceptFrame(r, c, f) == AcceptCommit(r, c, f);
          case SettingsReloaded =>
            assert AcceptFrame(r, c, f) == AcceptSettings(c, f);
            forall x: (bool, Str) ensures p + (c.results + [x]) == p + c.results + [x] {}
          case Unknown =>
        }
      }
    }
  }

  lemma FirstLineShift(r: Reader, s: State, p: seq<(bool, Str)>)
    requires Newline(s.buffer) < |s.buffer|
    ensures var (t, stop) := FirstLine(r, s);
            FirstLine(r, Shift(s, p)) == (Shift(t, p), stop) && |t.buffer| < |s.buffer|
  {
    hide Accept, Newline;
    AcceptShift(r, s.core, s.buffer[..Newline(s.buffer)], p);
  }

  lemma {:induction false} DrainShift(r: Reader, s: State, p: seq<(bool, Str)>)
    ensures Drain(r, Shift(s, p)) == Shift(Drain(r, s), p)
    decreases |s.buffer|
  {
    hide Accept, Newline, FirstLine;
    if Newline(s.buffer) == |s.buffer| {
      return;
    }
    FirstLineShift(r, s, p);
    DrainStep(r, s);
    DrainStep(r, Shift(s, p));
    hide Drain;
    var (t, stop) := FirstLine(r, s);
    if !stop { DrainShift(r, t, p); }
  }

  /** Answers collected before a feed stay in front of those it brings. */
  lemma FeedShift(r: Reader, s: State, payload: Bytes, eof: bool, p: seq<(bool, Str)>)
    ensures Feed(r, Shift(s, p), payload, eof) == Shift(Feed(r, s, payload, eof), p)
  {
    hide Drain;
    DrainShift(r, State(s.core, s.buffer + payload), p);
  }

  lemma ShiftErased(s: State)
    ensures Shift(Erase(s), s.core.results) == s && forall p :: Erase(Shift(s, p)) == Erase(s)
  {
    assert s.core.results + [] == s.core.results;
  }

  lemma FeedErase(r: Reader, s: State, t: State, payload: Bytes, eof: bool)
    requires Erase(s) == Erase(t)
    ensures Erase(Feed(r, s, payload, eof)) == Erase(Feed(r, t, payload, eof))
  {
    hide Feed, Erase, Shift;
    ShiftErased(s);
    ShiftErased(t);
    ShiftErased(Feed(r, Erase(s), payload, eof));
    FeedShift(r, Erase(s), payload, eof, s.core.results);
    FeedShift(r, Erase(t), payload, eof, t.core.results);
  }

  // ----- The reader's state is one feed of everything read -----

  predicate Tracks(r: Reader, w: Wait) {
    w.life.core.status.Healthy? ==> Erase(w.life) == Erase(Feed(r, START, w.stream, false))
  }

  /** A refused or crashed reader stays so. */
  lemma FeedHealthy(r: Reader, s: State, payload: Bytes, eof: bool)
    requires Feed(r, s, payload, eof).core.status.Healthy?
    ensures !s.core.status.Refused?
  {
    if s.core.status.Refused? { DrainRefused(r, State(s.core, s.buffer + payload)); }
  }

  lemma DataTracks(r: Reader, s: State, stream: Bytes, data: Bytes)
    requires s.core.status.Healthy? && Erase(s) == Erase(Feed(r, START, stream, false))
    requires Feed(r, s, data, false).core.status.Healthy?
    ensures Erase(Feed(r, s, data, false)) == Erase(Feed(r, START, stream + data, false))
  {
    hide Feed;
    FeedErase(r, s, Feed(r, START, stream, false), data, false);
    FeedTwice(r, START, stream, data, false);
  }

  /** The end of the pipe changes nothing that is healthy. */
  lemma EndTracks(r: Reader, s: State, stream: Bytes)
    requires s.core.status.Healthy? && Erase(s) == Erase(Feed(r, START, stream, false))
    requires Feed(r, s, [], true).core.status.Healthy?
    ensures Feed(r, s, [], true) == s
  {
    FeedBetween(r, START, stream, false);
    hide Newline;
    assert s.buffer + [] == s.buffer;
  }

  lemma EventTracks(r: Reader, w: Wait, e: Event)
    requires Tracks(r, w) && !w.life.core.status.Raised?
    ensures Tracks(r, OnEvent(r, w, e))
  {
    hide Feed, Arrive;
    match e {
      case GuardianExit =>
      case PipeData(data) =>
        if w.open && Feed(r, w.life, data, false).core.status.Healthy? {
          FeedHealthy(r, w.life, data, false);
          DataTracks(r, w.life, w.stream, data);
        }
      case PipeEnd =>
        if w.open && Feed(r, w.life, [], true).core.status.Healthy? {
          FeedHealthy(r, w.life, [], true);
          EndTracks(r, w.life, w.stream);
        }
      case WakePipe(arrivals, signal) =>
    }
  }

  lemma {:induction false} EventsTrack(r: Reader, w: Wait, events: seq<Event>)
    requires Tracks(r, w) && !w.life.core.status.Raised?
    ensures Tracks(r, OnEvents(r, w, events))
    decreases |events|
  {
    hide OnEvent, Tracks;
    if events != [] {
      EventTracks(r, w, events[0]);
      var t := OnEvent(r, w, events[0]);
      if !t.life.core.status.Raised? { EventsTrack(r, t, events[1..]); }
    }
  }

  lemma {:induction false} TurnsTrack(r: Reader, w: Wait, turns: seq<Turn>)
    requires Tracks(r, w)
    ensures Tracks(r, Turns(r, w, turns))
    decreases |turns|
  {
    hide OnEvents, Feed;
    if turns != [] && w.life.core.status.Healthy? {
      EventsTrack(r, w, turns[0].events);
      TurnsTrack(r, OneTurn(r, w, turns[0]), turns[1..]);
    }
  }

  lemma DrainTracks(r: Reader, w: Wait, pipe: seq<Read>)
    requires Tracks(r, w)
    ensures Tracks(r, DrainPipe(r, w, pipe))
  {
    if !w.open || !w.life.core.status.Healthy? {
      return;
    }
    var s := w.life;
    var d := ExitDrain(r, s, [], pipe);
    FeedBetween(r, START, w.stream, false);
    FeedNothing(r, s);
    DrainIsOneFeed(r, s, s, [], pipe);
    if d.state.core.status.Healthy? {
      hide Feed, ExitDrain;
      FeedTwice(r, s, d.got, [], true);
      assert d.got + [] == d.got;
      var t := Feed(r, s, d.got, false);
      if d.eof {
        if !t.core.status.Raised? { FeedHealthy(r, t, [], true); }
        DataTracks(r, s, w.stream, d.got);
        EndTracks(r, t, w.stream + d.got);
      } else {
        DataTracks(r, s, w.stream, d.got);
      }
    }
  }

  // ----- The theorem -----

  /** One frame of this kind, at position `i`. */
  ghost predicate OnlyAt(fs: seq<Frame>, k: Kind, i: nat) {
    i < |fs| && Is(fs[i], k) && forall j :: 0 <= j < |fs| && Is(fs[j], k) ==> j == i
  }

  /** The stream of a boot that ended in a trusted restart. */
  ghost predicate Trusted(r: Reader, stream: Bytes) {
    && Clean(r, stream, false)
    && exists i, j :: i < j && OnlyAt(Frames(r, Lines(stream)), Ready, i) && OnlyAt(Frames(r, Lines(stream)), Commit, j)
  }

  lemma ReadyAndCommit(r: Reader, fs: seq<Frame>)
    requires Grammatical(r, fs) && Has(fs, Ready) && Has(fs, Commit)
    ensures exists i, j :: i < j && OnlyAt(fs, Ready, i) && OnlyAt(fs, Commit, j)
  {
    hide WellFormed;
    var i :| 0 <= i < |fs| && Is(fs[i], Ready);
    var j :| 0 <= j < |fs| && Is(fs[j], Commit);
    assert Has(fs[..j], Ready);
    var h :| 0 <= h < j && Is(fs[..j][h], Ready);
    assert Is(fs[h], Ready);
    assert OnlyAt(fs, Ready, h) && OnlyAt(fs, Commit, j);
  }

  lemma HealthyRestart(r: Reader, w: Wait)
    requires Tracks(r, w) && w.life.core.status.Healthy? && w.life.core.ready && w.life.core.commit
    ensures Trusted(r, w.stream)
  {
    hide Feed, Clean, Grammatical, Lines, Frames;
    FeedDecidesClean(r, w.stream, false);
    assert Clean(r, w.stream, false);
    assert Decodes(r, Lines(w.stream)) && Grammatical(r, Frames(r, Lines(w.stream))) by { CleanParts(r, w.stream); }
    ReadyAndCommit(r, Frames(r, Lines(w.stream)));
  }

  lemma CleanParts(r: Reader, stream: Bytes)
    requires Clean(r, stream, false)
    ensures Decodes(r, Lines(stream)) && Grammatical(r, Frames(r, Lines(stream)))
  {
    hide Grammatical, Lines, Decodes;
  }

  /** A boot that follows another without a rollback follows exit code 75 and a trusted stream; nothing else makes
      the supervisor start again. */
  lemma RestartIsTrusted(boots: seq<Boot>, k: nat)
    requires Boots(boots) && k + 1 < |boots| && boots[k].decision == Again(Restart)
    ensures boots[k].script.exitCode == RESTART_EXIT_CODE && !boots[k].script.stopped
    ensures Trusted(boots[k].script.reader, boots[k].waited.stream)
  {
    assert Follows(boots, k) && Follows(boots, k + 1);
    hide Leave, Turns, Lines, Trusted, Tracks;
    BootTracks(boots[k].script, boots[k].before);
    HealthyRestart(boots[k].script.reader, boots[k].waited);
  }

  lemma BootTracks(s: Script, h: Hand)
    requires !s.early
    ensures Tracks(s.reader, RunBoot(s, h).waited)
  {
    hide Feed, Turns, Decide;
    var w := Enter(h);
    FeedNothing(s.reader, START);
    TurnsTrack(s.reader, w, s.turns);
    DrainTracks(s.reader, Turns(s.reader, w, s.turns), s.pipe);
  }

  /** And complete evidence is enough: a boot is followed by a restart exactly when it exited with 75, nobody asked to
      stop, no error arose while it was watched, and its stream is trusted. */
  lemma RestartExactlyOnEvidence(s: Script, h: Hand)
    ensures RunBoot(s, h).decision == Again(Restart) <==>
              (&& !s.early && !s.stopped && s.exitCode == RESTART_EXIT_CODE
               && RunBoot(s, h).waited.life.core.status.Healthy? && Trusted(s.reader, RunBoot(s, h).waited.stream))
  {
    hide Leave, Turns, Lines, Trusted, Tracks, GiveUp;
    GiveUpIsNoRestart(RunBoot(s, h).waited, PortableExitCode(s.exitCode), s.rollback);
    GiveUpIsNoRestart(RunBoot(s, h).waited, SUPERVISOR_FAILURE, s.rollback);
    if !s.early {
      BootTracks(s, h);
      var w := RunBoot(s, h).waited;
      if w.life.core.status.Healthy? {
        if w.life.core.ready && w.life.core.commit { HealthyRestart(s.reader, w); }
        if Trusted(s.reader, w.stream) { TrustedEvidence(s.reader, w); }
      }
    }
  }

  lemma GiveUpIsNoRestart(w: Wait, code: int, arrivals: nat)
    ensures GiveUp(w, code, arrivals).0 != Again(Restart)
  {}

  lemma TrustedEvidence(r: Reader, w: Wait)
    requires Tracks(r, w) && w.life.core.status.Healthy? && Trusted(r, w.stream)
    ensures w.life.core.ready && w.life.core.commit
  {
    hide Feed, Clean, Grammatical, Lines, Frames;
    FeedDecidesClean(r, w.stream, false);
    CleanParts(r, w.stream);
    var fs := Frames(r, Lines(w.stream));
    var i: nat, j: nat :| i < j && OnlyAt(fs, Ready, i) && OnlyAt(fs, Commit, j);
    assert Has(fs, Ready) && Has(fs, Commit);
  }
}
