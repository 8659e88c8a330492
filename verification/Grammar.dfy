/** The language the lifecycle automaton accepts, stated over whole lists of frames and without any state. */
module Grammar {
  import opened Text
  import opened Lifecycle

  predicate Is(f: Frame, k: Kind) {
    f.Object? && f.kind == k
  }

  /** A frame that is acceptable by itself to the boot that owns `r`. */
  predicate WellFormed(r: Reader, f: Frame) {
    && f.Object? && f.bootId == Value.Text(r.boot)
    && match f.kind
       case Stage => f.stage.Text? && Strip(f.stage.s) != [] && f.elapsedMs.AsInt().Some? && Elapsed(f) >= -1
       case Ready => f.pid.AsInt().Some? && f.pid.AsInt().value > 0
       case Commit =>
         && f.requestId.Text? && f.requestId.s != [] && Strip(f.requestId.s) == f.requestId.s
         && IsAscii(r.nonce) && f.nonce.Shown() == r.nonce
       case SettingsReloaded =>
         f.success.Bool? && Detail(f).Text? && Encodable(Detail(f).s) && Utf8Length(Detail(f).s) <= 2048
       case Unknown => false
  }

  function Elapsed(f: Frame): int {
    if f.Object? && f.elapsedMs.AsInt().Some? then f.elapsedMs.AsInt().value else -1
  }

  /** What may follow what. */
  predicate InOrder(fs: seq<Frame>) {
    && (forall i, j :: 0 <= i < j < |fs| && Is(fs[i], Ready) ==> !Is(fs[j], Stage) && !Is(fs[j], Ready))
    && (forall i, j :: 0 <= i < j < |fs| && Is(fs[i], Stage) && Is(fs[j], Stage) ==> Elapsed(fs[i]) <= Elapsed(fs[j]))
    && (forall j :: 0 <= j < |fs| && (Is(fs[j], Commit) || Is(fs[j], SettingsReloaded)) ==> Has(fs[..j], Ready))
    && (forall i, j :: 0 <= i < j < |fs| && Is(fs[i], Commit) ==> !Is(fs[j], Commit))
  }

  predicate Has(fs: seq<Frame>, k: Kind) {
    exists i :: 0 <= i < |fs| && Is(fs[i], k)
  }

  predicate Grammatical(r: Reader, fs: seq<Frame>) {
    && (forall i :: 0 <= i < |fs| ==> WellFormed(r, fs[i]))
    && InOrder(fs)
  }

  /** The answer a frame brings, if it is one. */
  function AnswerOf(f: Frame): seq<(bool, Str)> {
    if Is(f, SettingsReloaded) && f.success.Bool? && Detail(f).Text? then [(f.success.b, Detail(f).s)] else []
  }

  /** The answers of the settings frames, in order. */
  function Answers(fs: seq<Frame>): seq<(bool, Str)> {
    if fs == [] then [] else Answers(fs[..|fs| - 1]) + AnswerOf(fs[|fs| - 1])
  }

  /** What the state says about the stages of a list. */
  predicate ReportsStage(c: Core, fs: seq<Frame>) {
    && c.elapsed >= -1
    && (forall i :: 0 <= i < |fs| && Is(fs[i], Stage) ==> Elapsed(fs[i]) <= c.elapsed)
    && (Has(fs, Stage) ==>
          exists i :: 0 <= i < |fs| && LastStage(fs, i) && Elapsed(fs[i]) == c.elapsed
              && fs[i].stage == Value.Text(c.stage))
    && (!Has(fs, Stage) ==> c.elapsed == -1 && c.stage == Literal("guardian.spawn"))
  }

  /** What an automaton state says about the frames it has seen. */
  predicate Reports(c: Core, fs: seq<Frame>) {
    && (c.ready <==> Has(fs, Ready)) && (!c.ready ==> c.pid == None)
    && (forall i :: 0 <= i < |fs| && Is(fs[i], Ready) ==> c.pid == fs[i].pid.AsInt())
    && (c.commit <==> Has(fs, Commit))
    && ReportsStage(c, fs)
    && c.results == Answers(fs)
  }

  predicate LastStage(fs: seq<Frame>, i: nat)
    requires i < |fs|
  {
    Is(fs[i], Stage) && forall j :: i < j < |fs| ==> !Is(fs[j], Stage)
  }

  function Run(r: Reader, fs: seq<Frame>): Core {
    if fs == [] then FRESH else AcceptFrame(r, Run(r, fs[..|fs| - 1]), fs[|fs| - 1])
  }

  /** What the order asks of one more frame. */
  predicate MayFollow(gs: seq<Frame>, f: Frame) {
    && (Has(gs, Ready) ==> !Is(f, Stage) && !Is(f, Ready))
    && (Is(f, Stage) ==> forall i :: 0 <= i < |gs| && Is(gs[i], Stage) ==> Elapsed(gs[i]) <= Elapsed(f))
    && (Is(f, Commit) || Is(f, SettingsReloaded) ==> Has(gs, Ready))
    && (Has(gs, Commit) ==> !Is(f, Commit))
  }

  lemma OrderStep(gs: seq<Frame>, f: Frame)
    ensures InOrder(gs + [f]) <==> InOrder(gs) && MayFollow(gs, f)
  {
    var fs := gs + [f];
    assert fs[|gs|] == f && fs[..|gs|] == gs;
    assert forall j :: 0 <= j < |gs| ==> fs[..j] == gs[..j];
    assert forall i :: 0 <= i < |gs| ==> fs[i] == gs[i];
  }

  lemma HasStep(gs: seq<Frame>, f: Frame, k: Kind)
    ensures Has(gs + [f], k) <==> Has(gs, k) || Is(f, k)
  {
    var fs := gs + [f];
    if Is(f, k) { assert Is(fs[|gs|], k); }
    if Has(gs, k) { var i :| 0 <= i < |gs| && Is(gs[i], k); assert Is(fs[i], k); }
  }

  /** `MayFollow`, read off the state. */
  predicate MayTake(c: Core, f: Frame) {
    && (c.ready ==> !Is(f, Stage) && !Is(f, Ready))
    && (Is(f, Stage) ==> c.elapsed <= Elapsed(f))
    && (Is(f, Commit) || Is(f, SettingsReloaded) ==> c.ready)
    && (c.commit ==> !Is(f, Commit))
  }

  lemma TakesStep(r: Reader, f: Frame, c: Core)
    requires c.status.Healthy? && c.elapsed >= -1
    ensures AcceptFrame(r, c, f).status.Healthy? <==> WellFormed(r, f) && MayTake(c, f)
  {
    hide Strip, IsAscii, Encodable, Utf8Length, Value.Shown;
    if f.Object? && f.bootId == Value.Text(r.boot) {
      match f.kind {
        case Stage => assert AcceptFrame(r, c, f) == AcceptStage(c, f);
        case Ready => assert AcceptFrame(r, c, f) == AcceptReady(c, f);
        case Commit => assert AcceptFrame(r, c, f) == AcceptCommit(r, c, f);
        case SettingsReloaded => assert AcceptFrame(r, c, f) == AcceptSettings(c, f);
        case Unknown =>
      }
    }
  }

  lemma TakesWhatFollows(gs: seq<Frame>, f: Frame, c: Core)
    requires Reports(c, gs) && (Is(f, Stage) ==> Elapsed(f) >= -1)
    ensures MayTake(c, f) <==> MayFollow(gs, f)
  {
    if Has(gs, Stage) {
      var i :| 0 <= i < |gs| && LastStage(gs, i) && Elapsed(gs[i]) == c.elapsed;
    }
  }

  /** The automaton accepts a frame exactly when it is well formed and may follow what the state reports. */
  lemma AcceptsStep(r: Reader, gs: seq<Frame>, f: Frame, c: Core)
    requires Reports(c, gs) && c.status.Healthy?
    ensures AcceptFrame(r, c, f).status.Healthy? <==> WellFormed(r, f) && MayFollow(gs, f)
  {
    TakesStep(r, f, c);
    if WellFormed(r, f) { TakesWhatFollows(gs, f, c); }
  }

  /** The fields an accepted frame changes. */
  predicate Changes(c: Core, d: Core, f: Frame) {
    && d.ready == (c.ready || Is(f, Ready)) && (if Is(f, Ready) then d.pid == f.pid.AsInt() else d.pid == c.pid)
    && d.commit == (c.commit || Is(f, Commit))
    && (if Is(f, Stage)
        then f.stage == Value.Text(d.stage) && f.elapsedMs.AsInt() == Some(d.elapsed) && d.elapsed >= c.elapsed
        else d.stage == c.stage && d.elapsed == c.elapsed)
    && d.results == c.results + AnswerOf(f)
  }

  lemma AcceptedChanges(r: Reader, c: Core, f: Frame)
    requires c.status.Healthy? && AcceptFrame(r, c, f).status.Healthy?
    ensures Changes(c, AcceptFrame(r, c, f), f)
  {
    hide Strip, IsAscii, Encodable, Utf8Length, Value.Shown;
    match f.kind {
      case Stage => assert AcceptFrame(r, c, f) == AcceptStage(c, f);
      case Ready => assert AcceptFrame(r, c, f) == AcceptReady(c, f);
      case Commit => assert AcceptFrame(r, c, f) == AcceptCommit(r, c, f);
      case SettingsReloaded => assert AcceptFrame(r, c, f) == AcceptSettings(c, f);
      case Unknown =>
    }
  }

  lemma StageStep(gs: seq<Frame>, f: Frame, c: Core, d: Core)
    requires ReportsStage(c, gs) && Changes(c, d, f)
    ensures ReportsStage(d, gs + [f])
  {
    hide Answers, Literal;
    var fs := gs + [f];
    assert fs[|gs|] == f && forall i :: 0 <= i < |gs| ==> fs[i] == gs[i];
    HasStep(gs, f, Stage);
    if Is(f, Stage) {
      assert LastStage(fs, |gs|);
    } else if Has(fs, Stage) {
      var i :| 0 <= i < |gs| && LastStage(gs, i) && Elapsed(gs[i]) == c.elapsed && gs[i].stage == Value.Text(c.stage);
      assert LastStage(fs, i);
    }
  }

  lemma ReportsStep(gs: seq<Frame>, f: Frame, c: Core, d: Core)
    requires Reports(c, gs) && Changes(c, d, f) && (Is(f, Ready) ==> !c.ready)
    ensures Reports(d, gs + [f])
  {
    var fs := gs + [f];
    assert fs[..|fs| - 1] == gs && fs[|gs|] == f;
    assert forall i :: 0 <= i < |gs| ==> fs[i] == gs[i];
    HasStep(gs, f, Ready);
    HasStep(gs, f, Commit);
    StageStep(gs, f, c, d);
    hide ReportsStage, Has;
  }

  lemma GrammarStep(r: Reader, gs: seq<Frame>, f: Frame)
    ensures Grammatical(r, gs + [f]) <==> Grammatical(r, gs) && WellFormed(r, f) && MayFollow(gs, f)
  {
    OrderStep(gs, f);
    var fs := gs + [f];
    assert fs[|gs|] == f;
    assert forall i :: 0 <= i < |gs| ==> fs[i] == gs[i];
  }

  lemma RunStep(r: Reader, gs: seq<Frame>, f: Frame, c: Core)
    requires Grammatical(r, gs) && Reports(c, gs) && c.status.Healthy?
    ensures AcceptFrame(r, c, f).status.Healthy? <==> Grammatical(r, gs + [f])
    ensures Grammatical(r, gs + [f]) ==> Reports(AcceptFrame(r, c, f), gs + [f])
  {
    GrammarStep(r, gs, f);
    AcceptsStep(r, gs, f, c);
    if Grammatical(r, gs + [f]) {
      AcceptedChanges(r, c, f);
      ReportsStep(gs, f, c, AcceptFrame(r, c, f));
    }
  }

  /** The automaton raises no error on exactly the lists of the grammar, and then reports what they hold. */
  lemma {:induction false} AutomatonDecidesGrammar(r: Reader, fs: seq<Frame>)
    ensures Run(r, fs).status.Healthy? <==> Grammatical(r, fs)
    ensures Grammatical(r, fs) ==> Reports(Run(r, fs), fs)
    decreases |fs|
  {
    if fs != [] {
      var gs, f := fs[..|fs| - 1], fs[|fs| - 1];
      assert fs == gs + [f];
      AutomatonDecidesGrammar(r, gs);
      GrammarStep(r, gs, f);
      if Grammatical(r, gs) {
        RunStep(r, gs, f, Run(r, gs));
      }
    }
  }

  // ----- From byte streams to lists of frames -----

  /** The non-empty lines of a stream that end with a newline. */
  function Lines(b: Bytes): seq<Bytes>
    decreases |b|
  {
    var i := Newline(b);
    if i == |b| then [] else AddLine(b[..i], Lines(b[i + 1..]))
  }

  function AddLine(raw: Bytes, lines: seq<Bytes>): seq<Bytes> {
    if raw == [] then lines else [raw] + lines
  }

  /** What follows the last newline. */
  function Tail(b: Bytes): Bytes
    decreases |b|
  {
    var i := Newline(b);
    if i == |b| then b else Tail(b[i + 1..])
  }

  /** Every line is short enough and decodes. */
  predicate Decodes(r: Reader, lines: seq<Bytes>) {
    forall i :: 0 <= i < |lines| ==> |lines[i]| <= 4096 && r.decode(lines[i]).Parsed?
  }

  function Frames(r: Reader, lines: seq<Bytes>): (fs: seq<Frame>)
    requires Decodes(r, lines)
    ensures |fs| == |lines| && forall i :: 0 <= i < |fs| ==> Parsed(fs[i]) == r.decode(lines[i])
  {
    seq(|lines|, i requires 0 <= i < |lines| => r.decode(lines[i]).frame)
  }

  /** A stream without any error: every line decodes, the frames form a sentence of the grammar, and at most an
      unfinished line of bounded length is left. */
  predicate Clean(r: Reader, b: Bytes, eof: bool) {
    && Decodes(r, Lines(b)) && Grammatical(r, Frames(r, Lines(b)))
    && |Tail(b)| <= 4096 && (eof ==> Tail(b) == [])
  }

  /** The automaton over raw lines; anything but a healthy state is final. */
  function RunLines(r: Reader, c: Core, lines: seq<Bytes>): Core
    decreases |lines|
  {
    if lines == [] || !c.status.Healthy? then c
    else if |lines[0]| > MAX_FRAME then Refuse(c, Oversized)
    else RunLines(r, Accept(r, c, lines[0]), lines[1..])
  }

  lemma RunLinesCons(r: Reader, c: Core, raw: Bytes, rest: seq<Bytes>)
    requires c.status.Healthy?
    ensures var d := if |raw| > MAX_FRAME then Refuse(c, Oversized) else Accept(r, c, raw);
            RunLines(r, c, [raw] + rest) == if d.status.Healthy? then RunLines(r, d, rest) else d
  {
    hide Accept;
    var lines := [raw] + rest;
    assert lines[1..] == rest;
    var d := if |raw| > MAX_FRAME then Refuse(c, Oversized) else Accept(r, c, raw);
    if !d.status.Healthy? { assert RunLines(r, d, rest) == d; }
  }

  lemma LinesStep(b: Bytes)
    requires Newline(b) < |b|
    ensures var i := Newline(b); Lines(b) == AddLine(b[..i], Lines(b[i + 1..])) && Tail(b) == Tail(b[i + 1..])
  {
    hide Newline, AddLine;
  }

  lemma NoLine(r: Reader, c: Core, b: Bytes)
    requires Newline(b) == |b|
    ensures Drain(r, State(c, b)) == State(c, b) && Lines(b) == [] && Tail(b) == b && RunLines(r, c, []) == c
  {}

  /** Draining a buffer runs the automaton over its lines. */
  lemma {:induction false} DrainRunsLines(r: Reader, c: Core, b: Bytes)
    requires c.status.Healthy?
    ensures var d, e := Drain(r, State(c, b)), RunLines(r, c, Lines(b));
            && (d.core.status.Healthy? <==> e.status.Healthy?)
            && (d.core.status.Healthy? ==> d == State(e, Tail(b)))
            && (d.core.status.Raised? <==> e.status.Raised?)
            && d.core.(status := Healthy) == e.(status := Healthy)
    decreases |b|
  {
    hide Accept, Newline, Lines, Tail, RunLines, Drain;
    var i := Newline(b);
    if i == |b| {
      NoLine(r, c, b);
      return;
    }
    LinesStep(b);
    DrainStep(r, State(c, b));
    var raw, rest := b[..i], b[i + 1..];
    if raw == [] {
      DrainRunsLines(r, c, rest);
      return;
    }
    RunLinesCons(r, c, raw, Lines(rest));
    var d := if |raw| > MAX_FRAME then Refuse(c, Oversized) else Accept(r, c, raw);
    if d.status.Healthy? {
      DrainRunsLines(r, d, rest);
    } else if d.status.Refused? {
      DrainRefused(r, State(d, rest));
    }
  }

  /** One frame more at the end. */
  lemma RunSnoc(r: Reader, fs: seq<Frame>, f: Frame)
    ensures Run(r, fs + [f]) == AcceptFrame(r, Run(r, fs), f)
  {
    assert (fs + [f])[..|fs|] == fs;
  }

  lemma {:induction false} RunSick(r: Reader, fs: seq<Frame>, gs: seq<Frame>)
    requires !Run(r, fs).status.Healthy?
    ensures !Run(r, fs + gs).status.Healthy?
    decreases |gs|
  {
    if gs == [] {
      assert fs + gs == fs;
    } else {
      assert fs + gs == (fs + gs[..|gs| - 1]) + [gs[|gs| - 1]];
      RunSick(r, fs, gs[..|gs| - 1]);
      RunSnoc(r, fs + gs[..|gs| - 1], gs[|gs| - 1]);
    }
  }

  lemma FramesCons(r: Reader, fs: seq<Frame>, lines: seq<Bytes>)
    requires lines != [] && |lines[0]| <= MAX_FRAME && r.decode(lines[0]).Parsed?
    ensures Decodes(r, lines) <==> Decodes(r, lines[1..])
    ensures Decodes(r, lines) ==> fs + Frames(r, lines) == fs + [r.decode(lines[0]).frame] + Frames(r, lines[1..])
  {
    assert forall i :: 0 <= i < |lines| - 1 ==> lines[i + 1] == lines[1..][i];
  }

  /** The automaton over raw lines is the automaton over the frames they decode to. */
  lemma {:induction false} LinesRunFrames(r: Reader, fs: seq<Frame>, lines: seq<Bytes>)
    requires Run(r, fs).status.Healthy?
    ensures var e := RunLines(r, Run(r, fs), lines);
            && (e.status.Healthy? <==> Decodes(r, lines) && Run(r, fs + Frames(r, lines)).status.Healthy?)
            && (e.status.Healthy? ==> e == Run(r, fs + Frames(r, lines)))
    decreases |lines|
  {
    if lines == [] {
      assert fs + Frames(r, lines) == fs;
      return;
    }
    var raw, rest := lines[0], lines[1..];
    if |raw| > MAX_FRAME || !r.decode(raw).Parsed? {
      return;
    }
    var f := r.decode(raw).frame;
    RunSnoc(r, fs, f);
    FramesCons(r, fs, lines);
    hide Frames, Decodes, Accept, Run;
    if Run(r, fs + [f]).status.Healthy? {
      LinesRunFrames(r, fs + [f], rest);
    } else if Decodes(r, rest) {
      RunSick(r, fs + [f], Frames(r, rest));
    }
  }

  lemma RunDecidesLines(r: Reader, lines: seq<Bytes>)
    ensures var e := RunLines(r, FRESH, lines);
            && (e.status.Healthy? <==> Decodes(r, lines) && Grammatical(r, Frames(r, lines)))
            && (e.status.Healthy? ==> Reports(e, Frames(r, lines)))
  {
    hide Accept, RunLines, Reports, InOrder, WellFormed;
    LinesRunFrames(r, [], lines);
    if Decodes(r, lines) {
      assert [] + Frames(r, lines) == Frames(r, lines);
      AutomatonDecidesGrammar(r, Frames(r, lines));
    }
  }

  /** One feed of a whole stream raises no error exactly when the stream is clean. */
  lemma FeedDecidesClean(r: Reader, b: Bytes, eof: bool)
    ensures var s := Feed(r, START, b, eof);
            && (s.core.status.Healthy? <==> Clean(r, b, eof))
            && (s.core.status.Healthy? ==> s.buffer == Tail(b) && Reports(s.core, Frames(r, Lines(b))))
  {
    hide Drain, RunLines, Lines, Tail, Decodes, Grammatical, Reports;
    assert START.buffer + b == b;
    DrainRunsLines(r, FRESH, b);
    RunDecidesLines(r, Lines(b));
  }

  /** However the stream of a boot is cut into reads, the reader ends without an error exactly when the stream is
      clean, and its fields are then those the grammar gives the whole list of frames. */
  lemma StreamDecidesClean(r: Reader, chunks: seq<Bytes>, eof: bool)
    ensures var s, b := FeedStream(r, START, chunks, eof), Flatten(chunks);
            && (s.core.status.Healthy? <==> Clean(r, b, eof))
            && (s.core.status.Healthy? ==> Reports(s.core, Frames(r, Lines(b))))
  {
    ChunkInvariance(r, START, chunks, eof);
    FeedDecidesClean(r, Flatten(chunks), eof);
  }

  // ----- The first line that does not fit -----

  /** The frame would be taken but for an exception: a nonce outside ASCII, or a detail with a lone surrogate. */
  predicate EscapingFrame(r: Reader, gs: seq<Frame>, f: Frame) {
    && f.Object? && f.bootId == Value.Text(r.boot) && Has(gs, Ready)
    && match f.kind
       case Commit =>
         && !Has(gs, Commit) && f.requestId.Text? && f.requestId.s != [] && Strip(f.requestId.s) == f.requestId.s
         && !(IsAscii(f.nonce.Shown()) && IsAscii(r.nonce))
       case SettingsReloaded => f.success.Bool? && Detail(f).Text? && !Encodable(Detail(f).s)
       case _ => false
  }

  /** After these frames the line raises: its decoding does, or what its frame is compared or encoded with. */
  predicate Escaping(r: Reader, gs: seq<Frame>, raw: Bytes) {
    && |raw| <= 4096
    && match r.decode(raw)
       case Escapes => true
       case NotJson => false
       case Parsed(f) => EscapingFrame(r, gs, f)
  }

  lemma StepRaises(r: Reader, gs: seq<Frame>, f: Frame, c: Core)
    requires Reports(c, gs) && c.status.Healthy?
    ensures var d := AcceptFrame(r, c, f);
            && (d.status.Raised? <==> EscapingFrame(r, gs, f))
            && (!d.status.Healthy? ==> d.(status := Healthy) == c)
  {
    hide Strip, IsAscii, Encodable, Utf8Length, Value.Shown, Has;
    if f.Object? && f.bootId == Value.Text(r.boot) {
      match f.kind {
        case Stage => assert AcceptFrame(r, c, f) == AcceptStage(c, f);
        case Ready => assert AcceptFrame(r, c, f) == AcceptReady(c, f);
        case Commit => assert AcceptFrame(r, c, f) == AcceptCommit(r, c, f);
        case SettingsReloaded => assert AcceptFrame(r, c, f) == AcceptSettings(c, f);
        case Unknown =>
      }
    }
  }

  /** The state a line leads to, the bound included. */
  function TakeLine(r: Reader, c: Core, raw: Bytes): Core {
    if |raw| > MAX_FRAME then Refuse(c, Oversized) else Accept(r, c, raw)
  }

  lemma LineRaises(r: Reader, gs: seq<Frame>, raw: Bytes, c: Core)
    requires Reports(c, gs) && c.status.Healthy?
    ensures var d := TakeLine(r, c, raw);
            && (d.status.Raised? <==> Escaping(r, gs, raw))
            && (!d.status.Healthy? ==> d.(status := Healthy) == c)
  {
    hide AcceptFrame, EscapingFrame, Reports;
    if r.decode(raw).Parsed? {
      StepRaises(r, gs, r.decode(raw).frame, c);
    }
  }

  lemma {:induction false} RunLinesSplit(r: Reader, c: Core, lines: seq<Bytes>, n: nat)
    requires n <= |lines|
    ensures var d := RunLines(r, c, lines[..n]);
            RunLines(r, c, lines) == if d.status.Healthy? then RunLines(r, d, lines[n..]) else d
    decreases n
  {
    hide Accept;
    if n == 0 || !c.status.Healthy? {
      assert lines[0..] == lines;
    } else {
      assert lines[..n][1..] == lines[1..][..n - 1] && lines[..n][0] == lines[0] && lines[1..][n - 1..] == lines[n..];
      if |lines[0]| <= MAX_FRAME { RunLinesSplit(r, Accept(r, c, lines[0]), lines[1..], n - 1); }
    }
  }

  /** These lines alone are a sentence. */
  predicate Good(r: Reader, lines: seq<Bytes>) {
    Decodes(r, lines) && Grammatical(r, Frames(r, lines))
  }

  /** A stream that is not clean has a first line that does not fit, or only too much or something unfinished after its
      last line. The reader then reports exactly the lines before, commit evidence aside, and an exception escapes
      exactly if that line is of the kind that raises. */
  lemma FirstOffence(r: Reader, b: Bytes, eof: bool) returns (n: nat)
    ensures var lines, c := Lines(b), Feed(r, START, b, eof).core;
            && n <= |lines| && Good(r, lines[..n])
            && (n < |lines| ==> !Good(r, lines[..n + 1]))
            && (c.status.Healthy? <==> n == |lines| && |Tail(b)| <= 4096 && (eof ==> Tail(b) == []))
            && (c.status.Raised? <==> n < |lines| && Escaping(r, Frames(r, lines[..n]), lines[n]))
            && Reports(c.(commit := Has(Frames(r, lines[..n]), Commit)), Frames(r, lines[..n]))
            && (c.status.Refused? ==> !c.commit)
  {
    hide Drain, RunLines, Lines, Tail, Reports, Escaping, Good, TakeLine;
    var lines := Lines(b);
    n := FirstBad(r, lines);
    GoodRuns(r, lines[..n]);
    GoodDecodes(r, lines[..n]);
    var gs, c := Frames(r, lines[..n]), RunLines(r, FRESH, lines[..n]);
    RunLinesSplit(r, FRESH, lines, n);
    var e := RunLines(r, FRESH, lines);
    if n < |lines| {
      GoodRuns(r, lines[..n + 1]);
      OneLineMore(r, c, lines, n);
      LineRaises(r, gs, lines[n], c);
    } else {
      assert lines[..n] == lines;
    }
    assert START.buffer + b == b;
    DrainRunsLines(r, FRESH, b);
    CommitAside(e, c, gs);
  }

  lemma CommitAside(e: Core, c: Core, gs: seq<Frame>)
    requires Reports(c, gs) && e.(status := Healthy, commit := false) == c.(status := Healthy, commit := false)
    ensures forall s, k :: Reports(e.(status := s, commit := Has(gs, Commit)), gs)
              && Reports(e.(status := s, commit := k).(commit := Has(gs, Commit)), gs)
  {}

  lemma GoodDecodes(r: Reader, lines: seq<Bytes>)
    requires Good(r, lines)
    ensures Decodes(r, lines)
  {
    hide Decodes, Grammatical;
  }

  /** And so for every way in which the stream is read. */
  lemma StreamOffence(r: Reader, chunks: seq<Bytes>, eof: bool) returns (n: nat)
    ensures var lines, c := Lines(Flatten(chunks)), FeedStream(r, START, chunks, eof).core;
            && n <= |lines| && Good(r, lines[..n])
            && (n < |lines| ==> !Good(r, lines[..n + 1]))
            && (c.status.Raised? <==> n < |lines| && Escaping(r, Frames(r, lines[..n]), lines[n]))
            && Reports(c.(commit := Has(Frames(r, lines[..n]), Commit)), Frames(r, lines[..n]))
            && (c.status.Refused? ==> !c.commit)
  {
    hide Lines, Reports, Escaping, Decodes, Grammatical, Feed, FeedStream;
    ChunkInvariance(r, START, chunks, eof);
    n := FirstOffence(r, Flatten(chunks), eof);
    var lines := Lines(Flatten(chunks));
    var a, b := FeedStream(r, START, chunks, eof).core, Feed(r, START, Flatten(chunks), eof).core;
    CommitAside(a, b.(commit := Has(Frames(r, lines[..n]), Commit)), Frames(r, lines[..n]));
  }

  lemma GoodRuns(r: Reader, lines: seq<Bytes>)
    ensures var e := RunLines(r, FRESH, lines);
            && (e.status.Healthy? <==> Good(r, lines))
            && (Good(r, lines) ==> Reports(e, Frames(r, lines)))
  {
    hide RunLines, Reports, Grammatical;
    RunDecidesLines(r, lines);
  }

  lemma OneLineMore(r: Reader, c: Core, lines: seq<Bytes>, n: nat)
    requires n < |lines| && c.status.Healthy? && c == RunLines(r, FRESH, lines[..n])
    requires !RunLines(r, FRESH, lines[..n + 1]).status.Healthy?
    ensures RunLines(r, FRESH, lines) == TakeLine(r, c, lines[n]) && !TakeLine(r, c, lines[n]).status.Healthy?
  {
    hide Accept, RunLines;
    RunLinesSplit(r, FRESH, lines, n);
    RunLinesSplit(r, FRESH, lines[..n + 1], n);
    assert lines[n..] == [lines[n]] + lines[n + 1..] && lines[..n + 1][..n] == lines[..n];
    assert lines[..n + 1][n..] == [lines[n]] + [];
    RunLinesCons(r, c, lines[n], lines[n + 1..]);
    RunLinesCons(r, c, lines[n], []);
    NoMoreLines(r, TakeLine(r, c, lines[n]));
  }

  lemma NoMoreLines(r: Reader, c: Core)
    ensures RunLines(r, c, []) == c
  {}

  lemma FirstBad(r: Reader, lines: seq<Bytes>) returns (n: nat)
    ensures n <= |lines| && Good(r, lines[..n]) && (n < |lines| ==> !Good(r, lines[..n + 1]))
  {
    hide Good;
    n := 0;
    assert Good(r, lines[..0]) by { NothingIsGood(r, lines); }
    while n < |lines| && Good(r, lines[..n + 1])
      invariant n <= |lines| && Good(r, lines[..n])
    {
      n := n + 1;
    }
  }

  lemma NothingIsGood(r: Reader, lines: seq<Bytes>)
    ensures Good(r, lines[..0])
  {}
}
