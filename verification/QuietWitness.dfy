/** A run that meets everything the theorem about quiet restarts asks for: a root is live when the restart is prepared,
    the commit waits for it, and the frames reach the supervisor through the exit drain. */
module QuietWitness {
  import opened Text
  import opened Lifecycle
  import opened Grammar
  import opened Channel
  import opened Supervisor
  import opened Handshake
  import opened QuietRestart
  import GateRules
  import GateRuns
  import Json

  /** A boot id and a nonce of 32 characters. */
  const CH: Channel := Channel(Repeat(98), Repeat(110))
  const READY: Out := ReadyOut(1)
  const COMMIT: Out := CommitOut(GateRuns.REQUEST)
  const OUTS: seq<Out> := [READY, COMMIT]

  function Repeat(c: CodePoint): Str {
    seq(32, i => c)
  }

  const READER: Reader := Reader(CH.boot, CH.nonce, Json.Decode)

  // ----- The bytes -----

  lemma LineLengths()
    ensures |Render(CH, READY)| == 68 && |Render(CH, COMMIT)| == 120
  {
    hide Render, Payload, Decimal;
    LineLength(CH, READY);
    LineLength(CH, COMMIT);
    ReadyLength(CH, 1);
    CommitLength(CH, GateRuns.REQUEST);
    assert |Decimal(1)| == 1 by { OneDigit(); }
  }

  lemma OneDigit()
    ensures |Decimal(1)| == 1
  {}

  lemma OutsEmittable()
    ensures forall i :: 0 <= i < |OUTS| ==> Emittable(CH, OUTS[i])
    ensures Inverts(READER, CH, OUTS)
  {
    hide Render, Strip, Meaning, Json.Decode, Json.Sendable, Inverts;
    LineLengths();
    StripFixpoint(GateRuns.REQUEST);
    OutsSendable();
    Json.DecodeInverts(CH, OUTS);
  }

  lemma OutsSendable()
    ensures forall i :: 0 <= i < |OUTS| ==> Json.Sendable(CH, OUTS[i])
  {}

  lemma OutsOrdered()
    ensures Ordered(OUTS) && AllFit(OUTS)
  {
    assert OUTS[0].ReadyOut? && OUTS[1].CommitOut? && |OUTS| == 2;
  }

  lemma OutputOfTwo(ch: Channel, a: Out, b: Out)
    ensures |Output(ch, [a, b])| == |Render(ch, a)| + |Render(ch, b)| + 2
  {
    hide Render;
    assert [a, b][1..] == [b] && [b][1..] == [];
    assert |Output(ch, [b])| == |Render(ch, b)| + 1;
  }

  lemma OutputLength()
    ensures |Output(CH, OUTS)| == 190
  {
    hide Render, Output;
    LineLengths();
    OutputOfTwo(CH, READY, COMMIT);
  }

  // ----- The boots -----

  function Pipe(): seq<Read>
    requires Output(CH, OUTS) != []
  {
    [Data(Output(CH, OUTS)), EndOfFile]
  }

  function First(): Script
    requires Output(CH, OUTS) != []
  {
    Script(false, READER, [], Pipe(), RESTART_EXIT_CODE, false, 0)
  }

  const LAST: Script := Script(true, READER, [], [], 0, false, 0)

  lemma OneRead(r: Reader, bytes: Bytes)
    ensures var t := Feed(r, START, bytes, false);
            && FeedStream(r, START, [bytes], false) == t
            && (!t.core.status.Raised? ==> FeedStream(r, START, [bytes], true) == Feed(r, t, [], true))
            && Flatten([bytes]) == bytes
  {
    hide Feed;
    var one: seq<Bytes> := [bytes];
    assert one[1..] == [];
    assert Flatten(one) == bytes + [] == bytes;
    assert FeedAll(r, START, one) == Feed(r, START, bytes, false);
  }

  lemma Accepted()
    ensures var t := Feed(READER, START, Output(CH, OUTS), false);
            t.core.status.Healthy? && Feed(READER, t, [], true).core.status.Healthy?
    ensures Clean(READER, Output(CH, OUTS), false)
  {
    hide Output, Feed, FeedStream, Inverts, Emittable, Clean, Reports, Ordered, AllFit, Flatten, IsAscii;
    var bytes := Output(CH, OUTS);
    OutsEmittable();
    OutsOrdered();
    assert IsAscii(READER.nonce) by { AsciiNonce(); }
    OneRead(READER, bytes);
    ReaderAcceptsWriter(READER, CH, OUTS, [bytes], true);
    ReaderAcceptsWriter(READER, CH, OUTS, [bytes], false);
    StreamDecidesClean(READER, [bytes], false);
  }

  lemma AsciiNonce()
    ensures IsAscii(READER.nonce)
  {}

  lemma StreamIsTrusted()
    ensures Trusted(READER, Output(CH, OUTS))
  {
    hide Render, Lines, Output, Clean, Emittable, Grammatical, Tail, Decodes, Frames, Meanings;
    hide Trusted, Inverts, OnlyAt;
    Accepted();
    OutsEmittable();
    var bytes := Output(CH, OUTS);
    var n := LinesOfPrefix(CH, OUTS, bytes);
    assert OUTS[..n] == OUTS;
    RendersDecode(READER, CH, OUTS);
    TwoFrames();
    IsTrusted(READER, bytes, 0, 1);
  }

  lemma TwoFrames()
    ensures OnlyAt(Meanings(CH, OUTS), Ready, 0) && OnlyAt(Meanings(CH, OUTS), Commit, 1)
  {
    assert Meanings(CH, OUTS) == [Meaning(CH, READY), Meaning(CH, COMMIT)];
  }

  lemma IsTrusted(r: Reader, stream: Bytes, i: nat, j: nat)
    requires Clean(r, stream, false) && Decodes(r, Lines(stream)) && i < j
    requires OnlyAt(Frames(r, Lines(stream)), Ready, i) && OnlyAt(Frames(r, Lines(stream)), Commit, j)
    ensures Trusted(r, stream)
  {
    hide Clean, Decodes, Lines, Frames, OnlyAt;
  }

  lemma DrainReads()
    ensures Output(CH, OUTS) != []
    ensures var b := RunBoot(First(), FIRST);
            b.decision == Again(Restart) && b.waited.stream == Output(CH, OUTS)
  {
    OutputLength();
    Accepted();
    StreamIsTrusted();
    hide Output, Feed, Trusted;
    var bytes := Output(CH, OUTS);
    var t := Feed(READER, START, bytes, false);
    var end := Feed(READER, t, [], true);
    assert Pipe()[1..] == [EndOfFile] && [] + bytes == bytes;
    assert ExitDrain(READER, START, [], Pipe()) == ExitDrain(READER, t, bytes, [EndOfFile]);
    assert ExitDrain(READER, t, bytes, [EndOfFile]) == Drained(end, bytes, true);
    RestartExactlyOnEvidence(First(), FIRST);
  }

  // ----- The gate -----

  /** The two last steps: the root goes and the commit writes. */
  const END: seq<GateRuns.Step> := [GateRuns.DropPermit(0), GateRuns.ResumeCommit(0, true)]
  const STEPS: seq<GateRuns.Step> := GateRuns.PREFIX + END

  lemma DisciplinedCons(c: GateRules.Config, w: GateRuns.World, s: GateRuns.Step, steps: seq<GateRuns.Step>)
    requires GateRuns.Disciplined(w, s) && GateRuns.DisciplinedRun(c, GateRuns.Next(c, w, s), steps)
    ensures GateRuns.DisciplinedRun(c, w, [s] + steps)
  {
    hide GateRuns.Next;
    assert ([s] + steps)[1..] == steps;
  }

  lemma {:induction false} DisciplinedAppend(c: GateRules.Config, w: GateRuns.World, a: seq<GateRuns.Step>,
                                             b: seq<GateRuns.Step>)
    requires GateRuns.DisciplinedRun(c, w, a) && GateRuns.DisciplinedRun(c, GateRuns.Run(c, w, a), b)
    ensures GateRuns.DisciplinedRun(c, w, a + b)
    decreases |a|
  {
    hide GateRuns.Next;
    if a == [] {
      assert a + b == b;
    } else {
      assert (a + b)[1..] == a[1..] + b;
      DisciplinedAppend(c, GateRuns.Next(c, w, a[0]), a[1..], b);
    }
  }

  /** Steps that neither call nor abort need no discipline. */
  lemma {:induction false} FreeSteps(c: GateRules.Config, w: GateRuns.World, steps: seq<GateRuns.Step>)
    requires forall i :: 0 <= i < |steps| ==> !steps[i].CallCommit? && !steps[i].AbortRequest?
    ensures GateRuns.DisciplinedRun(c, w, steps)
    decreases |steps|
  {
    hide GateRuns.Next;
    if steps != [] { FreeSteps(c, GateRuns.Next(c, w, steps[0]), steps[1..]); }
  }

  lemma {:induction false} NobodyCalls(c: GateRules.Config, w: GateRuns.World, steps: seq<GateRuns.Step>)
    requires w.calls == map[] && forall i :: 0 <= i < |steps| ==> !steps[i].CallCommit?
    ensures GateRuns.Run(c, w, steps).calls == map[]
    decreases |steps|
  {
    hide GateRuns.Live, GateRules.ValidId;
    if steps != [] { NobodyCalls(c, GateRuns.Next(c, w, steps[0]), steps[1..]); }
  }

  lemma StepsAreDisciplined()
    ensures GateRuns.DisciplinedRun(GateRuns.SUPERVISED, GateRuns.BEGIN, STEPS)
  {
    var c, w := GateRuns.SUPERVISED, GateRuns.BEGIN;
    var a := [GateRuns.TakePermit, GateRuns.PrepareRestart(GateRuns.REQUEST)];
    var call := GateRuns.CallCommit(0, GateRuns.REQUEST, true);
    FreeSteps(c, w, a);
    NobodyCalls(c, w, a);
    var v := GateRuns.Run(c, w, a);
    hide GateRuns.Next, GateRuns.Run;
    FreeSteps(c, GateRuns.Next(c, v, call), END);
    DisciplinedCons(c, v, call, END);
    hide GateRuns.DisciplinedRun;
    DisciplinedAppend(c, w, a, [call] + END);
    assert a + ([call] + END) == STEPS;
  }

  lemma OneQuietFrame()
    ensures GateRuns.Run(GateRuns.SUPERVISED, GateRuns.BEGIN, STEPS).frames == [GateRuns.Frame(GateRuns.REQUEST, 0)]
  {
    hide GateRuns.Run, GateRuns.Next, GateRuns.Live, GateRules.ValidId;
    var c, w := GateRuns.SUPERVISED, GateRuns.ONE_WAITS;
    GateRuns.PrefixWaits();
    GateRuns.RunAppend(c, GateRuns.BEGIN, GateRuns.PREFIX, END);
    var a := GateRuns.Next(c, w, GateRuns.DropPermit(0));
    GateRuns.RunCons(c, w, GateRuns.DropPermit(0), [GateRuns.ResumeCommit(0, true)]);
    GateRuns.RunCons(c, a, GateRuns.ResumeCommit(0, true), []);
    RunNothing(c, GateRuns.Next(c, a, GateRuns.ResumeCommit(0, true)));
    assert [GateRuns.DropPermit(0)] + [GateRuns.ResumeCommit(0, true)] == END;
    assert [GateRuns.ResumeCommit(0, true)] + [] == [GateRuns.ResumeCommit(0, true)];
    GateRuns.LastDrop(w);
    GateRuns.ResumeWrites(a, 0);
    GateRuns.LiveSnoc([], GateRuns.Permit([], false));
    NothingLives();
  }

  lemma RunNothing(c: GateRules.Config, w: GateRuns.World)
    ensures GateRuns.Run(c, w, []) == w
  {}

  lemma NothingLives()
    ensures GateRuns.Live([GateRuns.Permit([], false)]) == 0
  {}

  // ----- Everything together -----

  lemma TwoBoots() returns (boots: seq<Boot>)
    ensures |boots| == 2 && Boots(boots) && boots[0].decision == Again(Restart)
    ensures boots[0].waited.stream == Output(CH, OUTS) && boots[0].script.reader == READER
  {
    DrainReads();
    hide RunBoot, Output;
    var a := RunBoot(First(), FIRST);
    var b := RunBoot(LAST, a.after);
    Plays(First(), FIRST);
    Plays(LAST, a.after);
    boots := [a, b];
    assert Follows(boots, 0) && Follows(boots, 1);
  }

  lemma OneRootWaits()
    ensures GateRuns.Live(GateRuns.Run(GateRuns.SUPERVISED, GateRuns.BEGIN, GateRuns.PREFIX).permits) == 1
  {
    hide GateRuns.Run;
    GateRuns.PrefixWaits();
    GateRuns.LiveSnoc([], GateRuns.Permit([], true));
    assert [] + [GateRuns.Permit([], true)] == GateRuns.ONE_WAITS.permits;
  }

  /** All the hypotheses hold of one run, in which a root was live when the restart was prepared. */
  lemma QuietRun() returns (boots: seq<Boot>)
    ensures Joined(boots, 0, CH, OUTS, GateRuns.SUPERVISED, STEPS)
    ensures GateRuns.DisciplinedRun(GateRuns.SUPERVISED, GateRuns.BEGIN, STEPS)
    ensures GateRuns.Live(GateRuns.Run(GateRuns.SUPERVISED, GateRuns.BEGIN, GateRuns.PREFIX).permits) == 1
  {
    hide Boots, Output, Inverts, Emittable, CommitIds, FrameIds, GateRuns.Run, GateRuns.DisciplinedRun, GateRuns.Live;
    boots := TwoBoots();
    StepsAreDisciplined();
    OneQuietFrame();
    OneRootWaits();
    OutsEmittable();
    IdsAgree();
  }

  lemma IdsAgree()
    ensures CommitIds(OUTS) == [GateRuns.REQUEST] == FrameIds([GateRuns.Frame(GateRuns.REQUEST, 0)])
  {
    assert OUTS[1..] == [COMMIT] && [COMMIT][1..] == [];
    assert CommitIds([COMMIT]) == [GateRuns.REQUEST] + [];
    assert CommitIds(OUTS) == [] + CommitIds([COMMIT]);
  }
}
