/** End to end: from the gate that waits for the roots, over the channel and the pipe, to the supervisor's decision
    to start another boot. */
module QuietRestart {
  import opened Text
  import opened Lifecycle
  import opened Grammar
  import opened Channel
  import opened Supervisor
  import opened Handshake
  import GateRules
  import GateRuns

  /** The request ids of the commit frames of a list, in order. */
  function CommitIds(outs: seq<Out>): seq<Str> {
    if outs == [] then [] else (if outs[0].CommitOut? then [outs[0].id] else []) + CommitIds(outs[1..])
  }

  function FrameIds(frames: seq<GateRuns.Frame>): seq<Str> {
    seq(|frames|, i requires 0 <= i < |frames| => frames[i].id)
  }

  lemma {:induction false} FirstCommit(outs: seq<Out>, j: nat)
    requires j < |outs| && outs[j].CommitOut? && forall i :: 0 <= i < j ==> !outs[i].CommitOut?
    ensures |CommitIds(outs)| > 0 && CommitIds(outs)[0] == outs[j].id
    decreases j
  {
    if j > 0 { FirstCommit(outs[1..], j - 1); }
  }

  /** The commit frame a trusted stream holds, found among the frames the channel wrote. */
  lemma TrustedCommit(r: Reader, ch: Channel, outs: seq<Out>, stream: Bytes) returns (j: nat)
    requires Trusted(r, stream) && stream <= Output(ch, outs) && Inverts(r, ch, outs)
    requires forall i :: 0 <= i < |outs| ==> Emittable(ch, outs[i])
    ensures j < |outs| && outs[j].CommitOut? && forall i :: 0 <= i < j ==> !outs[i].CommitOut?
  {
    hide Render, Lines, Output, Emittable, Grammatical, Tail, Frames, Decodes;
    var n := LinesOfPrefix(ch, outs, stream);
    var sent := outs[..n];
    assert forall i :: 0 <= i < |sent| ==> sent[i] == outs[i];
    assert Inverts(r, ch, sent);
    RendersDecode(r, ch, sent);
    var fs := Meanings(ch, sent);
    assert fs == Frames(r, Lines(stream));
    var i: nat, k: nat :| i < k && OnlyAt(fs, Ready, i) && OnlyAt(fs, Commit, k);
    assert OnlyAt(fs, Commit, k);
    forall h | 0 <= h < k ensures !outs[h].CommitOut? {
      assert Is(fs[h], Commit) <==> outs[h].CommitOut?;
    }
    j := k;
  }

  /** Boot `k` was followed by a restart, its stream is what its channel wrote as far as it was read, and the commit
      frames of its channel are those of its gate. */
  ghost predicate Joined(boots: seq<Boot>, k: nat, ch: Channel, outs: seq<Out>, c: GateRules.Config,
                         steps: seq<GateRuns.Step>) {
    && Boots(boots) && k + 1 < |boots| && boots[k].decision == Again(Restart)
    && boots[k].waited.stream <= Output(ch, outs) && Inverts(boots[k].script.reader, ch, outs)
    && (forall i :: 0 <= i < |outs| ==> Emittable(ch, outs[i]))
    && CommitIds(outs) == FrameIds(GateRuns.Run(c, GateRuns.BEGIN, steps).frames)
  }

  /** The commit frame behind a restart is the first one written. */
  lemma RestartCommit(boots: seq<Boot>, k: nat, ch: Channel, outs: seq<Out>) returns (j: nat)
    requires Boots(boots) && k + 1 < |boots| && boots[k].decision == Again(Restart)
    requires boots[k].waited.stream <= Output(ch, outs) && Inverts(boots[k].script.reader, ch, outs)
    requires forall i :: 0 <= i < |outs| ==> Emittable(ch, outs[i])
    ensures j < |outs| && outs[j].CommitOut? && forall i :: 0 <= i < j ==> !outs[i].CommitOut?
    ensures |CommitIds(outs)| > 0 && CommitIds(outs)[0] == outs[j].id
  {
    hide Boots, Output, Inverts, Emittable, Trusted;
    RestartIsTrusted(boots, k);
    j := TrustedCommit(boots[k].script.reader, ch, outs, boots[k].waited.stream);
    FirstCommit(outs, j);
  }

  /** The first commit frame of the list is for this request. */
  predicate CommitsFirst(outs: seq<Out>, id: Str) {
    exists j :: 0 <= j < |outs| && outs[j] == CommitOut(id) && forall i :: 0 <= i < j ==> !outs[i].CommitOut?
  }

  /** The commit frame that lets a boot restart is the first that its gate wrote, and it was written over no live root
      exactly when that write found the drained event set. */
  lemma RestartFollowsFirstFrame(boots: seq<Boot>, k: nat, ch: Channel, outs: seq<Out>, c: GateRules.Config,
                                 steps: seq<GateRuns.Step>)
    requires Joined(boots, k, ch, outs, c, steps)
    ensures var w := GateRuns.Run(c, GateRuns.BEGIN, steps);
            && |w.frames| > 0
            && (w.frames[0].live == 0 <==> GateRuns.FirstWriteDrained(c, GateRuns.BEGIN, steps))
            && CommitsFirst(outs, w.frames[0].id)
  {
    hide Boots, Output, Inverts, Emittable, CommitIds, GateRuns.Run, GateRuns.FirstWriteDrained, GateRuns.Sound;
    var j := RestartCommit(boots, k, ch, outs);
    var w := GateRuns.Run(c, GateRuns.BEGIN, steps);
    assert FrameIds(w.frames)[0] == w.frames[0].id;
    GateRuns.BeginSound();
    GateRuns.FirstFrameIsQuietIffDrained(c, GateRuns.BEGIN, steps);
    assert outs[j] == CommitOut(w.frames[0].id);
  }

  /** When moreover commit calls for one request never overlapped and nobody aborted a request while its commit waited,
      that frame was written while no external root was live. */
  lemma RestartIsQuiet(boots: seq<Boot>, k: nat, ch: Channel, outs: seq<Out>, c: GateRules.Config,
                       steps: seq<GateRuns.Step>)
    requires Joined(boots, k, ch, outs, c, steps) && GateRuns.DisciplinedRun(c, GateRuns.BEGIN, steps)
    ensures var w := GateRuns.Run(c, GateRuns.BEGIN, steps);
            && |w.frames| > 0 && w.frames[0].live == 0
            && CommitsFirst(outs, w.frames[0].id)
  {
    hide Joined, CommitsFirst, GateRuns.Run, GateRuns.DisciplinedRun;
    hide GateRuns.NoRepeat, GateRuns.NoneLoud, GateRuns.FirstWriteDrained;
    RestartFollowsFirstFrame(boots, k, ch, outs, c, steps);
    GateRuns.DisciplinedCommitsAreQuiet(c, GateRuns.BEGIN, steps);
    var w := GateRuns.Run(c, GateRuns.BEGIN, steps);
    assert w.frames[0] in w.frames;
  }
}
