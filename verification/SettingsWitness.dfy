/** A run in which one reload is reported as failed and then as done. */
module SettingsWitness {
  import opened Text
  import opened Lifecycle
  import opened BridgeRules
  import opened Supervisor
  import opened Settings

  const READY: Frame := Object(Value.Text([98]), Ready, Null, Null, Int(1), Null, Null, Null, None)
  const COMMIT: Frame :=
      Object(Value.Text([98]), Commit, Null, Null, Null, Value.Text([114]), Value.Text([110]), Null, None)

  function Decode(b: Bytes): Decoded {
    if |b| != 1 then NotJson else if b[0] == 1 then Parsed(READY) else if b[0] == 2 then Parsed(COMMIT) else NotJson
  }

  const READER: Reader := Reader([98], [110], Decode)

  const SERVING: Core := FRESH.(ready := true, pid := Some(1))
  const LEAVING: Core := SERVING.(commit := true)

  lemma OneLine(c: Core, x: Byte, d: Core)
    requires x != NEWLINE && Accept(READER, c, [x]) == d && d.status.Healthy?
    ensures Feed(READER, State(c, []), [x, NEWLINE], false) == State(d, [])
  {
    hide Accept;
    var s := State(c, [x, NEWLINE]);
    assert [] + [x, NEWLINE] == s.buffer;
    NewlineAt(s.buffer, 1);
    assert s.buffer[..1] == [x] && s.buffer[2..] == [];
    DrainStep(READER, s);
  }

  lemma ReadyAccepted()
    ensures Accept(READER, FRESH, [1]) == SERVING
  {
    assert READER.decode([1]) == Parsed(READY);
    assert AcceptFrame(READER, FRESH, READY) == AcceptReady(FRESH, READY);
  }

  lemma CommitAccepted()
    ensures Accept(READER, SERVING, [2]) == LEAVING
  {
    var raw: Bytes := [2];
    assert READER.decode(raw) == Parsed(COMMIT);
    CommitReached(READER, SERVING, raw, COMMIT);
    hide Accept;
    assert IsAscii(READER.nonce);
    StripFixpoint([114]);
    hide Strip, IsAscii;
    CommitTaken(READER, SERVING, COMMIT, [114]);
    hide AcceptCommit;
  }

  lemma CommitReached(r: Reader, c: Core, raw: Bytes, f: Frame)
    requires r.decode(raw) == Parsed(f) && f.Object? && f.kind == Commit && f.bootId == Value.Text(r.boot)
             && c.status.Healthy?
    ensures Accept(r, c, raw) == AcceptCommit(r, c, f)
  {
    hide AcceptCommit;
  }

  lemma CommitTaken(r: Reader, c: Core, f: Frame, id: Str)
    requires f.Object? && f.requestId == Value.Text(id) && f.nonce == Value.Text(r.nonce)
    requires id != [] && Strip(id) == id && IsAscii(r.nonce) && c.ready && !c.commit
    ensures AcceptCommit(r, c, f) == c.(commit := true)
  {
    hide Strip, Decimal, IsAscii;
  }

  lemma Lines()
    ensures Feed(READER, START, [1, NEWLINE], false) == State(SERVING, [])
    ensures Feed(READER, State(SERVING, []), [2, NEWLINE], false) == State(LEAVING, [])
    ensures Feed(READER, START, [1, NEWLINE, 2, NEWLINE], false) == State(LEAVING, [])
  {
    hide Feed, Accept;
    ReadyAccepted();
    CommitAccepted();
    OneLine(FRESH, 1, SERVING);
    OneLine(SERVING, 2, LEAVING);
    FeedTwice(READER, START, [1, NEWLINE], [2, NEWLINE], false);
    assert [1, NEWLINE] + [2, NEWLINE] == [1, NEWLINE, 2, NEWLINE];
  }

  lemma Ends(c: Core)
    requires c.status.Healthy?
    ensures Feed(READER, State(c, []), [], true) == State(c, [])
  {
    var none: Bytes := [];
    assert none + none == none;
  }

  /** Ready, a reload request, a commit: the request is carried to the next boot. */
  const ASKED: Script := Script(false, READER,
    [Turn(false, [PipeData([1, NEWLINE])], Ours), Turn(false, [WakePipe(1, Sent), PipeData([2, NEWLINE])], Ours)],
    [EndOfFile], 75, false, 0)

  /** Ready and commit are found only after the guardian has exited. */
  const HASTY: Script := Script(false, READER, [], [Data([1, NEWLINE, 2, NEWLINE]), EndOfFile], 75, false, 0)

  /** An ordinary start. */
  const CALM: Script := Script(false, READER, [Turn(false, [PipeData([1, NEWLINE])], Ours)], [EndOfFile], 0, false, 0)

  const CARRIED: Hand := Hand(Bridge(1, 1, false, 0, map[]), 1, [Took(1)])

  const SERVED: Wait := Wait(State(SERVING, []), 0, 0, true, true, IDLE, [], [1, NEWLINE])
  const ASKED_FOR: Wait := SERVED.(bridge := CARRIED.bridge, gen := 1, log := [Took(1)])
  const LEFT: Wait := ASKED_FOR.(life := State(LEAVING, []), stream := [1, NEWLINE, 2, NEWLINE])

  lemma FirstTurn()
    ensures OneTurn(READER, Enter(FIRST), ASKED.turns[0]) == SERVED
  {
    Lines();
    hide Feed;
    var w := Enter(FIRST);
    var e: seq<Event> := [PipeData([1, NEWLINE])];
    assert e[1..] == [];
    assert OnEvents(READER, w, e) == OnEvents(READER, OnData(READER, w, [1, NEWLINE]), []);
  }

  lemma Asking()
    ensures OnWake(SERVED, 1, Sent) == ASKED_FOR
  {
    assert Arrive(IDLE, 1) == Bridge(1, 1, true, 1, map[]) by { assert Arrive(Request(IDLE).0, 0) == Request(IDLE).0; }
  }

  lemma SecondTurn()
    ensures OneTurn(READER, SERVED, ASKED.turns[1]) == LEFT
  {
    Lines();
    Asking();
    hide Feed, OnWake;
    assert OnData(READER, ASKED_FOR, [2, NEWLINE]) == LEFT;
    hide OnData;
    var f: seq<Event> := [WakePipe(1, Sent), PipeData([2, NEWLINE])];
    assert f[1..] == [PipeData([2, NEWLINE])] && f[1..][1..] == [];
    assert OnEvents(READER, SERVED, f) == OnEvents(READER, ASKED_FOR, f[1..]);
    assert OnEvents(READER, ASKED_FOR, f[1..]) == OnEvents(READER, LEFT, []);
  }

  lemma AskedBoot()
    ensures var b := RunBoot(ASKED, FIRST); b.decision == Again(Restart) && b.after == CARRIED && b.waited.report == 0
  {
    FirstTurn();
    SecondTurn();
    Ends(LEAVING);
    hide Feed, OneTurn;
    assert ASKED.turns[1..] == [ASKED.turns[1]] && ASKED.turns[1..][1..] == [];
    assert Turns(READER, SERVED, ASKED.turns[1..]) == Turns(READER, LEFT, []);
    assert Turns(READER, Enter(FIRST), ASKED.turns) == LEFT;
  }

  lemma HastyBoot()
    ensures var b := RunBoot(HASTY, CARRIED); b.decision == Again(Restart) && HandsFailedOn(b) && b.after.report == 1
  {
    Lines();
    Ends(LEAVING);
    hide Feed;
    var w := Enter(CARRIED);
    var all: Bytes := [1, NEWLINE, 2, NEWLINE];
    assert HASTY.pipe[1..] == [EndOfFile] && [] + all == all;
    assert ExitDrain(READER, START, [], HASTY.pipe) == ExitDrain(READER, State(LEAVING, []), all, [EndOfFile]);
    assert ExitDrain(READER, State(LEAVING, []), all, [EndOfFile]) == Drained(State(LEAVING, []), all, true);
  }

  lemma CalmBoot(h: Hand)
    requires h.report == 1
    ensures SettlesOwed(RunBoot(CALM, h))
  {
    Lines();
    Ends(SERVING);
    hide Feed;
    var w := Enter(h);
    var e: seq<Event> := [PipeData([1, NEWLINE])];
    assert e[1..] == [];
    assert OnEvents(READER, w, e) == OnEvents(READER, OnData(READER, w, [1, NEWLINE]), []);
    var a := OneTurn(READER, w, CALM.turns[0]);
    assert a.report == 0;
    assert CALM.turns[1..] == [];
    assert Turns(READER, w, CALM.turns) == Turns(READER, a, []);
    assert Turns(READER, a, []) == a;
  }

  /** One reload, settled both ways. */
  lemma OneReloadBothWays()
    ensures exists boots: seq<Boot> :: Boots(boots) && |boots| == 3 && Mixed(boots[2].after.log)
  {
    AskedBoot();
    HastyBoot();
    var a := RunBoot(ASKED, FIRST);
    var b := RunBoot(HASTY, a.after);
    var c := RunBoot(CALM, b.after);
    CalmBoot(b.after);
    Plays(ASKED, FIRST);
    Plays(HASTY, a.after);
    Plays(CALM, b.after);
    var boots := [a, b, c];
    hide RunBoot, Mixed, HandsFailedOn, SettlesOwed;
    assert Follows(boots, 0) && Follows(boots, 1) && Follows(boots, 2);
    assert Boots(boots);
    assert FailedThenSettled(boots, 2);
    MixedExactlyAfterHandOn(boots, 2);
  }
}
