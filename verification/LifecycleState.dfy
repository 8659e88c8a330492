/** The supervisor's reader as the object it is: fields and a byte buffer updated in place, each method proved
    against the functions of `Lifecycle`. */
module LifecycleReader {
  import opened Text
  import opened Lifecycle

  class LifecycleState {
    const reader: Reader
    var ready: bool
    var gatewayPid: Option<int>
    var commitValid: bool
    var lastStage: Str
    var lastElapsedMs: int
    var protocolError: Option<Refusal>
    var buffer: Bytes
    var settingsResults: seq<(bool, Str)>

    /** The abstract state; `raised` tells whether an exception has just left a method. */
    function Now(raised: bool): State
      reads this
    {
      State(Core(ready, gatewayPid, commitValid, lastStage, lastElapsedMs, settingsResults,
                 if raised then Raised else if protocolError.Some? then Refused(protocolError.value) else Healthy),
            buffer)
    }

    constructor (reader: Reader)
      ensures this.reader == reader && Now(false) == START
    {
      this.reader := reader;
      ready, gatewayPid, commitValid := false, None, false;
      lastStage, lastElapsedMs := Literal("guardian.spawn"), -1;
      protocolError, buffer, settingsResults := None, [], [];
    }

    method Feed(payload: Bytes, eof: bool) returns (raised: bool)
      modifies this
      ensures Now(raised) == Lifecycle.Feed(reader, old(Now(false)), payload, eof)
    {
      buffer := buffer + payload;
      raised := TakeLines();
      if raised {
        return;
      }
      if |buffer| > MAX_FRAME && protocolError.None? {
        protocolError := Some(Oversized);
      }
      if eof && buffer != [] && protocolError.None? {
        protocolError := Some(Unfinished);
      }
      if protocolError.Some? {
        commitValid := false;
      }
    }

    /** The loop of `Feed`. */
    method TakeLines() returns (raised: bool)
      modifies this
      ensures Now(raised) == Drain(reader, old(Now(false)))
    {
      raised := false;
      ghost var whole := Drain(reader, Now(false));
      while Newline(buffer) < |buffer|
        invariant !raised && Drain(reader, Now(false)) == whole
        decreases |buffer|
      {
        ghost var s := Now(false);
        var i := Newline(buffer);
        var raw := buffer[..i];
        buffer := buffer[i + 1..];
        ghost var c := Lifecycle.Accept(reader, s.core, raw);
        assert whole == if raw == [] then Drain(reader, State(s.core, buffer))
                        else if |raw| > MAX_FRAME then State(Refuse(s.core, Oversized), buffer)
                        else if c.status.Raised? then State(c, buffer) else Drain(reader, State(c, buffer));
        if raw != [] {
          if |raw| > MAX_FRAME {
            protocolError := Some(Oversized);
            return;
          }
          raised := Accept(raw);
          assert Now(raised) == State(c, buffer);
          if raised {
            return;
          }
        }
      }
    }

    method Accept(raw: Bytes) returns (raised: bool)
      modifies this
      ensures Now(raised) == State(Lifecycle.Accept(reader, old(Now(false)).core, raw), old(buffer))
    {
      raised := false;
      if protocolError.Some? {
        return;
      }
      match reader.decode(raw)
      case Escapes => raised := true;
      case NotJson => protocolError := Some(InvalidJson);
      case Parsed(frame) =>
        if frame.NotObject? || frame.bootId != Value.Text(reader.boot) {
          protocolError := Some(WrongBoot);
        } else {
          match frame.kind
          case Stage => TakeStage(frame);
          case Ready => TakeReady(frame);
          case Commit => raised := TakeCommit(frame);
          case SettingsReloaded => raised := TakeSettings(frame);
          case Unknown => protocolError := Some(UnknownFrame);
        }
    }

    method TakeStage(frame: Frame)
      requires frame.Object? && protocolError.None?
      modifies this
      ensures Now(false) == State(AcceptStage(old(Now(false)).core, frame), old(buffer))
    {
      var elapsed := frame.elapsedMs.AsInt();
      if !frame.stage.Text? || Strip(frame.stage.s) == [] || elapsed.None? || elapsed.value < lastElapsedMs || ready {
        protocolError := Some(BadStage);
        return;
      }
      lastStage := frame.stage.s;
      lastElapsedMs := elapsed.value;
    }

    method TakeReady(frame: Frame)
      requires frame.Object? && protocolError.None?
      modifies this
      ensures Now(false) == State(AcceptReady(old(Now(false)).core, frame), old(buffer))
    {
      var pid := frame.pid.AsInt();
      if ready || pid.None? || pid.value <= 0 {
        protocolError := Some(BadReady);
        return;
      }
      ready := true;
      gatewayPid := pid;
    }

    method TakeCommit(frame: Frame) returns (raised: bool)
      requires frame.Object? && protocolError.None?
      modifies this
      ensures Now(raised) == State(AcceptCommit(reader, old(Now(false)).core, frame), old(buffer))
    {
      raised := false;
      var nonce := frame.nonce.Shown();
      if || !ready || commitValid
         || !frame.requestId.Text? || frame.requestId.s == [] || Strip(frame.requestId.s) != frame.requestId.s {
        protocolError := Some(BadCommit);
        return;
      }
      if !IsAscii(nonce) || !IsAscii(reader.nonce) {
        return true;
      }
      if nonce != reader.nonce {
        protocolError := Some(BadCommit);
        return;
      }
      commitValid := true;
    }

    method TakeSettings(frame: Frame) returns (raised: bool)
      requires frame.Object? && protocolError.None?
      modifies this
      ensures Now(raised) == State(AcceptSettings(old(Now(false)).core, frame), old(buffer))
    {
      raised := false;
      var detail := if frame.detail.None? then Value.Text([]) else frame.detail.value;
      if !ready || !frame.success.Bool? || !detail.Text? {
        protocolError := Some(BadSettings);
      } else if !Encodable(detail.s) {
        raised := true;
      } else if Utf8Length(detail.s) > 2048 {
        protocolError := Some(BadSettings);
      } else {
        settingsResults := settingsResults + [(frame.success.b, detail.s)];
      }
    }
  }

  /** The read end of a lifecycle pipe: what its next reads will find. */
  class Pipe {
    var pending: seq<Read>

    constructor (pending: seq<Read>)
      ensures this.pending == pending
    {
      this.pending := pending;
    }

    method Read(cap: nat) returns (read: Read)
      requires cap > 0
      modifies this
      ensures (read, pending) == NextRead(old(pending), cap)
    {
      var next := NextRead(pending, cap);
      read, pending := next.0, next.1;
    }
  }

  /** Reads what the exited guardian left behind, within a fixed budget. */
  method ReadLifecycleToEof(pipe: Pipe, state: LifecycleState) returns (raised: bool, ghost drained: Drained)
    modifies pipe, state
    ensures drained == ExitDrain(state.reader, old(state.Now(false)), [], old(pipe.pending))
    ensures state.Now(raised) == drained.state
  {
    raised := false;
    var total := 0;
    ghost var got: Bytes := [];
    while true
      invariant |got| == total <= DRAIN_BUDGET
      invariant ExitDrain(state.reader, state.Now(false), got, pipe.pending)
             == ExitDrain(state.reader, old(state.Now(false)), [], old(pipe.pending))
      decreases DRAIN_BUDGET - total
    {
      var read := pipe.Read(DrainCap(total));
      match read
      case WouldBlock =>
        drained := Drained(state.Now(false), got, false);
        return;
      case EndOfFile =>
        raised := state.Feed([], true);
        drained := Drained(state.Now(raised), got, true);
        return;
      case Data(chunk) =>
        total := total + |chunk|;
        got := got + chunk;
        if total > DRAIN_BUDGET {
          state.protocolError := Some(DrainBudget);
          state.commitValid := false;
          drained := Drained(state.Now(false), got, false);
          return;
        }
        raised := state.Feed(chunk, false);
        if raised {
          drained := Drained(state.Now(true), got, false);
          return;
        }
    }
  }
}
