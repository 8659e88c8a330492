/** The runtime's end of the pipe as an object: each call puts one whole line on the pipe or raises and leaves it. */
module ChannelState {
  import opened Text
  import opened Lifecycle
  import opened Channel

  class SupervisorCommitChannel {
    const identity: Channel
    var pipe: Bytes

    constructor (identity: Channel)
      ensures this.identity == identity && pipe == []
    {
      this.identity := identity;
      pipe := [];
    }

    method CommitOpaque(requestId: Str) returns (written: bool)
      modifies this
      ensures written == Emit(identity, CommitCall(requestId)).Some?
      ensures pipe == old(pipe) + Line(identity, CommitCall(requestId))
    {
      hide Strip, Render, Output;
      if requestId == [] || Strip(requestId) != requestId {
        return false;
      }
      written := WriteFrame(CommitOut(requestId));
    }

    method SettingsReloaded(success: bool, detail: Str) returns (written: bool)
      modifies this
      ensures written == Emit(identity, SettingsCall(success, detail)).Some?
      ensures pipe == old(pipe) + Line(identity, SettingsCall(success, detail))
    {
      hide Render, Output;
      written := WriteFrame(SettingsOut(success, if |detail| > 1024 then detail[..1024] else detail));
    }

    method PublishStage(name: Str, now: real) returns (written: bool)
      modifies this
      ensures written == Emit(identity, StageCall(name, now)).Some?
      ensures pipe == old(pipe) + Line(identity, StageCall(name, now))
    {
      hide Strip, Render, Output;
      var cleanName := Strip(name);
      if cleanName == [] {
        return false;
      }
      written := WriteFrame(StageOut(cleanName, (now * 1000.0).Floor));
    }

    method PublishReady(pid: int) returns (written: bool)
      modifies this
      ensures written == Emit(identity, ReadyCall(pid)).Some?
      ensures pipe == old(pipe) + Line(identity, ReadyCall(pid))
    {
      hide Render, Output;
      if pid <= 0 {
        return false;
      }
      written := WriteFrame(ReadyOut(pid));
    }

    method WriteFrame(frame: Out) returns (written: bool)
      modifies this
      ensures written == (|Render(identity, frame)| + 1 <= MAX_FRAME)
      ensures pipe == old(pipe) + if written then Output(identity, [frame]) else []
    {
      hide Render;
      var payload := Render(identity, frame) + [NEWLINE];
      if |payload| > 4096 {
        return false;
      }
      pipe := pipe + payload;
      assert [frame][1..] == [];
      return true;
    }
  }

  /** What a call adds to the pipe. */
  function Line(ch: Channel, c: Call): Bytes {
    if Emit(ch, c).Some? then Output(ch, [Emit(ch, c).value]) else []
  }
}
