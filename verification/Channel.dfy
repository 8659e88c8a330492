/** The runtime's end of the lifecycle pipe: which frames it writes, the bytes they become, and when the reader
    accepts them. */
module Channel {
  import opened Text
  import opened Lifecycle
  import opened Grammar

  // ----- JSON text -----

  function HexDigit(n: nat): Byte
    requires n < 16
  {
    if n < 10 then 48 + n else 87 + n
  }

  function UnicodeEscape(n: nat): Bytes
    requires n < 0x10000
  {
    [92, 117, HexDigit(n / 4096), HexDigit(n / 256 % 16), HexDigit(n / 16 % 16), HexDigit(n % 16)]
  }

  /** One character inside a JSON string, section 7 of RFC 8259, with everything outside printable ASCII escaped. */
  function Escape(c: CodePoint): Bytes {
    if c == 34 || c == 92 then [92, c]
    else if c == 10 then [92, 110]
    else if c == 13 then [92, 114]
    else if c == 9 then [92, 116]
    else if c == 12 then [92, 102]
    else if c == 8 then [92, 98]
    else if 32 <= c < 127 then [c]
    else if c < 0x10000 then UnicodeEscape(c)
    else UnicodeEscape(0xD800 + (c - 0x10000) / 1024) + UnicodeEscape(0xDC00 + (c - 0x10000) % 1024)
  }

  function EscapeAll(s: Str): Bytes {
    if s == [] then [] else Escape(s[0]) + EscapeAll(s[1..])
  }

  function Quote(s: Str): Bytes {
    [34] + EscapeAll(s) + [34]
  }

  function Field(name: string, value: Bytes): Bytes {
    Quote(Literal(name)) + [58] + value
  }

  predicate Printable(b: Bytes) {
    forall i :: 0 <= i < |b| ==> b[i] >= 32
  }

  lemma {:induction false} EscapePrintable(s: Str)
    ensures Printable(EscapeAll(s)) && |EscapeAll(s)| >= |s|
  {
    if s != [] {
      assert Printable(Escape(s[0])) && |Escape(s[0])| >= 1;
      EscapePrintable(s[1..]);
    }
  }

  lemma FieldPrintable(name: string, value: Bytes)
    requires Printable(value)
    ensures Printable(Field(name, value)) && |Field(name, value)| >= |name| + 3 + |value|
  {
    EscapePrintable(Literal(name));
  }

  // ----- The frames of the channel -----

  datatype Channel = Channel(boot: Str, nonce: Str)

  datatype Out =
    | StageOut(stage: Str, elapsed: int)
    | ReadyOut(pid: int)
    | CommitOut(id: Str)
    | SettingsOut(success: bool, detail: Str)

  function BoolText(b: bool): Bytes {
    if b then [116, 114, 117, 101] else [102, 97, 108, 115, 101]
  }

  function KindName(o: Out): string {
    match o
    case StageOut(_, _) => "stage"
    case ReadyOut(_) => "ready"
    case CommitOut(_) => "commit"
    case SettingsOut(_, _) => "settings_reloaded"
  }

  /** The fields after `type` and `bootId`. */
  function Payload(ch: Channel, o: Out): Bytes {
    match o
    case StageOut(stage, elapsed) => Field("stage", Quote(stage)) + [44] + Field("elapsedMs", Decimal(elapsed))
    case ReadyOut(pid) => Field("pid", Decimal(pid))
    case CommitOut(id) => Field("nonce", Quote(ch.nonce)) + [44] + Field("requestId", Quote(id))
    case SettingsOut(success, detail) => Field("success", BoolText(success)) + [44] + Field("detail", Quote(detail))
  }

  /** The frame as one line of JSON, without its newline. */
  function Render(ch: Channel, o: Out): Bytes {
    [123] + Field("type", Quote(Literal(KindName(o)))) + [44] + Field("bootId", Quote(ch.boot)) + [44] + Payload(ch, o)
        + [125]
  }

  /** What that line means to a JSON reader. */
  function Meaning(ch: Channel, o: Out): Frame {
    var f := Object(Value.Text(ch.boot), Unknown, Null, Null, Null, Null, Null, Null, None);
    match o
    case StageOut(stage, elapsed) => f.(kind := Stage, stage := Value.Text(stage), elapsedMs := Int(elapsed))
    case ReadyOut(pid) => f.(kind := Ready, pid := Int(pid))
    case CommitOut(id) => f.(kind := Commit, nonce := Value.Text(ch.nonce), requestId := Value.Text(id))
    case SettingsOut(success, detail) =>
      f.(kind := SettingsReloaded, success := Bool(success), detail := Some(Value.Text(detail)))
  }

  // ----- Calls -----

  /** `now` is the seconds since the channel was made. */
  datatype Call =
    | StageCall(name: Str, now: real)
    | ReadyCall(pid: int)
    | CommitCall(id: Str)
    | SettingsCall(success: bool, detail: Str)

  /** The frame a call builds, or nothing when it raises on its argument. */
  function Build(c: Call): Option<Out> {
    match c
    case StageCall(name, now) =>
      if Strip(name) == [] then None else Some(StageOut(Strip(name), (now * 1000.0).Floor))
    case ReadyCall(pid) => if pid <= 0 then None else Some(ReadyOut(pid))
    case CommitCall(id) => if id == [] || Strip(id) != id then None else Some(CommitOut(id))
    case SettingsCall(success, detail) => Some(SettingsOut(success, if |detail| > 1024 then detail[..1024] else detail))
  }

  /** `_write_frame` refuses a line longer than the bound, newline included. */
  function Emit(ch: Channel, c: Call): Option<Out> {
    var o := Build(c);
    if o.Some? && |Render(ch, o.value)| + 1 <= MAX_FRAME then o else None
  }

  /** The bytes of a list of frames on the pipe. */
  function Output(ch: Channel, outs: seq<Out>): Bytes {
    if outs == [] then [] else Render(ch, outs[0]) + [NEWLINE] + Output(ch, outs[1..])
  }

  /** What a call leaves to rely on. */
  predicate Emittable(ch: Channel, o: Out) {
    && |Render(ch, o)| + 1 <= MAX_FRAME
    && match o
       case StageOut(stage, elapsed) => Strip(stage) != [] && elapsed >= 0
       case ReadyOut(pid) => pid > 0
       case CommitOut(id) => id != [] && Strip(id) == id
       case SettingsOut(_, detail) => |detail| <= 1024
  }

  lemma EmitsEmittable(ch: Channel, c: Call)
    requires Emit(ch, c).Some? && (c.StageCall? ==> c.now >= 0.0)
    ensures Emittable(ch, Emit(ch, c).value)
  {
    if c.StageCall? {
      StripFixpoint(Strip(c.name));
    }
  }

  /** The order in which the runtime writes: stages on a clock that never goes back, one ready, then settings
      answers and at most one commit. */
  predicate Ordered(outs: seq<Out>) {
    && (forall i, j :: 0 <= i < j < |outs| && outs[i].ReadyOut? ==> !outs[j].StageOut? && !outs[j].ReadyOut?)
    && (forall i, j :: 0 <= i < j < |outs| && outs[i].StageOut? && outs[j].StageOut? ==>
         outs[i].elapsed <= outs[j].elapsed)
    && (forall j :: 0 <= j < |outs| && (outs[j].CommitOut? || outs[j].SettingsOut?) ==>
         exists i :: 0 <= i < j && outs[i].ReadyOut?)
    && (forall i, j :: 0 <= i < j < |outs| && outs[i].CommitOut? ==> !outs[j].CommitOut?)
  }

  /** The reader's own test of a settings detail. */
  predicate DetailFits(o: Out) {
    o.SettingsOut? ==> Encodable(o.detail) && Utf8Length(o.detail) <= 2048
  }

  /** The decoder reads these frames as they were meant. */
  predicate Inverts(r: Reader, ch: Channel, outs: seq<Out>) {
    forall i :: 0 <= i < |outs| ==> r.decode(Render(ch, outs[i])) == Parsed(Meaning(ch, outs[i]))
  }

  // ----- Lines on the pipe -----

  lemma TextField(name: string, s: Str)
    ensures Printable(Field(name, Quote(s)))
  {
    EscapePrintable(s);
    FieldPrintable(name, Quote(s));
  }

  lemma PayloadPrintable(ch: Channel, o: Out)
    ensures Printable(Payload(ch, o))
  {
    hide Field, Quote, Decimal;
    match o {
      case StageOut(stage, elapsed) =>
        TextField("stage", stage);
        FieldPrintable("elapsedMs", Decimal(elapsed));
      case ReadyOut(pid) => FieldPrintable("pid", Decimal(pid));
      case CommitOut(id) =>
        TextField("nonce", ch.nonce);
        TextField("requestId", id);
      case SettingsOut(success, detail) =>
        FieldPrintable("success", BoolText(success));
        TextField("detail", detail);
    }
  }

  lemma RenderPrintable(ch: Channel, o: Out)
    ensures Printable(Render(ch, o)) && Render(ch, o) != []
  {
    hide Field, Quote, Payload, KindName;
    TextField("type", Literal(KindName(o)));
    TextField("bootId", ch.boot);
    PayloadPrintable(ch, o);
  }

  function Renders(ch: Channel, outs: seq<Out>): seq<Bytes> {
    seq(|outs|, i requires 0 <= i < |outs| => Render(ch, outs[i]))
  }

  /** Cutting one line off a stream that starts with it. */
  lemma CutLine(line: Bytes, rest: Bytes, b: Bytes)
    requires Printable(line) && b <= line + [NEWLINE] + rest
    ensures if |b| <= |line| then Newline(b) == |b|
            else (&& Newline(b) == |line| && b[..|line|] == line && b[|line| + 1..] <= rest
                  && (b == line + [NEWLINE] + rest ==> b[|line| + 1..] == rest))
  {
    var whole := line + [NEWLINE] + rest;
    assert forall i :: 0 <= i < |b| ==> b[i] == whole[i];
    if |b| <= |line| {
      NewlineAt(b, |b|);
    } else {
      NewlineAt(b, |line|);
      assert whole[|line| + 1..] == rest;
      assert b[|line| + 1..] == rest[..|b| - |line| - 1];
    }
  }

  /** A prefix of the output holds the first `n` frames and an unfinished rest. */
  lemma {:induction false} LinesOfPrefix(ch: Channel, outs: seq<Out>, b: Bytes) returns (n: nat)
    requires b <= Output(ch, outs)
    ensures n <= |outs| && Lines(b) == Renders(ch, outs[..n])
    ensures b == Output(ch, outs) ==> n == |outs| && Tail(b) == []
    decreases |outs|
  {
    hide Render, Newline;
    if outs == [] {
      assert b == [] && Newline(b) == 0;
      return 0;
    }
    var line := Render(ch, outs[0]);
    RenderPrintable(ch, outs[0]);
    CutLine(line, Output(ch, outs[1..]), b);
    if |b| <= |line| {
      return 0;
    }
    LinesStep(b);
    hide Lines, Tail, Output, Renders;
    var c := b[|line| + 1..];
    var m := LinesOfPrefix(ch, outs[1..], c);
    RendersCons(ch, outs, m);
    return m + 1;
  }

  lemma RendersCons(ch: Channel, outs: seq<Out>, m: nat)
    requires m < |outs|
    ensures Renders(ch, outs[..m + 1]) == [Render(ch, outs[0])] + Renders(ch, outs[1..][..m])
  {
    hide Render;
    assert outs[..m + 1] == [outs[0]] + outs[1..][..m];
  }

  // ----- Agreement -----

  function Meanings(ch: Channel, outs: seq<Out>): (fs: seq<Frame>)
    ensures |fs| == |outs| && forall i :: 0 <= i < |fs| ==> fs[i] == Meaning(ch, outs[i])
  {
    seq(|outs|, i requires 0 <= i < |outs| => Meaning(ch, outs[i]))
  }

  lemma RendersDecode(r: Reader, ch: Channel, outs: seq<Out>)
    requires Inverts(r, ch, outs) && forall i :: 0 <= i < |outs| ==> Emittable(ch, outs[i])
    ensures Decodes(r, Renders(ch, outs)) && Frames(r, Renders(ch, outs)) == Meanings(ch, outs)
  {
    hide Render, Meaning;
  }

  lemma MeaningWellFormed(r: Reader, ch: Channel, o: Out)
    requires r.boot == ch.boot && r.nonce == ch.nonce && IsAscii(r.nonce) && Emittable(ch, o)
    ensures WellFormed(r, Meaning(ch, o)) <==> DetailFits(o)
  {
    hide Render, Strip;
  }

  lemma OrderedMeanings(ch: Channel, outs: seq<Out>)
    ensures InOrder(Meanings(ch, outs)) <==> Ordered(outs)
  {
    var fs := Meanings(ch, outs);
    forall j | 0 <= j < |fs| ensures Has(fs[..j], Ready) <==> exists i :: 0 <= i < j && outs[i].ReadyOut? {
      ReadyBefore(ch, outs, j);
    }
    KindsMatch(ch, outs);
    hide Meaning, Has;
    if InOrder(fs) { KindsOrdered(outs, fs); }
    if Ordered(outs) { OrderedKinds(outs, fs); }
  }

  /** Frames have the kinds and times of what was written. */
  predicate Alike(outs: seq<Out>, fs: seq<Frame>) {
    && |fs| == |outs|
    && forall i :: 0 <= i < |fs| ==>
         && (Is(fs[i], Ready) <==> outs[i].ReadyOut?) && (Is(fs[i], Stage) <==> outs[i].StageOut?)
         && (Is(fs[i], Commit) <==> outs[i].CommitOut?) && (Is(fs[i], SettingsReloaded) <==> outs[i].SettingsOut?)
         && (outs[i].StageOut? ==> Elapsed(fs[i]) == outs[i].elapsed)
  }

  lemma KindsMatch(ch: Channel, outs: seq<Out>)
    ensures Alike(outs, Meanings(ch, outs))
  {}

  predicate SameReady(outs: seq<Out>, fs: seq<Frame>)
    requires |fs| == |outs|
  {
    forall j :: 0 <= j < |fs| ==> (Has(fs[..j], Ready) <==> exists i :: 0 <= i < j && outs[i].ReadyOut?)
  }

  lemma KindsOrdered(outs: seq<Out>, fs: seq<Frame>)
    requires Alike(outs, fs) && SameReady(outs, fs) && InOrder(fs)
    ensures Ordered(outs)
  {
    hide Is, Has, Elapsed;
  }

  lemma OrderedKinds(outs: seq<Out>, fs: seq<Frame>)
    requires Alike(outs, fs) && SameReady(outs, fs) && Ordered(outs)
    ensures InOrder(fs)
  {
    hide Is, Has, Elapsed;
  }

  lemma ReadyBefore(ch: Channel, outs: seq<Out>, j: nat)
    requires j < |outs|
    ensures Has(Meanings(ch, outs)[..j], Ready) <==> exists i :: 0 <= i < j && outs[i].ReadyOut?
  {
    var fs := Meanings(ch, outs);
    forall i | 0 <= i < j ensures Is(fs[..j][i], Ready) <==> outs[i].ReadyOut? {}
    if i :| 0 <= i < j && outs[i].ReadyOut? { assert Is(fs[..j][i], Ready); }
  }

  predicate AllFit(outs: seq<Out>) {
    forall i :: 0 <= i < |outs| ==> DetailFits(outs[i])
  }

  /** Frames that the channel writes are grammatical exactly in that order and when every settings detail fits. */
  lemma OrderedIsGrammatical(r: Reader, ch: Channel, outs: seq<Out>)
    requires r.boot == ch.boot && r.nonce == ch.nonce && IsAscii(r.nonce)
    requires forall i :: 0 <= i < |outs| ==> Emittable(ch, outs[i])
    ensures Grammatical(r, Meanings(ch, outs)) <==> Ordered(outs) && AllFit(outs)
  {
    hide Emittable, DetailFits, WellFormed, Meaning, InOrder, Ordered;
    OrderedMeanings(ch, outs);
    forall i | 0 <= i < |outs| ensures WellFormed(r, Meaning(ch, outs[i])) <==> DetailFits(outs[i]) {
      MeaningWellFormed(r, ch, outs[i]);
    }
  }

  /** What the channel writes is accepted, however the pipe cuts it, exactly when it comes in that order and every
      settings detail fits the reader's bound; no stage, ready or commit frame is refused for what it holds. */
  lemma ReaderAcceptsWriter(r: Reader, ch: Channel, outs: seq<Out>, chunks: seq<Bytes>, eof: bool)
    requires r.boot == ch.boot && r.nonce == ch.nonce && IsAscii(r.nonce)
    requires (forall i :: 0 <= i < |outs| ==> Emittable(ch, outs[i])) && Inverts(r, ch, outs)
    requires Flatten(chunks) == Output(ch, outs)
    ensures FeedStream(r, START, chunks, eof).core.status.Healthy? <==> Ordered(outs) && AllFit(outs)
  {
    hide Emittable, AllFit, Grammatical, Reports, Inverts, Ordered, FeedStream, Output, Lines, Tail, Decodes;
    var n := LinesOfPrefix(ch, outs, Output(ch, outs));
    assert outs[..n] == outs;
    RendersDecode(r, ch, outs);
    OrderedIsGrammatical(r, ch, outs);
    StreamDecidesClean(r, chunks, eof);
  }

  /** In particular a commit written before ready, which a settings restart does not wait for, spoils the stream. */
  lemma EarlyCommitIsRefused(r: Reader, ch: Channel, outs: seq<Out>, j: nat, chunks: seq<Bytes>, eof: bool)
    requires r.boot == ch.boot && r.nonce == ch.nonce && IsAscii(r.nonce)
    requires (forall i :: 0 <= i < |outs| ==> Emittable(ch, outs[i])) && Inverts(r, ch, outs)
    requires Flatten(chunks) == Output(ch, outs)
    requires j < |outs| && outs[j].CommitOut? && forall i :: 0 <= i < j ==> !outs[i].ReadyOut?
    ensures !FeedStream(r, START, chunks, eof).core.status.Healthy?
  {
    hide FeedStream, Output, Inverts, Emittable;
    ReaderAcceptsWriter(r, ch, outs, chunks, eof);
  }

  /** The order of calls by which the runtime starts, serves and leaves. */
  predicate CallOrder(calls: seq<Call>) {
    && (forall i :: 0 <= i < |calls| && calls[i].StageCall? ==> calls[i].now >= 0.0)
    && (forall i, j :: 0 <= i < j < |calls| && calls[i].ReadyCall? ==> !calls[j].StageCall? && !calls[j].ReadyCall?)
    && (forall i, j :: 0 <= i < j < |calls| && calls[i].StageCall? && calls[j].StageCall? ==>
         calls[i].now <= calls[j].now)
    && (forall j :: 0 <= j < |calls| && (calls[j].CommitCall? || calls[j].SettingsCall?) ==>
         exists i :: 0 <= i < j && calls[i].ReadyCall?)
    && (forall i, j :: 0 <= i < j < |calls| && calls[i].CommitCall? ==> !calls[j].CommitCall?)
  }

  /** What a frame has of its call: the name without the white space around it and the whole milliseconds, the pid, the
      request id, or the success and the first 1024 characters of the detail. */
  predicate Says(o: Out, c: Call) {
    match c
    case StageCall(name, now) =>
      && o.StageOut? && o.stage == Strip(name)
      && o.elapsed as real <= now * 1000.0 < (o.elapsed + 1) as real
    case ReadyCall(pid) => o == ReadyOut(pid)
    case CommitCall(id) => o == CommitOut(id)
    case SettingsCall(success, detail) =>
      o.SettingsOut? && o.success == success && o.detail <= detail
      && |o.detail| == if |detail| < 1024 then |detail| else 1024
  }

  /** The calls that do not raise on their argument: a name that is not blank, a positive pid, a request id that neither
      is empty nor begins or ends with white space. */
  predicate Sayable(c: Call) {
    match c
    case StageCall(name, _) => exists i :: 0 <= i < |name| && !IsSpace(name[i])
    case ReadyCall(pid) => pid > 0
    case CommitCall(id) => id != [] && !IsSpace(id[0]) && !IsSpace(id[|id| - 1])
    case SettingsCall(_, _) => true
  }

  lemma FloorIs(x: real, n: int)
    ensures x.Floor == n <==> n as real <= x < (n + 1) as real
  {}

  lemma StripLeavesSome(name: Str)
    ensures Strip(name) != [] <==> exists i :: 0 <= i < |name| && !IsSpace(name[i])
  {
    var i, j := StripTakesSpaceOnly(name);
    if Strip(name) != [] {
      assert name[i] == Strip(name)[0];
    }
    hide IsSpace, Strip;
  }

  lemma CutIs(part: Str, whole: Str)
    ensures part == (if |whole| > 1024 then whole[..1024] else whole) <==>
              part <= whole && |part| == if |whole| < 1024 then |whole| else 1024
  {
    if part <= whole { assert part == whole[..|part|]; }
    assert whole == whole[..|whole|];
  }

  lemma BuildExactly(c: Call, o: Out)
    ensures Build(c) == Some(o) <==> Sayable(c) && Says(o, c)
  {
    hide Strip, IsSpace;
    match c {
      case StageCall(name, now) =>
        StripLeavesSome(name);
        if o.StageOut? { FloorIs(now * 1000.0, o.elapsed); }
      case ReadyCall(_) =>
      case CommitCall(id) => StripFixpoint(id);
      case SettingsCall(success, detail) =>
        if o.SettingsOut? { CutIs(o.detail, detail); }
    }
  }

  /** A call puts a frame on the pipe exactly when it does not raise on its argument, the frame says what the call says
      and its line with the newline has at most 4096 bytes. */
  lemma EmitExactly(ch: Channel, c: Call, o: Out)
    ensures Emit(ch, c) == Some(o) <==> Sayable(c) && Says(o, c) && |Render(ch, o)| < 4096
  {
    hide Build, Sayable, Says, Render;
    BuildExactly(c, o);
  }

  lemma SaysOrder(calls: seq<Call>, outs: seq<Out>)
    requires CallOrder(calls) && |outs| == |calls| && forall i :: 0 <= i < |calls| ==> Says(outs[i], calls[i])
    ensures Ordered(outs)
  {
    forall j | 0 <= j < |outs| && (outs[j].CommitOut? || outs[j].SettingsOut?)
      ensures exists i :: 0 <= i < j && outs[i].ReadyOut?
    {
      var i :| 0 <= i < j && calls[i].ReadyCall?;
      assert outs[i].ReadyOut?;
    }
  }

  /** Calls in that order that all return put their frames on the pipe in the order the reader wants. */
  lemma CallsAreOrdered(ch: Channel, calls: seq<Call>, outs: seq<Out>)
    requires CallOrder(calls) && |outs| == |calls|
    requires forall i :: 0 <= i < |calls| ==> Emit(ch, calls[i]) == Some(outs[i])
    ensures Ordered(outs) && forall i :: 0 <= i < |outs| ==> Emittable(ch, outs[i])
  {
    hide Emit, Emittable, Says, Sayable, Ordered, Render;
    forall i | 0 <= i < |outs| ensures Emittable(ch, outs[i]) && Says(outs[i], calls[i]) {
      EmitsEmittable(ch, calls[i]);
      EmitExactly(ch, calls[i], outs[i]);
    }
    SaysOrder(calls, outs);
  }

  // ----- The runtime's script -----

  /** The stages of a start, in the order in which it comes through them. */
  const STAGES: seq<string> :=
    ["gateway.starting", "config.loaded", "workspace.locked", "core.ready", "services.ready", "runtime.started"]

  /** What a runtime that serves may still have to say. */
  datatype Service = Answer(success: bool, detail: Str) | Depart(id: Str)

  function CallOf(s: Service): Call {
    match s case Answer(success, detail) => SettingsCall(success, detail) case Depart(id) => CommitCall(id)
  }

  function Starting(times: seq<real>): seq<Call>
    requires |times| == |STAGES|
  {
    seq(|STAGES|, i requires 0 <= i < |STAGES| => StageCall(Literal(STAGES[i]), times[i]))
  }

  function Serving(service: seq<Service>): seq<Call> {
    seq(|service|, i requires 0 <= i < |service| => CallOf(service[i]))
  }

  /** Start, one ready, then whatever the service brings. */
  function RuntimeCalls(times: seq<real>, pid: int, service: seq<Service>): seq<Call>
    requires |times| == |STAGES|
  {
    Starting(times) + [ReadyCall(pid)] + Serving(service)
  }

  /** Times of a clock that starts at zero and never goes back. */
  predicate Ticks(times: seq<real>) {
    && (forall i :: 0 <= i < |times| ==> times[i] >= 0.0)
    && forall i, j :: 0 <= i < j < |times| ==> times[i] <= times[j]
  }

  predicate DepartsOnce(service: seq<Service>) {
    forall i, j :: 0 <= i < j < |service| && service[i].Depart? ==> !service[j].Depart?
  }

  /** The script has its order wherever it is cut off. */
  lemma RuntimeKeepsOrder(times: seq<real>, pid: int, service: seq<Service>, calls: seq<Call>)
    requires |times| == |STAGES| && Ticks(times) && DepartsOnce(service) && calls <= RuntimeCalls(times, pid, service)
    ensures CallOrder(calls)
  {
    hide Literal;
    var n, all := |STAGES|, RuntimeCalls(times, pid, service);
    assert forall i :: 0 <= i < |all| ==>
      all[i] == if i < n then Starting(times)[i] else if i == n then ReadyCall(pid) else Serving(service)[i - n - 1];
    assert forall i :: 0 <= i < |calls| ==> calls[i] == all[i];
    assert forall i :: 0 <= i < |calls| ==> (calls[i].StageCall? <==> i < n) && (calls[i].ReadyCall? <==> i == n);
    forall i, j | 0 <= i < j < |calls| && calls[i].CommitCall? ensures !calls[j].CommitCall? {
      assert service[i - n - 1].Depart?;
    }
    forall j | 0 <= j < |calls| && (calls[j].CommitCall? || calls[j].SettingsCall?)
      ensures exists i :: 0 <= i < j && calls[i].ReadyCall?
    {
      assert calls[n].ReadyCall?;
    }
  }

  /** So a runtime that follows its script, cut off anywhere, and whose calls return, is accepted exactly when every
      settings detail fits. */
  lemma RuntimeIsAccepted(r: Reader, ch: Channel, times: seq<real>, pid: int, service: seq<Service>, outs: seq<Out>,
                          chunks: seq<Bytes>, eof: bool)
    requires r.boot == ch.boot && r.nonce == ch.nonce && IsAscii(r.nonce) && Inverts(r, ch, outs)
    requires |times| == |STAGES| && Ticks(times) && DepartsOnce(service)
    requires |outs| <= |RuntimeCalls(times, pid, service)|
    requires forall i :: 0 <= i < |outs| ==> Emit(ch, RuntimeCalls(times, pid, service)[i]) == Some(outs[i])
    requires Flatten(chunks) == Output(ch, outs)
    ensures FeedStream(r, START, chunks, eof).core.status.Healthy? <==> AllFit(outs)
  {
    hide Emit, Emittable, AllFit, Ordered, CallOrder, RuntimeCalls, Inverts, FeedStream, Output, Ticks, DepartsOnce;
    var calls := RuntimeCalls(times, pid, service)[..|outs|];
    RuntimeKeepsOrder(times, pid, service, calls);
    CallsAreOrdered(ch, calls, outs);
    ReaderAcceptsWriter(r, ch, outs, chunks, eof);
  }

  /** Success and the first 1024 characters of the detail of each answer, in order. */
  function Replies(service: seq<Service>): seq<(bool, Str)> {
    if service == [] then [] else Replies(service[..|service| - 1]) + ReplyOf(service[|service| - 1])
  }

  function ReplyOf(s: Service): seq<(bool, Str)> {
    match s
    case Answer(success, detail) => [(success, if |detail| < 1024 then detail else detail[..1024])]
    case Depart(_) => []
  }

  /** What the service has brought after `n` calls. */
  function Served(service: seq<Service>, n: nat): seq<Service>
    requires n <= |STAGES| + 1 + |service|
  {
    service[..if n > |STAGES| then n - |STAGES| - 1 else 0]
  }

  predicate Departs(service: seq<Service>) {
    exists i :: 0 <= i < |service| && service[i].Depart?
  }

  /** The last stage of the first `n` calls, and its time in whole milliseconds. */
  predicate StageKnown(c: Core, times: seq<real>, n: nat)
    requires |times| == |STAGES|
  {
    var stages := if n < |STAGES| then n else |STAGES|;
    if stages == 0 then c.stage == Literal("guardian.spawn") && c.elapsed == -1
    else (&& c.stage == Literal(STAGES[stages - 1])
          && c.elapsed as real <= times[stages - 1] * 1000.0 < (c.elapsed + 1) as real)
  }

  /** What the supervisor knows of a runtime that has come through its first `n` calls. */
  predicate Understood(c: Core, times: seq<real>, pid: int, service: seq<Service>, n: nat)
    requires |times| == |STAGES| && n <= |STAGES| + 1 + |service|
  {
    && StageKnown(c, times, n)
    && c.ready == (n > |STAGES|) && c.pid == (if n > |STAGES| then Some(pid) else None)
    && c.commit == Departs(Served(service, n)) && c.results == Replies(Served(service, n))
  }

  /** The frames say what these calls say. */
  ghost predicate AllSay(outs: seq<Out>, calls: seq<Call>) {
    |outs| <= |calls| && forall i :: 0 <= i < |outs| ==> Says(outs[i], calls[i])
  }

  lemma CallAt(times: seq<real>, pid: int, service: seq<Service>, i: nat)
    requires |times| == |STAGES| && i < |RuntimeCalls(times, pid, service)|
    ensures RuntimeCalls(times, pid, service)[i]
         == if i < |STAGES| then StageCall(Literal(STAGES[i]), times[i])
            else if i == |STAGES| then ReadyCall(pid)
            else CallOf(service[i - |STAGES| - 1])
  {
    hide Literal;
  }

  predicate Letters(name: string) {
    forall k :: 0 <= k < |name| ==> 'a' <= name[k] <= 'z' || name[k] == '.'
  }

  lemma StageLetters(i: nat)
    requires i < |STAGES|
    ensures STAGES[i] != "" && Letters(STAGES[i])
  {
    assert Letters(STAGES[0]) && Letters(STAGES[1]) && Letters(STAGES[2]);
    assert Letters(STAGES[3]) && Letters(STAGES[4]) && Letters(STAGES[5]);
  }

  lemma LettersAreStripped(name: string)
    requires name != "" && Letters(name)
    ensures Strip(Literal(name)) == Literal(name) != []
  {
    StripFixpoint(Literal(name));
    hide Strip;
  }

  lemma CallCount(times: seq<real>, pid: int, service: seq<Service>)
    requires |times| == |STAGES|
    ensures |RuntimeCalls(times, pid, service)| == |STAGES| + 1 + |service|
  {}

  lemma ReplyIs(ch: Channel, o: Out, s: Service)
    requires Says(o, CallOf(s))
    ensures AnswerOf(Meaning(ch, o)) == ReplyOf(s)
  {
    if s.Answer? {
      CutIs(o.detail, s.detail);
      assert s.detail == s.detail[..|s.detail|];
    }
  }

  lemma NoAnswer(ch: Channel, o: Out)
    requires o.StageOut? || o.ReadyOut?
    ensures AnswerOf(Meaning(ch, o)) == []
  {}

  lemma {:induction false} AnswersAreReplies(ch: Channel, outs: seq<Out>, times: seq<real>, pid: int,
                                             service: seq<Service>)
    requires |times| == |STAGES| && AllSay(outs, RuntimeCalls(times, pid, service))
    ensures |outs| <= |STAGES| + 1 + |service| && Answers(Meanings(ch, outs)) == Replies(Served(service, |outs|))
    decreases |outs|
  {
    hide Literal, Strip, RuntimeCalls, Meaning;
    CallCount(times, pid, service);
    if outs == [] {
      return;
    }
    var n, fs := |outs| - 1, Meanings(ch, outs);
    assert fs[..n] == Meanings(ch, outs[..n]);
    AnswersAreReplies(ch, outs[..n], times, pid, service);
    CallAt(times, pid, service, n);
    assert Says(outs[n], RuntimeCalls(times, pid, service)[n]);
    if n > |STAGES| {
      var m := n - |STAGES| - 1;
      assert service[..m + 1][..m] == service[..m] && service[..m + 1][m] == service[m];
      ReplyIs(ch, outs[n], service[m]);
    } else {
      NoAnswer(ch, outs[n]);
    }
  }

  /** Frame `i` of a start is its stage, the ready frame, or what the service brings. */
  predicate Shape(f: Frame, times: seq<real>, pid: int, service: seq<Service>, i: nat)
    requires |times| == |STAGES| && i <= |STAGES| + |service|
  {
    var n := |STAGES|;
    && f.Object? && (Is(f, Stage) <==> i < n) && (Is(f, Ready) <==> i == n)
    && (i == n ==> f.pid.AsInt() == Some(pid))
    && (i < n ==>
          && f.stage == Value.Text(Literal(STAGES[i]))
          && Elapsed(f) as real <= times[i] * 1000.0 < (Elapsed(f) + 1) as real)
    && (Is(f, Commit) <==> i > n && service[i - n - 1].Depart?)
  }

  predicate Shapes(fs: seq<Frame>, times: seq<real>, pid: int, service: seq<Service>)
    requires |times| == |STAGES|
  {
    |fs| <= |STAGES| + 1 + |service| && forall i :: 0 <= i < |fs| ==> Shape(fs[i], times, pid, service, i)
  }

  lemma KindsFollowCalls(ch: Channel, times: seq<real>, pid: int, service: seq<Service>, outs: seq<Out>, i: nat)
    requires |times| == |STAGES| && AllSay(outs, RuntimeCalls(times, pid, service)) && i < |outs|
    ensures i <= |STAGES| + |service| && Shape(Meanings(ch, outs)[i], times, pid, service, i)
  {
    hide Literal, Strip, RuntimeCalls;
    CallCount(times, pid, service);
    CallAt(times, pid, service, i);
    assert Says(outs[i], RuntimeCalls(times, pid, service)[i]);
    if i < |STAGES| {
      StageLetters(i);
      LettersAreStripped(STAGES[i]);
    }
    hide Letters;
  }

  lemma ReadyUnderstood(c: Core, fs: seq<Frame>, times: seq<real>, pid: int, service: seq<Service>)
    requires |times| == |STAGES| && Shapes(fs, times, pid, service) && Reports(c, fs)
    ensures c.ready == (|fs| > |STAGES|) && c.pid == if |fs| > |STAGES| then Some(pid) else None
  {
    hide Answers, ReportsStage, Is, Elapsed, Literal;
    if |fs| > |STAGES| { assert Is(fs[|STAGES|], Ready); }
  }

  lemma StageUnderstood(c: Core, fs: seq<Frame>, times: seq<real>, pid: int, service: seq<Service>)
    requires |times| == |STAGES| && Shapes(fs, times, pid, service) && ReportsStage(c, fs)
    ensures StageKnown(c, times, |fs|)
  {
    hide Is, Elapsed, Literal;
    var last := (if |fs| < |STAGES| then |fs| else |STAGES|) - 1;
    if last >= 0 {
      assert Is(fs[last], Stage);
      var i :| 0 <= i < |fs| && LastStage(fs, i) && Elapsed(fs[i]) == c.elapsed && fs[i].stage == Value.Text(c.stage);
      assert i == last;
    }
  }

  lemma CommitUnderstood(c: Core, fs: seq<Frame>, times: seq<real>, pid: int, service: seq<Service>)
    requires |times| == |STAGES| && Shapes(fs, times, pid, service) && Reports(c, fs)
    ensures c.commit == Departs(Served(service, |fs|))
  {
    hide Answers, ReportsStage, Is, Elapsed, Literal;
    var n := |STAGES|;
    var served := Served(service, |fs|);
    if i :| 0 <= i < |served| && served[i].Depart? { assert Is(fs[i + n + 1], Commit); }
    if c.commit {
      var i :| 0 <= i < |fs| && Is(fs[i], Commit);
      assert served[i - n - 1].Depart?;
    }
  }

  /** The fields that the reader has after these frames. */
  lemma ReportsAreUnderstood(ch: Channel, times: seq<real>, pid: int, service: seq<Service>, outs: seq<Out>, c: Core)
    requires |times| == |STAGES| && AllSay(outs, RuntimeCalls(times, pid, service)) && Reports(c, Meanings(ch, outs))
    ensures |outs| <= |STAGES| + 1 + |service| && Understood(c, times, pid, service, |outs|)
  {
    hide Literal, RuntimeCalls, Meaning, AllSay, Shape, Replies, Served, Departs, StageKnown, Reports;
    var fs := Meanings(ch, outs);
    CallCount(times, pid, service);
    ShortEnough(outs, RuntimeCalls(times, pid, service));
    ReportParts(c, fs);
    forall i | 0 <= i < |outs| ensures Shape(fs[i], times, pid, service, i) {
      KindsFollowCalls(ch, times, pid, service, outs, i);
    }
    ReadyUnderstood(c, fs, times, pid, service);
    StageUnderstood(c, fs, times, pid, service);
    CommitUnderstood(c, fs, times, pid, service);
    AnswersAreReplies(ch, outs, times, pid, service);
  }

  lemma ReportParts(c: Core, fs: seq<Frame>)
    requires Reports(c, fs)
    ensures ReportsStage(c, fs) && c.results == Answers(fs)
  {
    hide ReportsStage, Answers, Is, Has;
  }

  lemma ShortEnough(outs: seq<Out>, calls: seq<Call>)
    requires AllSay(outs, calls)
    ensures |outs| <= |calls|
  {}

  /** And then the reader knows what the calls said: the last stage and its time, the pid once ready came, whether a
      commit came, and every answer with the first 1024 characters of its detail. */
  lemma RuntimeIsUnderstood(r: Reader, ch: Channel, times: seq<real>, pid: int, service: seq<Service>, outs: seq<Out>,
                            chunks: seq<Bytes>, eof: bool)
    requires r.boot == ch.boot && r.nonce == ch.nonce && IsAscii(r.nonce) && Inverts(r, ch, outs)
    requires |times| == |STAGES| && Ticks(times) && DepartsOnce(service)
    requires |outs| <= |RuntimeCalls(times, pid, service)|
    requires forall i :: 0 <= i < |outs| ==> Emit(ch, RuntimeCalls(times, pid, service)[i]) == Some(outs[i])
    requires Flatten(chunks) == Output(ch, outs) && AllFit(outs)
    ensures |outs| <= |STAGES| + 1 + |service|
    ensures var c := FeedStream(r, START, chunks, eof).core;
            c.status.Healthy? && Understood(c, times, pid, service, |outs|)
  {
    hide Emit, Emittable, AllFit, RuntimeCalls, Inverts, FeedStream, Output, Ticks, DepartsOnce, Understood, AllSay;
    hide Says, Sayable, Render, Lines, Tail, Decodes, Grammatical, Reports;
    RuntimeIsAccepted(r, ch, times, pid, service, outs, chunks, eof);
    var calls := RuntimeCalls(times, pid, service);
    forall i | 0 <= i < |outs| ensures Says(outs[i], calls[i]) { EmitExactly(ch, calls[i], outs[i]); }
    assert AllSay(outs, calls) by { SayAll(outs, calls); }
    StreamDecidesClean(r, chunks, eof);
    var n := LinesOfPrefix(ch, outs, Output(ch, outs));
    assert outs[..n] == outs;
    AllEmittable(ch, times, pid, service, outs);
    RendersDecode(r, ch, outs);
    ReportsAreUnderstood(ch, times, pid, service, outs, FeedStream(r, START, chunks, eof).core);
  }

  lemma SayAll(outs: seq<Out>, calls: seq<Call>)
    requires |outs| <= |calls| && forall i :: 0 <= i < |outs| ==> Says(outs[i], calls[i])
    ensures AllSay(outs, calls)
  {}

  lemma AllEmittable(ch: Channel, times: seq<real>, pid: int, service: seq<Service>, outs: seq<Out>)
    requires |times| == |STAGES| && Ticks(times) && DepartsOnce(service)
    requires |outs| <= |RuntimeCalls(times, pid, service)|
    requires forall i :: 0 <= i < |outs| ==> Emit(ch, RuntimeCalls(times, pid, service)[i]) == Some(outs[i])
    ensures forall i :: 0 <= i < |outs| ==> Emittable(ch, outs[i])
  {
    hide Emit, Emittable, Ordered, CallOrder, RuntimeCalls, Ticks, DepartsOnce;
    var calls := RuntimeCalls(times, pid, service)[..|outs|];
    RuntimeKeepsOrder(times, pid, service, calls);
    CallsAreOrdered(ch, calls, outs);
  }

  // ----- The two bounds on a settings detail -----

  predicate Plain(c: CodePoint) {
    32 <= c < 127 && c != 34 && c != 92
  }

  function PlainCount(s: Str): nat {
    if s == [] then 0 else (if Plain(s[0]) then 1 else 0) + PlainCount(s[1..])
  }

  /** The escaped form is long enough to bound the UTF-8 form. */
  lemma {:induction false} EscapingBoundsUtf8(s: Str)
    ensures 2 * Utf8Length(s) <= |EscapeAll(s)| + PlainCount(s)
  {
    if s != [] { EscapingBoundsUtf8(s[1..]); }
  }

  /** What the writer lets through with a boot id of 32 characters and few plain characters, the reader accepts. */
  lemma FewPlainFits(ch: Channel, success: bool, detail: Str)
    requires |ch.boot| == 32 && Emittable(ch, SettingsOut(success, detail))
    requires Encodable(detail) && PlainCount(detail) <= 100
    ensures DetailFits(SettingsOut(success, detail))
  {
    SettingsLength(ch, success, detail);
    EscapingBoundsUtf8(detail);
  }

  lemma PayloadLength(ch: Channel, success: bool, detail: Str)
    ensures |Payload(ch, SettingsOut(success, detail))| == 22 + |BoolText(success)| + |EscapeAll(detail)|
  {
    FieldLength("success", BoolText(success));
    FieldLength("detail", Quote(detail));
    hide EscapeAll, Literal, Field, BoolText;
  }

  lemma KindLength(success: bool, detail: Str)
    ensures |Quote(Literal(KindName(SettingsOut(success, detail))))| == 19
  {
    NameLength("settings_reloaded");
  }

  lemma RenderLength(ch: Channel, success: bool, detail: Str)
    ensures |Render(ch, SettingsOut(success, detail))|
              == 63 + |EscapeAll(ch.boot)| + |BoolText(success)| + |EscapeAll(detail)|
  {
    hide EscapeAll, Literal, Field, BoolText, KindName, Payload;
    var o := SettingsOut(success, detail);
    PayloadLength(ch, success, detail);
    KindLength(success, detail);
    FieldLength("type", Quote(Literal(KindName(o))));
    FieldLength("bootId", Quote(ch.boot));
  }

  lemma SettingsLength(ch: Channel, success: bool, detail: Str)
    ensures |Render(ch, SettingsOut(success, detail))| >= 67 + |ch.boot| + |EscapeAll(detail)|
    ensures (forall i :: 0 <= i < |ch.boot| ==> Plain(ch.boot[i])) ==>
              |Render(ch, SettingsOut(success, detail))| <= 68 + |ch.boot| + |EscapeAll(detail)|
  {
    hide Render, EscapeAll, Plain;
    RenderLength(ch, success, detail);
    EscapePrintable(ch.boot);
    if forall i :: 0 <= i < |ch.boot| ==> Plain(ch.boot[i]) { PlainLength(ch.boot); }
  }

  lemma FieldLength(name: string, value: Bytes)
    requires forall i :: 0 <= i < |name| ==> Plain(name[i] as int)
    ensures |Field(name, value)| == |name| + 3 + |value|
  {
    NameLength(name);
  }

  lemma {:induction false} PlainLength(s: Str)
    requires forall i :: 0 <= i < |s| ==> Plain(s[i])
    ensures |EscapeAll(s)| == |s|
  {
    if s != [] { PlainLength(s[1..]); }
  }

  lemma NameLength(name: string)
    requires forall i :: 0 <= i < |name| ==> Plain(name[i] as int)
    ensures |Quote(Literal(name))| == |name| + 2
  {
    PlainLength(Literal(name));
  }

  predicate AllPlain(s: Str) {
    forall i :: 0 <= i < |s| ==> Plain(s[i])
  }

  lemma PlainQuote(s: Str)
    requires forall i :: 0 <= i < |s| ==> Plain(s[i])
    ensures |Quote(s)| == |s| + 2
  {
    PlainLength(s);
  }

  lemma TextFieldLength(name: string, s: Str)
    requires (forall i :: 0 <= i < |name| ==> Plain(name[i] as int)) && forall i :: 0 <= i < |s| ==> Plain(s[i])
    ensures |Field(name, Quote(s))| == |name| + |s| + 5
  {
    FieldLength(name, Quote(s));
    PlainQuote(s);
  }

  lemma LineLength(ch: Channel, o: Out)
    requires AllPlain(ch.boot)
    ensures |Render(ch, o)| == |KindName(o)| + |ch.boot| + 24 + |Payload(ch, o)|
  {
    TextFieldLength("type", Literal(KindName(o)));
    TextFieldLength("bootId", ch.boot);
    hide Field, Quote, Payload, Literal;
  }

  lemma ReadyLength(ch: Channel, pid: int)
    ensures |Payload(ch, ReadyOut(pid))| == 6 + |Decimal(pid)|
  {
    FieldLength("pid", Decimal(pid));
    hide Field, Decimal;
  }

  lemma CommitLength(ch: Channel, id: Str)
    requires AllPlain(ch.nonce) && AllPlain(id)
    ensures |Payload(ch, CommitOut(id))| == |ch.nonce| + |id| + 25
  {
    TextFieldLength("nonce", ch.nonce);
    TextFieldLength("requestId", id);
    hide Field, Quote;
  }

  lemma StageLength(ch: Channel, stage: Str, elapsed: int)
    requires AllPlain(stage)
    ensures |Payload(ch, StageOut(stage, elapsed))| == |stage| + |Decimal(elapsed)| + 23
  {
    TextFieldLength("stage", stage);
    FieldLength("elapsedMs", Decimal(elapsed));
    hide Field, Quote, Decimal;
  }

  function Pow10(k: nat): nat {
    if k == 0 then 1 else 10 * Pow10(k - 1)
  }

  lemma {:induction false} DecimalShort(n: nat, k: nat)
    requires n < Pow10(k) && k > 0
    ensures |Decimal(n)| <= k
    decreases k
  {
    if n >= 10 { DecimalShort(n / 10, k - 1); }
  }

  lemma StageIsShort(i: nat)
    requires i < |STAGES|
    ensures |STAGES[i]| <= 16 && AllPlain(Literal(STAGES[i]))
  {
    StageLetters(i);
  }

  /** With an ordinary identity no call of a start raises, unless a number has more than 3000 digits. */
  lemma StartReturns(ch: Channel, times: seq<real>, pid: int, service: seq<Service>, i: nat, digits: nat)
    requires AllPlain(ch.boot) && |ch.boot| <= 64 && 0 < digits <= 3000
    requires |times| == |STAGES| && Ticks(times) && 0 < pid < Pow10(digits)
    requires forall j :: 0 <= j < |times| ==> (times[j] * 1000.0).Floor < Pow10(digits)
    requires i <= |STAGES|
    ensures i < |RuntimeCalls(times, pid, service)| && Emit(ch, RuntimeCalls(times, pid, service)[i]).Some?
  {
    hide Literal, RuntimeCalls, Pow10, Render, Payload, AllPlain, Decimal, Strip;
    CallCount(times, pid, service);
    CallAt(times, pid, service, i);
    if i < |STAGES| {
      StageLetters(i);
      LettersAreStripped(STAGES[i]);
      StageIsShort(i);
      var o := StageOut(Literal(STAGES[i]), (times[i] * 1000.0).Floor);
      LineLength(ch, o);
      StageLength(ch, o.stage, o.elapsed);
      DecimalShort(o.elapsed, digits);
      assert |Literal(STAGES[i])| == |STAGES[i]| by { LiteralLength(STAGES[i]); }
    } else {
      LineLength(ch, ReadyOut(pid));
      ReadyLength(ch, pid);
      DecimalShort(pid, digits);
    }
    hide Letters;
  }

  lemma LiteralLength(s: string)
    ensures |Literal(s)| == |s|
  {}

  /** Nor does a commit with a clean request id of up to 3800 plain characters. */
  lemma CommitReturns(ch: Channel, id: Str)
    requires AllPlain(ch.boot) && AllPlain(ch.nonce) && |ch.boot| <= 64 && |ch.nonce| <= 64
    requires AllPlain(id) && 0 < |id| <= 3800 && id[0] != 32 && id[|id| - 1] != 32
    ensures Emit(ch, CommitCall(id)) == Some(CommitOut(id))
  {
    hide Render, Payload, Emit, AllPlain;
    LineLength(ch, CommitOut(id));
    CommitLength(ch, id);
    assert Sayable(CommitCall(id)) by { PlainIsSayable(id); }
    EmitExactly(ch, CommitCall(id), CommitOut(id));
  }

  lemma PlainIsSayable(id: Str)
    requires AllPlain(id) && id != [] && id[0] != 32 && id[|id| - 1] != 32
    ensures Sayable(CommitCall(id))
  {}

  lemma {:induction false} RunLengths(s: Str, c: CodePoint)
    requires forall i :: 0 <= i < |s| ==> s[i] == c
    ensures |EscapeAll(s)| == |s| * |Escape(c)| && Utf8Length(s) == |s| * Utf8Width(c)
  {
    hide Escape, Utf8Width;
    if s != [] {
      RunLengths(s[1..], c);
      var n, e, u := |s|, |Escape(c)|, Utf8Width(c);
      assert n * e == e + (n - 1) * e && n * u == u + (n - 1) * u;
    }
  }

  lemma {:induction false} AppendLengths(s: Str, t: Str)
    ensures |EscapeAll(s + t)| == |EscapeAll(s)| + |EscapeAll(t)| && Utf8Length(s + t) == Utf8Length(s) + Utf8Length(t)
  {
    if s == [] {
      assert s + t == t;
    } else {
      assert (s + t)[1..] == s[1..] + t;
      AppendLengths(s[1..], t);
    }
  }

  /** The bounds do not agree: 400 letters and 590 ideographs are written and then refused. */
  lemma LongDetailIsWrittenButRefused(ch: Channel, success: bool, letters: Str, ideographs: Str)
    requires |ch.boot| == 32 && forall i :: 0 <= i < 32 ==> Plain(ch.boot[i])
    requires |letters| == 400 && forall i :: 0 <= i < |letters| ==> letters[i] == 0x61
    requires |ideographs| == 590 && forall i :: 0 <= i < |ideographs| ==> ideographs[i] == 0x4E2D
    ensures var o := SettingsOut(success, letters + ideographs);
            Emit(ch, SettingsCall(success, letters + ideographs)) == Some(o) && !DetailFits(o)
  {
    RunLengths(letters, 0x61);
    RunLengths(ideographs, 0x4E2D);
    AppendLengths(letters, ideographs);
    SettingsLength(ch, success, letters + ideographs);
    hide Render, EscapeAll, Utf8Length;
  }
}
