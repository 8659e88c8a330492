/** The supervisor's reader of the private lifecycle pipe: an incremental NDJSON parser over arbitrary read
    chunks that drives a protocol automaton. */
module Lifecycle {
  import opened Text

  const MAX_FRAME: nat := 4096

  // ----- Decoded frames -----

  /** A decoded JSON value. `Other` stands for numbers with a fraction, lists and objects: the automaton only
      asks whether they are true and what `str` prints for them. A missing key reads as `Null`. */
  datatype Value =
    | Null
    | Bool(b: bool)
    | Int(n: int)
    | Text(s: Str)
    | Other(truthy: bool, shown: Str)
  {
    /** `isinstance(v, int)`: Python counts the two booleans as integers. */
    function AsInt(): Option<int> {
      match this
      case Int(n) => Some(n)
      case Bool(b) => Some(if b then 1 else 0)
      case _ => None
    }

    /** `str(v or "")` */
    function Shown(): Str {
      match this
      case Null => []
      case Bool(b) => if b then [84, 114, 117, 101] else []
      case Int(n) => if n == 0 then [] else Decimal(n)
      case Text(s) => s
      case Other(truthy, shown) => if truthy then shown else []
    }
  }

  /** Which values count as the integer `n`. */
  lemma CountsAs(v: Value, n: int)
    ensures v.AsInt() == Some(n) <==> v == Int(n) || (v == Bool(true) && n == 1) || (v == Bool(false) && n == 0)
  {}

  /** Which values print as a text that is not empty. */
  lemma PrintsAs(v: Value, text: Str)
    requires text != []
    ensures v.Shown() == text <==>
              (|| v == Text(text) || v == Other(true, text)
               || (v.Int? && v.n != 0 && text == Decimal(v.n)) || (v == Bool(true) && text == Literal("True")))
  {
    assert Literal("True") == [84, 114, 117, 101];
  }

  /** Decimal digits, as Python and JSON print an integer. */
  function Decimal(n: int): (r: Bytes)
    ensures r != [] && forall i :: 0 <= i < |r| ==> 32 <= r[i] < 127
    decreases n < 0, if n < 0 then -n else n
  {
    if n < 0 then [45] + Decimal(-n)
    else if n < 10 then [48 + n]
    else Decimal(n / 10) + [48 + n % 10]
  }

  /** The number that decimal digits write, with an optional sign. */
  function ReadDecimal(b: Bytes): int
    decreases |b|
  {
    if b == [] then 0
    else if b[0] == 45 then -ReadDecimal(b[1..])
    else 10 * ReadDecimal(b[..|b| - 1]) + b[|b| - 1] - 48
  }

  /** Decimal digits read back, for every integer. */
  lemma {:induction false} DecimalReadsBack(n: int)
    ensures ReadDecimal(Decimal(n)) == n && (n >= 0 ==> forall i :: 0 <= i < |Decimal(n)| ==> 48 <= Decimal(n)[i] <= 57)
    decreases n < 0, if n < 0 then -n else n
  {
    if n < 0 {
      DecimalReadsBack(-n);
      assert Decimal(n)[1..] == Decimal(-n);
    } else if n < 10 {
      assert Decimal(n)[..0] == [];
    } else {
      DecimalReadsBack(n / 10);
      DigitStep(Decimal(n / 10), 48 + n % 10);
    }
  }

  lemma DigitStep(b: Bytes, digit: Byte)
    requires b != [] && b[0] != 45
    ensures ReadDecimal(b + [digit]) == 10 * ReadDecimal(b) + digit - 48
  {
    assert (b + [digit])[..|b|] == b;
  }

  datatype Kind = Stage | Ready | Commit | SettingsReloaded | Unknown

  datatype Frame =
    | NotObject
    | Object(bootId: Value, kind: Kind, stage: Value, elapsedMs: Value, pid: Value,
             requestId: Value, nonce: Value, success: Value, detail: Option<Value>)

  /** What `json.loads` does with one line: a value, one of the two caught errors, or an exception that escapes. */
  datatype Decoded = Parsed(frame: Frame) | NotJson | Escapes

  type Decoder = Bytes -> Decoded

  // ----- The automaton -----

  datatype Refusal =
    | Oversized | Unfinished | InvalidJson | WrongBoot | UnknownFrame
    | BadStage | BadReady | BadCommit | BadSettings
    | DrainBudget | StartupTimeout | UnrequestedResult | RepeatedResult | GatewayGone | ForeignPid

  datatype Status = Healthy | Refused(why: Refusal) | Raised

  /** The identity one boot was given, with the decoder of its frames. */
  datatype Reader = Reader(boot: Str, nonce: Str, decode: Decoder)

  datatype Core = Core(
    ready: bool, pid: Option<int>, commit: bool, stage: Str, elapsed: int, results: seq<(bool, Str)>, status: Status)

  datatype State = State(core: Core, buffer: Bytes)

  const FRESH: Core := Core(false, None, false, Literal("guardian.spawn"), -1, [], Healthy)
  const START: State := State(FRESH, [])

  function Refuse(c: Core, why: Refusal): Core {
    c.(status := Refused(why))
  }

  function AcceptStage(c: Core, f: Frame): Core
    requires f.Object?
  {
    if && f.stage.Text? && Strip(f.stage.s) != []
       && f.elapsedMs.AsInt().Some? && f.elapsedMs.AsInt().value >= c.elapsed && !c.ready
    then c.(stage := f.stage.s, elapsed := f.elapsedMs.AsInt().value)
    else Refuse(c, BadStage)
  }

  function AcceptReady(c: Core, f: Frame): Core
    requires f.Object?
  {
    if c.ready || f.pid.AsInt().None? || f.pid.AsInt().value <= 0 then Refuse(c, BadReady)
    else c.(ready := true, pid := f.pid.AsInt())
  }

  /** `secrets.compare_digest` raises for a string outside ASCII, and is reached only after the other tests. */
  function AcceptCommit(r: Reader, c: Core, f: Frame): Core
    requires f.Object?
  {
    if || !c.ready || c.commit
       || !f.requestId.Text? || f.requestId.s == [] || Strip(f.requestId.s) != f.requestId.s then Refuse(c, BadCommit)
    else if !IsAscii(f.nonce.Shown()) || !IsAscii(r.nonce) then c.(status := Raised)
    else if f.nonce.Shown() != r.nonce then Refuse(c, BadCommit)
    else c.(commit := true)
  }

  function Detail(f: Frame): Value
    requires f.Object?
  {
    if f.detail.None? then Text([]) else f.detail.value
  }

  /** Encoding a detail that holds a lone surrogate raises. */
  function AcceptSettings(c: Core, f: Frame): Core
    requires f.Object?
  {
    if !c.ready || !f.success.Bool? || !Detail(f).Text? then Refuse(c, BadSettings)
    else if !Encodable(Detail(f).s) then c.(status := Raised)
    else if Utf8Length(Detail(f).s) > 2048 then Refuse(c, BadSettings)
    else c.(results := c.results + [(f.success.b, Detail(f).s)])
  }

  /** A missing detail is the empty text, and one that is null is refused. */
  lemma DetailMayBeMissing(c: Core, f: Frame)
    requires f.Object? && c.ready && f.success.Bool?
    ensures f.detail.None? ==> AcceptSettings(c, f) == c.(results := c.results + [(f.success.b, [])])
    ensures f.detail == Some(Null) ==> AcceptSettings(c, f).status == Refused(BadSettings)
  {}

  function AcceptFrame(r: Reader, c: Core, f: Frame): Core {
    if !c.status.Healthy? then c
    else if f.NotObject? || f.bootId != Text(r.boot) then Refuse(c, WrongBoot)
    else match f.kind
      case Stage => AcceptStage(c, f)
      case Ready => AcceptReady(c, f)
      case Commit => AcceptCommit(r, c, f)
      case SettingsReloaded => AcceptSettings(c, f)
      case Unknown => Refuse(c, UnknownFrame)
  }

  function Accept(r: Reader, c: Core, raw: Bytes): Core {
    if !c.status.Healthy? then c
    else match r.decode(raw)
      case Parsed(f) => AcceptFrame(r, c, f)
      case NotJson => Refuse(c, InvalidJson)
      case Escapes => c.(status := Raised)
  }

  // ----- The incremental parser -----

  /** Position of the first newline, or the length when there is none. */
  function Newline(b: Bytes): (i: nat)
    ensures i <= |b|
  {
    if b == [] || b[0] == NEWLINE then 0 else 1 + Newline(b[1..])
  }

  /** The `while` loop of one feed. */
  function Drain(r: Reader, s: State): State
    decreases |s.buffer|
  {
    var i := Newline(s.buffer);
    if i == |s.buffer| then s else
    var raw, rest := s.buffer[..i], s.buffer[i + 1..];
    if raw == [] then Drain(r, State(s.core, rest))
    else if |raw| > MAX_FRAME then State(Refuse(s.core, Oversized), rest)
    else
      var c := Accept(r, s.core, raw);
      if c.status.Raised? then State(c, rest) else Drain(r, State(c, rest))
  }

  /** The checks after the loop. */
  function Settle(s: State, eof: bool): State {
    if s.core.status.Raised? then s else
    var a := if |s.buffer| > MAX_FRAME && s.core.status.Healthy? then State(Refuse(s.core, Oversized), s.buffer) else s;
    var b := if eof && a.buffer != [] && a.core.status.Healthy? then State(Refuse(a.core, Unfinished), a.buffer) else a;
    if b.core.status.Refused? then State(b.core.(commit := false), b.buffer) else b
  }

  function Feed(r: Reader, s: State, payload: Bytes, eof: bool): State {
    Settle(Drain(r, State(s.core, s.buffer + payload)), eof)
  }

  /** A sequence of reads; an exception ends it. */
  function FeedAll(r: Reader, s: State, chunks: seq<Bytes>): State
    decreases |chunks|
  {
    if chunks == [] || s.core.status.Raised? then s
    else FeedAll(r, Feed(r, s, chunks[0], false), chunks[1..])
  }

  /** The reads of one pipe, and its end of file if `eof`. */
  function FeedStream(r: Reader, s: State, chunks: seq<Bytes>, eof: bool): State {
    var t := FeedAll(r, s, chunks);
    if eof && !t.core.status.Raised? then Feed(r, t, [], true) else t
  }

  function Flatten(chunks: seq<Bytes>): Bytes {
    if chunks == [] then [] else chunks[0] + Flatten(chunks[1..])
  }

  // ----- Chunk invariance -----

  /** What holds between two feeds. */
  predicate Between(s: State) {
    && (s.core.status.Healthy? ==> Newline(s.buffer) == |s.buffer| <= MAX_FRAME)
    && (s.core.status.Refused? ==> !s.core.commit)
  }

  /** Equal in everything but the words of a refusal and the bytes left behind after one. */
  predicate Same(s: State, t: State) {
    && s.core.(status := Healthy) == t.core.(status := Healthy)
    && (s.core.status.Healthy? <==> t.core.status.Healthy?)
    && (s.core.status.Raised? <==> t.core.status.Raised?)
    && (s.core.status.Healthy? ==> s.buffer == t.buffer)
  }

  /** `Newline` finds the first newline. */
  lemma {:induction false} NewlineIsFirst(b: Bytes)
    ensures var i := Newline(b);
            (i < |b| ==> b[i] == NEWLINE) && forall j :: 0 <= j < i ==> b[j] != NEWLINE
  {
    if b != [] && b[0] != NEWLINE {
      NewlineIsFirst(b[1..]);
      assert forall j :: 0 < j < |b| ==> b[j] == b[1..][j - 1];
    }
  }

  lemma NewlineAt(b: Bytes, i: nat)
    requires i <= |b| && (forall j :: 0 <= j < i ==> b[j] != NEWLINE) && (i < |b| ==> b[i] == NEWLINE)
    ensures Newline(b) == i
  {
    hide Newline;
    NewlineIsFirst(b);
  }

  lemma NewlineAppend(b: Bytes, more: Bytes)
    requires Newline(b) < |b|
    ensures var i := Newline(b);
            && Newline(b + more) == i
            && (b + more)[..i] == b[..i] && (b + more)[i + 1..] == b[i + 1..] + more
  {
    hide Newline;
    NewlineIsFirst(b);
    NewlineAt(b + more, Newline(b));
  }

  lemma NewlineGrows(b: Bytes, more: Bytes)
    requires Newline(b) == |b|
    ensures Newline(b + more) >= |b|
  {
    hide Newline;
    NewlineIsFirst(b);
    NewlineIsFirst(b + more);
    assert forall j :: 0 <= j < |b| ==> (b + more)[j] == b[j];
  }

  /** Once refused, nothing but the words of the refusal and the buffer changes. */
  lemma {:induction false} DrainRefused(r: Reader, s: State)
    requires s.core.status.Refused?
    ensures var t := Drain(r, s); t.core.status.Refused? && t.core.(status := Healthy) == s.core.(status := Healthy)
    decreases |s.buffer|
  {
    hide Newline;
    var i := Newline(s.buffer);
    if i < |s.buffer| {
      DrainRefused(r, State(s.core, s.buffer[i + 1..]));
    }
  }

  /** `u` is what draining goes on to from `t` when `more` comes. */
  predicate Continues(r: Reader, t: State, u: State, more: Bytes) {
    if t.core.status.Healthy? then Newline(t.buffer) == |t.buffer| && u == Drain(r, State(t.core, t.buffer + more))
    else Same(t, u)
  }

  /** The state after the first line of a buffer that has one, and whether the loop stops there. */
  function FirstLine(r: Reader, s: State): (State, bool)
    requires Newline(s.buffer) < |s.buffer|
  {
    var i := Newline(s.buffer);
    var raw, rest := s.buffer[..i], s.buffer[i + 1..];
    var c :=
      if raw == [] then s.core else if |raw| > MAX_FRAME then Refuse(s.core, Oversized) else Accept(r, s.core, raw);
    (State(c, rest), raw != [] && (|raw| > MAX_FRAME || c.status.Raised?))
  }

  /** One turn of the loop. */
  lemma DrainStep(r: Reader, s: State)
    requires Newline(s.buffer) < |s.buffer|
    ensures var (t, stop) := FirstLine(r, s); Drain(r, s) == if stop then t else Drain(r, t)
  {
    hide Accept, Newline;
  }

  lemma FirstLineAppend(r: Reader, s: State, more: Bytes)
    requires Newline(s.buffer) < |s.buffer| && !s.core.status.Raised?
    ensures Newline(s.buffer + more) < |s.buffer + more|
    ensures var (t, stop) := FirstLine(r, s);
            && |t.buffer| < |s.buffer|
            && FirstLine(r, State(s.core, s.buffer + more)) == (State(t.core, t.buffer + more), stop)
            && (stop ==> !t.core.status.Healthy?) && (!stop ==> !t.core.status.Raised?)
  {
    hide Accept, Newline;
    NewlineAppend(s.buffer, more);
  }

  /** Draining a longer buffer first does what draining the shorter one does. */
  lemma {:induction false} DrainAppend(r: Reader, s: State, more: Bytes)
    requires !s.core.status.Raised?
    ensures Continues(r, Drain(r, s), Drain(r, State(s.core, s.buffer + more)), more)
    decreases |s.buffer|
  {
    hide FirstLine, Newline, Accept;
    if Newline(s.buffer) == |s.buffer| {
      if s.core.status.Refused? { DrainRefused(r, State(s.core, s.buffer + more)); }
      return;
    }
    FirstLineAppend(r, s, more);
    DrainStep(r, s);
    DrainStep(r, State(s.core, s.buffer + more));
    hide Drain;
    var (t, stop) := FirstLine(r, s);
    if !stop {
      hide Continues;
      DrainAppend(r, t, more);
    }
  }

  /** An unfinished line over the bound is refused now or when its newline comes. */
  lemma DrainLong(r: Reader, s: State, more: Bytes, eof: bool)
    requires s.core.status.Healthy? && Newline(s.buffer) == |s.buffer| > MAX_FRAME
    ensures var v := Settle(Drain(r, State(s.core, s.buffer + more)), eof);
            v.core.status.Refused? && v.core.(status := Healthy) == s.core.(commit := false)
  {
    NewlineGrows(s.buffer, more);
  }

  lemma FeedBetween(r: Reader, s: State, payload: Bytes, eof: bool)
    requires !s.core.status.Raised?
    ensures Between(Feed(r, s, payload, eof))
  {
    DrainAppend(r, State(s.core, s.buffer + payload), []);
  }

  /** The checks between two feeds never change what the second one finds. */
  lemma SettleBetween(r: Reader, d: State, more: Bytes, eof: bool)
    requires d.core.status.Healthy? ==> Newline(d.buffer) == |d.buffer|
    requires !d.core.status.Raised?
    ensures var t := Settle(d, false);
            Same(Settle(Drain(r, State(t.core, t.buffer + more)), eof),
                 Settle(if d.core.status.Healthy? then Drain(r, State(d.core, d.buffer + more)) else d, eof))
  {
    var t := Settle(d, false);
    if t.core.status.Refused? {
      DrainRefused(r, State(t.core, t.buffer + more));
      if d.core.status.Healthy? { DrainLong(r, d, more, eof); }
    }
  }

  /** Two feeds are one feed of both payloads. */
  lemma FeedTwice(r: Reader, s: State, a: Bytes, b: Bytes, eof: bool)
    requires !s.core.status.Raised?
    ensures var t := Feed(r, s, a, false);
            Same(if t.core.status.Raised? then t else Feed(r, t, b, eof), Feed(r, s, a + b, eof))
  {
    var joined := State(s.core, s.buffer + a);
    assert s.buffer + (a + b) == joined.buffer + b;
    DrainAppend(r, joined, b);
    if !Drain(r, joined).core.status.Raised? {
      SettleBetween(r, Drain(r, joined), b, eof);
    }
  }

  lemma FeedNothing(r: Reader, s: State)
    requires Between(s) && !s.core.status.Raised?
    ensures Same(Feed(r, s, [], false), s)
  {
    assert s.buffer + [] == s.buffer;
    if s.core.status.Refused? { DrainRefused(r, s); }
  }

  /** However a stream is cut into reads, the reader ends as if it had come in one. */
  lemma {:induction false} ChunkInvariance(r: Reader, s: State, chunks: seq<Bytes>, eof: bool)
    requires Between(s) && !s.core.status.Raised?
    ensures Same(FeedStream(r, s, chunks, eof), Feed(r, s, Flatten(chunks), eof))
    decreases |chunks|
  {
    if chunks == [] {
      if !eof { FeedNothing(r, s); }
    } else {
      var t := Feed(r, s, chunks[0], false);
      FeedTwice(r, s, chunks[0], Flatten(chunks[1..]), eof);
      if !t.core.status.Raised? {
        FeedBetween(r, s, chunks[0], false);
        ChunkInvariance(r, t, chunks[1..], eof);
      }
      assert FeedStream(r, s, chunks, eof) == FeedStream(r, t, chunks[1..], eof);
    }
  }

  // ----- The drain after the guardian has exited -----

  const READ_SIZE: nat := 65536
  const DRAIN_BUDGET: nat := 65536

  type Chunk = b: Bytes | b != [] witness [0]

  /** What one non-blocking `os.read` finds. */
  datatype Read = Data(data: Chunk) | EndOfFile | WouldBlock

  /** One read of at most `cap` bytes; what did not fit stays in the pipe. */
  function NextRead(pipe: seq<Read>, cap: nat): (r: (Read, seq<Read>))
    requires cap > 0
    ensures r.0.Data? ==> |r.0.data| <= cap
  {
    if pipe == [] then (WouldBlock, [])
    else if pipe[0].Data? && |pipe[0].data| > cap then
      (Data(pipe[0].data[..cap]), [Data(pipe[0].data[cap..])] + pipe[1..])
    else (pipe[0], pipe[1..])
  }

  datatype Drained = Drained(state: State, got: Bytes, eof: bool)

  function DrainCap(total: nat): nat
    requires total <= DRAIN_BUDGET
  {
    if READ_SIZE < DRAIN_BUDGET - total + 1 then READ_SIZE else DRAIN_BUDGET - total + 1
  }

  function OverBudget(s: State): State {
    State(Refuse(s.core, DrainBudget).(commit := false), s.buffer)
  }

  /** The exit drain; `got` collects what was read. */
  function ExitDrain(r: Reader, s: State, got: Bytes, pipe: seq<Read>): Drained
    requires |got| <= DRAIN_BUDGET
    decreases DRAIN_BUDGET - |got|
  {
    var (read, rest) := NextRead(pipe, DrainCap(|got|));
    match read
    case WouldBlock => Drained(s, got, false)
    case EndOfFile => Drained(Feed(r, s, [], true), got, true)
    case Data(chunk) =>
      var all := got + chunk;
      if |all| > DRAIN_BUDGET then Drained(OverBudget(s), all, false) else
      var t := Feed(r, s, chunk, false);
      if t.core.status.Raised? then Drained(t, all, false) else ExitDrain(r, t, all, rest)
  }

  /** The drain reads at most one byte over its budget; within it, it is one feed of everything it read,
      and beyond it the stream is refused. */
  lemma {:induction false} DrainIsOneFeed(r: Reader, s: State, before: State, got: Bytes, pipe: seq<Read>)
    requires |got| <= DRAIN_BUDGET && Between(before) && !before.core.status.Raised?
    requires Between(s) && !s.core.status.Raised? && Same(s, Feed(r, before, got, false))
    ensures var d := ExitDrain(r, s, got, pipe);
            && |d.got| <= DRAIN_BUDGET + 1
            && Between(d.state)
            && (|d.got| <= DRAIN_BUDGET ==> Same(d.state, Feed(r, before, d.got, d.eof)))
            && (|d.got| > DRAIN_BUDGET ==> d.state.core.status == Refused(DrainBudget) && !d.state.core.commit)
    decreases DRAIN_BUDGET - |got|
  {
    var (read, rest) := NextRead(pipe, DrainCap(|got|));
    FeedBetween(r, before, got, false);
    match read
    case WouldBlock =>
    case EndOfFile =>
      FeedBetween(r, s, [], true);
      FeedTwice(r, before, got, [], true);
      assert got + [] == got;
      FeedSame(r, s, Feed(r, before, got, false), [], true);
    case Data(chunk) =>
      var t := Feed(r, s, chunk, false);
      FeedBetween(r, s, chunk, false);
      FeedTwice(r, before, got, chunk, false);
      FeedSame(r, s, Feed(r, before, got, false), chunk, false);
      if |got + chunk| <= DRAIN_BUDGET && !t.core.status.Raised? {
        DrainIsOneFeed(r, t, before, got + chunk, rest);
      }
  }

  /** States that differ only in a refusal's words and leftovers stay that way. */
  lemma FeedSame(r: Reader, s: State, t: State, payload: Bytes, eof: bool)
    requires Between(s) && Between(t) && Same(s, t) && !s.core.status.Raised?
    ensures Same(Feed(r, s, payload, eof), Feed(r, t, payload, eof))
  {
    if s.core.status.Refused? {
      DrainRefused(r, State(s.core, s.buffer + payload));
      DrainRefused(r, State(t.core, t.buffer + payload));
    }
  }

  /** What the pipe yields before it is empty or at its end, and whether it ends. */
  function Available(pipe: seq<Read>): (Bytes, bool)
    decreases |pipe|
  {
    if pipe == [] || pipe[0].WouldBlock? then ([], false)
    else if pipe[0].EndOfFile? then ([], true)
    else (pipe[0].data + Available(pipe[1..]).0, Available(pipe[1..]).1)
  }

  /** One read takes the first bytes that are available. */
  lemma ReadTakes(pipe: seq<Read>, cap: nat)
    requires cap > 0
    ensures var (read, rest) := NextRead(pipe, cap);
            if read.Data? then Available(pipe) == (read.data + Available(rest).0, Available(rest).1)
            else Available(pipe) == ([], read.EndOfFile?)
  {
    if pipe != [] && pipe[0].Data? && |pipe[0].data| > cap {
      var rest := [Data(pipe[0].data[cap..])] + pipe[1..];
      assert rest[1..] == pipe[1..] && pipe[0].data == pipe[0].data[..cap] + pipe[0].data[cap..];
      assert pipe[0].data[..cap] + (pipe[0].data[cap..] + Available(pipe[1..]).0)
          == pipe[0].data + Available(pipe[1..]).0;
    }
  }

  lemma Regrouped(a: Bytes, b: Bytes, c: Bytes)
    ensures a + (b + c) == a + b + c && a <= a + c
  {}

  /** The drain takes a first part of what is available. */
  lemma {:induction false} DrainTakesPart(r: Reader, s: State, got: Bytes, pipe: seq<Read>)
    requires |got| <= DRAIN_BUDGET
    ensures got <= ExitDrain(r, s, got, pipe).got <= got + Available(pipe).0
    decreases DRAIN_BUDGET - |got|
  {
    hide Feed, NextRead, Available;
    var (read, rest) := NextRead(pipe, DrainCap(|got|));
    ReadTakes(pipe, DrainCap(|got|));
    if read.Data? {
      Regrouped(got, read.data, Available(rest).0);
      var t := Feed(r, s, read.data, false);
      if |got + read.data| <= DRAIN_BUDGET && !t.core.status.Raised? {
        DrainTakesPart(r, t, got + read.data, rest);
      }
    }
  }

  /** Unless an exception escapes, the drain takes all that is available and notices the end; of more than its budget it
      takes the budget and one byte. */
  lemma {:induction false} DrainTakesAll(r: Reader, s: State, got: Bytes, pipe: seq<Read>)
    requires |got| <= DRAIN_BUDGET && !ExitDrain(r, s, got, pipe).state.core.status.Raised?
    ensures var d, all := ExitDrain(r, s, got, pipe), got + Available(pipe).0;
            if |all| <= DRAIN_BUDGET then d.got == all && d.eof == Available(pipe).1
            else d.got == all[..DRAIN_BUDGET + 1] && !d.eof
    decreases DRAIN_BUDGET - |got|
  {
    hide Feed, NextRead, Available;
    var (read, rest) := NextRead(pipe, DrainCap(|got|));
    ReadTakes(pipe, DrainCap(|got|));
    if read.Data? {
      Regrouped(got, read.data, Available(rest).0);
      var t := Feed(r, s, read.data, false);
      if |got + read.data| <= DRAIN_BUDGET && !t.core.status.Raised? {
        DrainTakesAll(r, t, got + read.data, rest);
      }
    }
  }
}
