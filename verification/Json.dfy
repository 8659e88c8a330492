/** A reader for the JSON that the channel writes: one object of strings, integers and booleans. With it the frames read
    back as they were meant, so the decoder that the theorems about the channel take as a parameter exists. */
module Json {
  import opened Text
  import opened Lifecycle
  import opened Channel

  // ----- Strings, section 7 of RFC 8259 -----

  function HexDigitValue(b: Byte): Option<nat> {
    if 48 <= b <= 57 then Some(b - 48) else if 97 <= b <= 102 then Some(b - 87) else None
  }

  /** The number that four hexadecimal digits write. */
  function Unit(b: Bytes): Option<nat>
    requires |b| >= 4
  {
    var (x, y, z, u) := (HexDigitValue(b[0]), HexDigitValue(b[1]), HexDigitValue(b[2]), HexDigitValue(b[3]));
    if x.None? || y.None? || z.None? || u.None? then None
    else Some(4096 * x.value + 256 * y.value + 16 * z.value + u.value)
  }

  /** A backslash, `u` and four digits. */
  function UnitEscape(b: Bytes): Option<nat> {
    if |b| >= 6 && b[0] == 92 && b[1] == 117 then Unit(b[2..]) else None
  }

  predicate IsHigh(u: nat) { 0xD800 <= u < 0xDC00 }

  predicate IsLow(u: nat) { 0xDC00 <= u < 0xE000 }

  /** What a backslash and this byte stand for. */
  function ShortEscape(b: Byte): Option<CodePoint> {
    if b == 34 || b == 92 || b == 47 then Some(b)
    else if b == 110 then Some(10) else if b == 114 then Some(13) else if b == 116 then Some(9)
    else if b == 102 then Some(12) else if b == 98 then Some(8) else None
  }

  /** One character of a string, and how many bytes it takes; two units of a surrogate pair make one. */
  function One(b: Bytes): (r: Option<(CodePoint, nat)>)
    ensures r.Some? ==> 0 < r.value.1 <= |b|
  {
    if b == [] || b[0] == 34 || b[0] < 32 || b[0] >= 128 then None
    else if b[0] != 92 then Some((b[0], 1))
    else if UnitEscape(b).Some? then
      var u := UnitEscape(b).value;
      if u >= 0x10000 then None
      else if IsHigh(u) && UnitEscape(b[6..]).Some? && IsLow(UnitEscape(b[6..]).value)
      then Some((0x10000 + (u - 0xD800) * 1024 + (UnitEscape(b[6..]).value - 0xDC00), 12))
      else Some((u, 6))
    else if |b| >= 2 && ShortEscape(b[1]).Some? then Some((ShortEscape(b[1]).value, 2))
    else None
  }

  /** Characters up to the closing quote, and what follows it. */
  function Characters(b: Bytes): (r: Option<(Str, Bytes)>)
    ensures r.Some? ==> |r.value.1| < |b|
    decreases |b|
  {
    if b == [] then None
    else if b[0] == 34 then Some(([], b[1..]))
    else match One(b)
      case None => None
      case Some((c, n)) =>
        match Characters(b[n..])
        case None => None
        case Some((s, rest)) => Some(([c] + s, rest))
  }

  lemma HexDigitReads(n: nat)
    requires n < 16
    ensures HexDigitValue(HexDigit(n)) == Some(n)
  {}

  lemma FourDigits(n: nat)
    requires n < 0x10000
    ensures n / 4096 < 16 && n / 256 % 16 < 16 && n / 16 % 16 < 16 && n % 16 < 16
    ensures n == 4096 * (n / 4096) + 256 * (n / 256 % 16) + 16 * (n / 16 % 16) + n % 16
  {
    assert n / 256 == 16 * (n / 4096) + n / 256 % 16;
    assert n / 16 == 16 * (n / 256) + n / 16 % 16;
  }

  lemma UnitOf(x: nat, y: nat, z: nat, u: nat, rest: Bytes)
    requires x < 16 && y < 16 && z < 16 && u < 16
    ensures UnitEscape([92, 117, HexDigit(x), HexDigit(y), HexDigit(z), HexDigit(u)] + rest)
         == Some(4096 * x + 256 * y + 16 * z + u)
  {
    HexDigitReads(x);
    HexDigitReads(y);
    HexDigitReads(z);
    HexDigitReads(u);
    hide HexDigit, HexDigitValue;
  }

  lemma UnitReads(n: nat, rest: Bytes)
    requires n < 0x10000
    ensures UnitEscape(UnicodeEscape(n) + rest) == Some(n) && |UnicodeEscape(n)| == 6
  {
    hide UnitEscape, HexDigit;
    FourDigits(n);
    UnitOf(n / 4096, n / 256 % 16, n / 16 % 16, n % 16, rest);
  }

  lemma PairReads(high: nat, low: nat, rest: Bytes)
    requires IsHigh(high) && IsLow(low)
    ensures One(UnicodeEscape(high) + UnicodeEscape(low) + rest)
         == Some((0x10000 + (high - 0xD800) * 1024 + (low - 0xDC00), 12))
  {
    var b := UnicodeEscape(high) + UnicodeEscape(low) + rest;
    UnitReads(high, UnicodeEscape(low) + rest);
    UnitReads(low, rest);
    assert b == UnicodeEscape(high) + (UnicodeEscape(low) + rest);
    assert b[0] == UnicodeEscape(high)[0] && b[6..] == UnicodeEscape(low) + rest;
    hide UnitEscape;
  }

  lemma UnitCharacterReads(c: CodePoint, rest: Bytes)
    requires c < 0x10000 && !IsSurrogate(c)
    ensures One(UnicodeEscape(c) + rest) == Some((c, 6))
  {
    UnitReads(c, rest);
    assert (UnicodeEscape(c) + rest)[0] == 92;
    hide UnitEscape;
  }

  lemma ShortReads(c: CodePoint, e: Byte, rest: Bytes)
    requires ShortEscape(e) == Some(c)
    ensures One([92, e] + rest) == Some((c, 2))
  {
    assert e != 117;
  }

  lemma PlainReads(c: Byte, rest: Bytes)
    requires 32 <= c < 127 && c != 34 && c != 92
    ensures One([c] + rest) == Some((c, 1))
  {
    assert ([c] + rest)[0] == c;
  }

  lemma PairDigits(d: nat)
    requires d < 0x100000
    ensures d == d / 1024 * 1024 + d % 1024 && d / 1024 < 1024 && d % 1024 < 1024
  {}

  /** A character that is no surrogate reads back from its escaped form. */
  lemma OneReadsBack(c: CodePoint, rest: Bytes)
    requires !IsSurrogate(c)
    ensures One(Escape(c) + rest) == Some((c, |Escape(c)|))
  {
    hide One, UnicodeEscape, UnitEscape;
    if c == 34 || c == 92 {
      ShortReads(c, c, rest);
    } else if c == 10 {
      ShortReads(c, 110, rest);
    } else if c == 13 {
      ShortReads(c, 114, rest);
    } else if c == 9 {
      ShortReads(c, 116, rest);
    } else if c == 12 {
      ShortReads(c, 102, rest);
    } else if c == 8 {
      ShortReads(c, 98, rest);
    } else if 32 <= c < 127 {
      PlainReads(c, rest);
    } else if c < 0x10000 {
      UnitReads(c, rest);
      UnitCharacterReads(c, rest);
    } else {
      var d := c - 0x10000;
      PairDigits(d);
      UnitReads(0xD800 + d / 1024, rest);
      UnitReads(0xDC00 + d % 1024, rest);
      PairReads(0xD800 + d / 1024, 0xDC00 + d % 1024, rest);
    }
  }

  lemma EscapeIsNoQuote(c: CodePoint, rest: Bytes)
    ensures Escape(c) != [] && (Escape(c) + rest)[0] != 34
  {}

  /** Every text without surrogates reads back from its escaped form. */
  lemma {:induction false} CharactersReadBack(s: Str, rest: Bytes)
    requires Encodable(s)
    ensures Characters(EscapeAll(s) + [34] + rest) == Some((s, rest))
    decreases |s|
  {
    if s == [] {
      var b := EscapeAll(s) + [34] + rest;
      assert b[0] == 34 && b[1..] == rest;
      return;
    }
    var e, more := Escape(s[0]), EscapeAll(s[1..]) + [34] + rest;
    var b := EscapeAll(s) + [34] + rest;
    assert b == e + more;
    hide Escape, EscapeAll, One;
    EscapeIsNoQuote(s[0], more);
    OneReadsBack(s[0], more);
    CharactersReadBack(s[1..], rest);
    assert b[|e|..] == more;
    assert s == [s[0]] + s[1..];
  }

  // ----- Values -----

  predicate IsNumeral(b: Byte) { 48 <= b <= 57 }

  function Numerals(b: Bytes): (n: nat)
    ensures n <= |b|
  {
    if b == [] || !IsNumeral(b[0]) then 0 else 1 + Numerals(b[1..])
  }

  function ReadValue(b: Bytes): (r: Option<(Value, Bytes)>)
    ensures r.Some? ==> |r.value.1| < |b|
  {
    if b == [] then None
    else if b[0] == 34 then
      match Characters(b[1..]) { case None => None case Some((s, rest)) => Some((Value.Text(s), rest)) }
    else if IsNumeral(b[0]) then Some((Int(ReadDecimal(b[..Numerals(b)])), b[Numerals(b)..]))
    else if Literal("true") <= b then Some((Bool(true), b[4..]))
    else if Literal("false") <= b then Some((Bool(false), b[5..]))
    else None
  }

  /** The rest does not go on with a numeral. */
  predicate Ended(rest: Bytes) { rest == [] || !IsNumeral(rest[0]) }

  lemma {:induction false} NumeralsEnd(digits: Bytes, rest: Bytes)
    requires (forall i :: 0 <= i < |digits| ==> IsNumeral(digits[i])) && Ended(rest)
    ensures Numerals(digits + rest) == |digits|
    decreases |digits|
  {
    if digits == [] {
      assert digits + rest == rest;
    } else {
      assert (digits + rest)[1..] == digits[1..] + rest;
      NumeralsEnd(digits[1..], rest);
    }
  }

  lemma QuoteTail(s: Str, rest: Bytes)
    ensures Quote(s) + rest != [] && (Quote(s) + rest)[0] == 34
    ensures (Quote(s) + rest)[1..] == EscapeAll(s) + [34] + rest
  {
    hide EscapeAll;
  }

  lemma TextReads(s: Str, rest: Bytes)
    requires Encodable(s)
    ensures ReadValue(Quote(s) + rest) == Some((Value.Text(s), rest))
  {
    hide EscapeAll, Characters, ReadDecimal, Numerals, Quote;
    CharactersReadBack(s, rest);
    QuoteTail(s, rest);
  }

  lemma NumberReads(n: nat, rest: Bytes)
    requires Ended(rest)
    ensures ReadValue(Decimal(n) + rest) == Some((Int(n), rest))
  {
    DecimalReadsBack(n);
    NumeralsEnd(Decimal(n), rest);
    hide Decimal, ReadDecimal, Numerals, Characters;
    var b := Decimal(n) + rest;
    assert b[0] == Decimal(n)[0] && b[..|Decimal(n)|] == Decimal(n) && b[|Decimal(n)|..] == rest;
  }

  lemma TruthReads(v: bool, rest: Bytes)
    ensures ReadValue(BoolText(v) + rest) == Some((Bool(v), rest))
  {
    hide ReadDecimal, Numerals, Characters;
    var b := BoolText(v) + rest;
    assert Literal("true") == [116, 114, 117, 101] && Literal("false") == [102, 97, 108, 115, 101];
    if v {
      assert b[4..] == rest;
    } else {
      assert b[0] == 102 && b[5..] == rest;
    }
  }

  // ----- Objects, section 4 of RFC 8259 -----

  type Members = seq<(Str, Value)>

  /** Members up to the closing brace, which ends the text. */
  function ReadMembers(b: Bytes): Option<Members>
    decreases |b|
  {
    if b == [] || b[0] != 34 then None
    else match Characters(b[1..])
      case None => None
      case Some((name, rest)) =>
        if rest == [] || rest[0] != 58 then None
        else match ReadValue(rest[1..])
          case None => None
          case Some((value, tail)) =>
            if tail == [125] then Some([(name, value)])
            else if tail == [] || tail[0] != 44 then None
            else match ReadMembers(tail[1..])
              case None => None
              case Some(members) => Some([(name, value)] + members)
  }

  /** The last member of this name. */
  function Find(members: Members, name: string): Option<Value>
    decreases |members|
  {
    if members == [] then None
    else if Find(members[1..], name).Some? then Find(members[1..], name)
    else if members[0].0 == Literal(name) then Some(members[0].1)
    else None
  }

  function Get(members: Members, name: string): Value {
    if Find(members, name).Some? then Find(members, name).value else Null
  }

  function KindOf(v: Value): Kind {
    if v == Value.Text(Literal("stage")) then Stage
    else if v == Value.Text(Literal("ready")) then Ready
    else if v == Value.Text(Literal("commit")) then Commit
    else if v == Value.Text(Literal("settings_reloaded")) then SettingsReloaded
    else Unknown
  }

  function FrameOf(m: Members): Frame {
    Object(Get(m, "bootId"), KindOf(Get(m, "type")), Get(m, "stage"), Get(m, "elapsedMs"), Get(m, "pid"),
           Get(m, "requestId"), Get(m, "nonce"), Get(m, "success"), Find(m, "detail"))
  }

  /** The decoder. */
  function Decode(b: Bytes): Decoded {
    if b == [] || b[0] != 123 then NotJson
    else match ReadMembers(b[1..])
      case None => NotJson
      case Some(members) => Parsed(FrameOf(members))
  }

  /** The bytes of a value, and that they are read as this value before a comma or a brace. */
  ghost predicate Writes(bytes: Bytes, v: Value) {
    forall rest :: Ended(rest) ==> ReadValue(bytes + rest) == Some((v, rest))
  }

  lemma TextWrites(s: Str)
    requires Encodable(s)
    ensures Writes(Quote(s), Value.Text(s))
  {
    hide ReadValue, Quote;
    forall rest ensures ReadValue(Quote(s) + rest) == Some((Value.Text(s), rest)) {
      TextReads(s, rest);
    }
  }

  lemma NumberWrites(n: nat)
    ensures Writes(Decimal(n), Int(n))
  {
    hide ReadValue, Decimal;
    forall rest | Ended(rest) ensures ReadValue(Decimal(n) + rest) == Some((Int(n), rest)) {
      NumberReads(n, rest);
    }
  }

  lemma TruthWrites(v: bool)
    ensures Writes(BoolText(v), Bool(v))
  {
    hide ReadValue, BoolText;
    forall rest ensures ReadValue(BoolText(v) + rest) == Some((Bool(v), rest)) {
      TruthReads(v, rest);
    }
  }

  lemma NamesEncode(name: string)
    requires forall i :: 0 <= i < |name| ==> Plain(name[i] as int)
    ensures Encodable(Literal(name))
  {}

  lemma FieldShape(name: string, bytes: Bytes, rest: Bytes)
    ensures var b := Field(name, bytes) + rest;
            b != [] && b[0] == 34 && b[1..] == EscapeAll(Literal(name)) + [34] + ([58] + (bytes + rest))
  {
    hide EscapeAll, Literal;
  }

  lemma LastMember(name: string, bytes: Bytes, v: Value)
    requires (forall i :: 0 <= i < |name| ==> Plain(name[i] as int)) && Writes(bytes, v)
    ensures ReadMembers(Field(name, bytes) + [125]) == Some([(Literal(name), v)])
  {
    NamesEncode(name);
    hide EscapeAll, Literal, Field, ReadValue, Characters, Encodable;
    FieldShape(name, bytes, [125]);
    CharactersReadBack(Literal(name), [58] + (bytes + [125]));
    assert ([58] + (bytes + [125]))[1..] == bytes + [125];
    assert Ended([125]);
  }

  lemma OneMember(name: string, bytes: Bytes, v: Value, more: Bytes)
    requires (forall i :: 0 <= i < |name| ==> Plain(name[i] as int)) && Writes(bytes, v) && ReadMembers(more).Some?
    ensures ReadMembers(Field(name, bytes) + ([44] + more)) == Some([(Literal(name), v)] + ReadMembers(more).value)
  {
    NamesEncode(name);
    var rest := [44] + more;
    assert rest != [125] && rest[0] == 44 && rest[1..] == more;
    FieldShape(name, bytes, rest);
    CharactersReadBack(Literal(name), [58] + (bytes + rest));
    assert ([58] + (bytes + rest))[1..] == bytes + rest;
    assert Ended(rest);
    MemberThen(name, bytes, v, rest, more);
  }

  lemma MemberThen(name: string, bytes: Bytes, v: Value, rest: Bytes, more: Bytes)
    requires ReadMembers(more).Some? && rest != [] && rest != [125] && rest[0] == 44 && rest[1..] == more
    requires ReadValue(bytes + rest) == Some((v, rest))
    requires var b := Field(name, bytes) + rest;
             && b != [] && b[0] == 34
             && Characters(b[1..]) == Some((Literal(name), [58] + (bytes + rest)))
    ensures ReadMembers(Field(name, bytes) + rest) == Some([(Literal(name), v)] + ReadMembers(more).value)
  {
    hide EscapeAll, Literal, Field, ReadValue, Characters, Encodable;
    assert ([58] + (bytes + rest))[1..] == bytes + rest;
  }

  // ----- Frames -----

  /** The texts of a frame hold no lone surrogate, and its numbers are not negative. */
  predicate Sendable(ch: Channel, o: Out) {
    && Encodable(ch.boot) && Encodable(ch.nonce)
    && match o
       case StageOut(stage, elapsed) => Encodable(stage) && elapsed >= 0
       case ReadyOut(pid) => pid >= 0
       case CommitOut(id) => Encodable(id)
       case SettingsOut(_, detail) => Encodable(detail)
  }

  predicate PlainName(name: string) {
    forall i :: 0 <= i < |name| ==> Plain(name[i] as int)
  }

  lemma LiteralsDiffer(a: string, b: string)
    ensures Literal(a) == Literal(b) <==> a == b
  {
    if Literal(a) == Literal(b) {
      assert |a| == |b|;
      forall i | 0 <= i < |a| ensures a[i] == b[i] {
        assert Literal(a)[i] == Literal(b)[i];
      }
    }
  }

  /** Looking a name up in front of further members. */
  lemma FindCons(name: string, v: Value, more: Members, wanted: string)
    ensures Find([(Literal(name), v)] + more, wanted)
         == if Find(more, wanted).Some? then Find(more, wanted) else if name == wanted then Some(v) else None
  {
    LiteralsDiffer(name, wanted);
    hide Literal;
    assert ([(Literal(name), v)] + more)[1..] == more;
  }

  /** One member: its name and its value. */
  function Member(name: string, v: Value): Members {
    [(Literal(name), v)]
  }

  function PayloadMembers(ch: Channel, o: Out): Members {
    match o
    case StageOut(stage, elapsed) => Member("stage", Value.Text(stage)) + Member("elapsedMs", Int(elapsed))
    case ReadyOut(pid) => Member("pid", Int(pid))
    case CommitOut(id) => Member("nonce", Value.Text(ch.nonce)) + Member("requestId", Value.Text(id))
    case SettingsOut(success, detail) => Member("success", Bool(success)) + Member("detail", Value.Text(detail))
  }

  function MembersOf(ch: Channel, o: Out): Members {
    Member("type", Value.Text(Literal(KindName(o)))) + (Member("bootId", Value.Text(ch.boot)) + PayloadMembers(ch, o))
  }

  lemma TwoMembers(a: string, x: Bytes, v: Value, b: string, y: Bytes, u: Value)
    requires PlainName(a) && PlainName(b) && Writes(x, v) && Writes(y, u)
    ensures ReadMembers(Field(a, x) + [44] + Field(b, y) + [125]) == Some(Member(a, v) + Member(b, u))
  {
    hide Field, ReadMembers, Writes, Literal;
    LastMember(b, y, u);
    OneMember(a, x, v, Field(b, y) + [125]);
    assert Field(a, x) + [44] + Field(b, y) + [125] == Field(a, x) + ([44] + (Field(b, y) + [125]));
  }

  lemma PayloadReads(ch: Channel, o: Out)
    requires Sendable(ch, o)
    ensures ReadMembers(Payload(ch, o) + [125]) == Some(PayloadMembers(ch, o))
  {
    hide Field, ReadMembers, Writes, Literal, Quote, Decimal, BoolText, Encodable, Member;
    match o {
      case StageOut(stage, elapsed) =>
        TextWrites(stage);
        NumberWrites(elapsed);
        TwoMembers("stage", Quote(stage), Value.Text(stage), "elapsedMs", Decimal(elapsed), Int(elapsed));
      case ReadyOut(pid) =>
        NumberWrites(pid);
        LastMember("pid", Decimal(pid), Int(pid));
        OneIs("pid", Int(pid));
      case CommitOut(id) =>
        TextWrites(ch.nonce);
        TextWrites(id);
        TwoMembers("nonce", Quote(ch.nonce), Value.Text(ch.nonce), "requestId", Quote(id), Value.Text(id));
      case SettingsOut(success, detail) =>
        TruthWrites(success);
        TextWrites(detail);
        TwoMembers("success", BoolText(success), Bool(success), "detail", Quote(detail), Value.Text(detail));
    }
  }

  lemma OneIs(name: string, v: Value)
    ensures Member(name, v) == [(Literal(name), v)]
  {}

  lemma RenderReads(ch: Channel, o: Out)
    requires Sendable(ch, o)
    ensures Render(ch, o) != [] && Render(ch, o)[0] == 123
    ensures ReadMembers(Render(ch, o)[1..]) == Some(MembersOf(ch, o))
  {
    hide Field, ReadMembers, Writes, Literal, Quote, Encodable, Member, Payload, PayloadMembers;
    PayloadReads(ch, o);
    var kind := Literal(KindName(o));
    KindEncodes(o);
    TextWrites(kind);
    assert Encodable(ch.boot);
    TextWrites(ch.boot);
    var last := Payload(ch, o) + [125];
    OneMember("bootId", Quote(ch.boot), Value.Text(ch.boot), last);
    var more := Field("bootId", Quote(ch.boot)) + ([44] + last);
    OneMember("type", Quote(kind), Value.Text(kind), more);
    OneIs("bootId", Value.Text(ch.boot));
    OneIs("type", Value.Text(kind));
    Grouped(Field("type", Quote(kind)), Field("bootId", Quote(ch.boot)), Payload(ch, o));
  }

  lemma KindEncodes(o: Out)
    ensures Encodable(Literal(KindName(o)))
  {}

  lemma Grouped(a: Bytes, b: Bytes, c: Bytes)
    ensures ([123] + a + [44] + b + [44] + c + [125])[1..] == a + ([44] + (b + ([44] + (c + [125]))))
  {}

  lemma FindTwo(a: string, v: Value, b: string, u: Value, wanted: string)
    ensures Find(Member(a, v) + Member(b, u), wanted)
         == if b == wanted then Some(u) else if a == wanted then Some(v) else None
  {
    FindCons(a, v, Member(b, u), wanted);
    FindOne(b, u, wanted);
    hide Literal;
  }

  lemma FindOne(a: string, v: Value, wanted: string)
    ensures Find(Member(a, v), wanted) == if a == wanted then Some(v) else None
  {
    FindCons(a, v, [], wanted);
    assert Member(a, v) + [] == Member(a, v);
    hide Literal;
  }

  lemma FindIn(ch: Channel, o: Out, wanted: string)
    ensures Find(MembersOf(ch, o), wanted)
         == if Find(PayloadMembers(ch, o), wanted).Some? then Find(PayloadMembers(ch, o), wanted)
            else if wanted == "bootId" then Some(Value.Text(ch.boot))
            else if wanted == "type" then Some(Value.Text(Literal(KindName(o))))
            else None
  {
    hide Find, PayloadMembers, Literal;
    var p := PayloadMembers(ch, o);
    FindCons("bootId", Value.Text(ch.boot), p, wanted);
    FindCons("type", Value.Text(Literal(KindName(o))), Member("bootId", Value.Text(ch.boot)) + p, wanted);
    assert "bootId" != "type";
  }

  lemma KindReads(o: Out)
    ensures KindOf(Value.Text(Literal(KindName(o)))) == Meaning(Channel([], []), o).kind
  {
    LiteralsDiffer(KindName(o), "stage");
    LiteralsDiffer(KindName(o), "ready");
    LiteralsDiffer(KindName(o), "commit");
    LiteralsDiffer(KindName(o), "settings_reloaded");
    hide Literal;
    assert "stage"[0] == 's' && "ready"[0] == 'r';
  }

  /** The names a frame is asked for. */
  const NAMES: seq<string> :=
    ["bootId", "type", "stage", "elapsedMs", "pid", "requestId", "nonce", "success", "detail"]

  lemma NamesDiffer()
    ensures forall i, j :: 0 <= i < j < |NAMES| ==> NAMES[i] != NAMES[j]
  {
    assert "stage"[0] == 's' && "nonce"[0] == 'n' && "bootId"[0] == 'b' && "detail"[0] == 'd';
    assert "elapsedMs"[0] == 'e' && "requestId"[0] == 'r';
  }

  /** What each name is found to be in a frame, `Null` for one that it does not hold. */
  lemma AllFound(ch: Channel, o: Out)
    ensures var (m, f) := (MembersOf(ch, o), Meaning(ch, o));
            && Get(m, "bootId") == f.bootId && Get(m, "type") == Value.Text(Literal(KindName(o)))
            && Get(m, "stage") == f.stage && Get(m, "elapsedMs") == f.elapsedMs && Get(m, "pid") == f.pid
            && Get(m, "requestId") == f.requestId && Get(m, "nonce") == f.nonce && Get(m, "success") == f.success
            && Find(m, "detail") == f.detail
  {
    forall name ensures Find(MembersOf(ch, o), name)
         == if Find(PayloadMembers(ch, o), name).Some? then Find(PayloadMembers(ch, o), name)
            else if name == "bootId" then Some(Value.Text(ch.boot))
            else if name == "type" then Some(Value.Text(Literal(KindName(o))))
            else None
    {
      FindIn(ch, o, name);
    }
    forall name ensures Find(PayloadMembers(ch, o), name) == PayloadFind(ch, o, name) {
      FindPayload(ch, o, name);
    }
    NamesDiffer();
    NamesAre();
    hide Find, MembersOf, PayloadMembers, Literal, KindName;
  }

  lemma NamesAre()
    ensures |NAMES| == 9 && NAMES[0] == "bootId" && NAMES[1] == "type" && NAMES[2] == "stage" && NAMES[3] == "elapsedMs"
    ensures NAMES[4] == "pid" && NAMES[5] == "requestId" && NAMES[6] == "nonce" && NAMES[7] == "success"
            && NAMES[8] == "detail"
  {}

  function PayloadFind(ch: Channel, o: Out, name: string): Option<Value> {
    match o
    case StageOut(stage, elapsed) =>
      if name == "elapsedMs" then Some(Int(elapsed)) else if name == "stage" then Some(Value.Text(stage)) else None
    case ReadyOut(pid) => if name == "pid" then Some(Int(pid)) else None
    case CommitOut(id) =>
      if name == "requestId" then Some(Value.Text(id))
      else if name == "nonce" then Some(Value.Text(ch.nonce)) else None
    case SettingsOut(success, detail) =>
      if name == "detail" then Some(Value.Text(detail)) else if name == "success" then Some(Bool(success)) else None
  }

  lemma FindPayload(ch: Channel, o: Out, name: string)
    ensures Find(PayloadMembers(ch, o), name) == PayloadFind(ch, o, name)
  {
    hide Find, Member;
    match o {
      case StageOut(stage, elapsed) => FindTwo("stage", Value.Text(stage), "elapsedMs", Int(elapsed), name);
      case ReadyOut(pid) => FindOne("pid", Int(pid), name);
      case CommitOut(id) => FindTwo("nonce", Value.Text(ch.nonce), "requestId", Value.Text(id), name);
      case SettingsOut(success, detail) => FindTwo("success", Bool(success), "detail", Value.Text(detail), name);
    }
  }

  /** A frame that the channel writes reads back as what it means. */
  lemma FrameReadsBack(ch: Channel, o: Out)
    requires Sendable(ch, o)
    ensures Decode(Render(ch, o)) == Parsed(Meaning(ch, o))
  {
    RenderReads(ch, o);
    AllFound(ch, o);
    KindReads(o);
    hide Render, ReadMembers, MembersOf, Get, Find, KindOf, Literal, KindName;
  }

  /** So this decoder meets what the theorems about the channel ask of one. */
  lemma DecodeInverts(ch: Channel, outs: seq<Out>)
    requires forall i :: 0 <= i < |outs| ==> Sendable(ch, outs[i])
    ensures Inverts(Reader(ch.boot, ch.nonce, Decode), ch, outs)
  {
    hide Render, Meaning, Sendable, Decode;
    forall i | 0 <= i < |outs| ensures Decode(Render(ch, outs[i])) == Parsed(Meaning(ch, outs[i])) {
      FrameReadsBack(ch, outs[i]);
    }
  }

  // ----- End to end -----

  /** The texts a call hands over hold no lone surrogate. */
  predicate EncodableCall(c: Call) {
    match c
    case StageCall(name, _) => Encodable(name)
    case ReadyCall(_) => true
    case CommitCall(id) => Encodable(id)
    case SettingsCall(_, detail) => Encodable(detail)
  }

  /** The frame is the call, under the identity of the boot. */
  predicate Holds(f: Frame, ch: Channel, c: Call) {
    match c
    case StageCall(name, now) =>
      && f.Object? && f.elapsedMs.Int? && f.elapsedMs.n as real <= now * 1000.0 < (f.elapsedMs.n + 1) as real
      && f == Object(Value.Text(ch.boot), Stage, Value.Text(Strip(name)), f.elapsedMs, Null, Null, Null, Null, None)
    case ReadyCall(pid) => f == Object(Value.Text(ch.boot), Ready, Null, Null, Int(pid), Null, Null, Null, None)
    case CommitCall(id) =>
      f == Object(Value.Text(ch.boot), Commit, Null, Null, Null, Value.Text(id), Value.Text(ch.nonce), Null, None)
    case SettingsCall(success, detail) =>
      f == Object(Value.Text(ch.boot), SettingsReloaded, Null, Null, Null, Null, Null, Bool(success),
                  Some(Value.Text(if |detail| < 1024 then detail else detail[..1024])))
  }

  lemma StripEncodes(s: Str)
    requires Encodable(s)
    ensures Encodable(Strip(s))
  {
    var i, j := StripTakesSpaceOnly(s);
    hide Strip, IsSpace;
  }

  lemma SaysSendable(ch: Channel, c: Call, o: Out)
    requires Says(o, c) && Sayable(c) && Encodable(ch.boot) && Encodable(ch.nonce)
    requires EncodableCall(c) || (c.SettingsCall? && DetailFits(o))
    requires c.StageCall? ==> c.now >= 0.0
    ensures Sendable(ch, o)
  {
    if c.StageCall? { StripEncodes(c.name); }
    hide Strip, IsSpace, IsSurrogate;
  }

  lemma SaysHolds(ch: Channel, c: Call, o: Out)
    requires Says(o, c)
    ensures Holds(Meaning(ch, o), ch, c)
  {
    hide Strip;
    if c.SettingsCall? {
      CutIs(o.detail, c.detail);
      assert c.detail == c.detail[..|c.detail|];
    }
  }

  /** The line that a call puts on the pipe decodes to the call. */
  lemma CallReadsBack(ch: Channel, c: Call)
    requires Emit(ch, c).Some? && Encodable(ch.boot) && Encodable(ch.nonce) && EncodableCall(c)
    requires c.StageCall? ==> c.now >= 0.0
    ensures var d := Decode(Render(ch, Emit(ch, c).value)); d.Parsed? && Holds(d.frame, ch, c)
  {
    hide Emit, Render, Decode, Says, Sayable, Sendable, Encodable, EncodableCall, Holds, Meaning;
    var o := Emit(ch, c).value;
    EmitExactly(ch, c, o);
    SaysSendable(ch, c, o);
    FrameReadsBack(ch, o);
    SaysHolds(ch, c, o);
  }

  /** With this decoder the supervisor knows what the runtime's calls said, however the pipe cuts their lines. */
  lemma RuntimeArrives(ch: Channel, times: seq<real>, pid: int, service: seq<Service>, outs: seq<Out>,
                       chunks: seq<Bytes>, eof: bool)
    requires IsAscii(ch.nonce) && Encodable(ch.boot)
    requires |times| == |STAGES| && Ticks(times) && DepartsOnce(service)
    requires forall i :: 0 <= i < |service| && service[i].Depart? ==> Encodable(service[i].id)
    requires |outs| <= |STAGES| + 1 + |service| == |RuntimeCalls(times, pid, service)|
    requires forall i :: 0 <= i < |outs| ==> Emit(ch, RuntimeCalls(times, pid, service)[i]) == Some(outs[i])
    requires Flatten(chunks) == Output(ch, outs) && AllFit(outs)
    ensures var c := FeedStream(Reader(ch.boot, ch.nonce, Decode), START, chunks, eof).core;
            c.status.Healthy? && Understood(c, times, pid, service, |outs|)
  {
    hide Emit, AllFit, RuntimeCalls, FeedStream, Output, Understood, Encodable, Sendable;
    forall i | 0 <= i < |outs| ensures Sendable(ch, outs[i]) {
      OutIsSendable(ch, times, pid, service, outs, i);
    }
    DecodeInverts(ch, outs);
    hide Inverts, Ticks, DepartsOnce, Decode, IsAscii;
    RuntimeIsUnderstood(Reader(ch.boot, ch.nonce, Decode), ch, times, pid, service, outs, chunks, eof);
  }

  lemma OutIsSendable(ch: Channel, times: seq<real>, pid: int, service: seq<Service>, outs: seq<Out>, i: nat)
    requires IsAscii(ch.nonce) && Encodable(ch.boot) && |times| == |STAGES| && Ticks(times)
    requires forall j :: 0 <= j < |service| && service[j].Depart? ==> Encodable(service[j].id)
    requires i < |outs| <= |RuntimeCalls(times, pid, service)|
    requires Emit(ch, RuntimeCalls(times, pid, service)[i]) == Some(outs[i]) && AllFit(outs)
    ensures Sendable(ch, outs[i])
  {
    hide RuntimeCalls, Emit, Strip, Says, Sayable, Render;
    var c := RuntimeCalls(times, pid, service)[i];
    CallCount(times, pid, service);
    CallAt(times, pid, service, i);
    EmitExactly(ch, c, outs[i]);
    assert DetailFits(outs[i]);
    assert Encodable(ch.nonce);
    if i < |STAGES| { StageIsShort(i); }
    SaysSendable(ch, c, outs[i]);
  }
}
