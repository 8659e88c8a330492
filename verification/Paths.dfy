/** The web shell's canonical request paths: percent-decoding, segments and dot segments. Paths are sequences of
    codes, bytes before decoding and code points after it. */
module Paths {
  import opened Text

  type Path = seq<int>

  const SLASH: int := 47
  const BACKSLASH: int := 92
  const PERCENT: int := 37
  /** `%2f` and `%5c` */
  const ENCODED_SLASH: Path := [37, 50, 102]
  const ENCODED_BACKSLASH: Path := [37, 53, 99]
  const DOT: Path := [46]
  const DOTDOT: Path := [46, 46]

  // ----- Segments -----

  function SlashAt(p: Path): (i: nat)
    ensures i <= |p|
    ensures i < |p| ==> p[i] == SLASH
    ensures forall j :: 0 <= j < i ==> p[j] != SLASH
  {
    if p == [] || p[0] == SLASH then 0 else 1 + SlashAt(p[1..])
  }

  /** `split("/")` */
  function Split(p: Path): (r: seq<Path>)
    ensures |r| > 0
    decreases |p|
  {
    var i := SlashAt(p);
    if i == |p| then [p] else [p[..i]] + Split(p[i + 1..])
  }

  predicate IsDot(segment: Path) {
    segment == DOT || segment == DOTDOT
  }

  predicate HasDot(segments: seq<Path>) {
    exists i :: 0 <= i < |segments| && IsDot(segments[i])
  }

  // ----- Percent-decoding, section 2.1 of RFC 3986 -----

  function HexValue(c: int): Option<nat> {
    if 48 <= c <= 57 then Some(c - 48)
    else if 65 <= c <= 70 then Some(c - 55)
    else if 97 <= c <= 102 then Some(c - 87)
    else None
  }

  /** The octet a path begins with in percent-encoded form. */
  function Escaped(p: Path): Option<int> {
    if |p| >= 3 && p[0] == PERCENT && HexValue(p[1]).Some? && HexValue(p[2]).Some?
    then Some(16 * HexValue(p[1]).value + HexValue(p[2]).value) else None
  }

  function Unquote(p: Path): Path
    decreases |p|
  {
    if p == [] then []
    else if Escaped(p).Some? then [Escaped(p).value] + Unquote(p[3..])
    else [p[0]] + Unquote(p[1..])
  }

  /** Somewhere in the path `v` stands percent-encoded. */
  predicate Encodes(p: Path, v: int) {
    exists i :: 0 <= i < |p| && Escaped(p[i..]) == Some(v)
  }

  // ----- UTF-8 with replacement -----

  predicate Continues(p: Path, i: nat, low: int, high: int) {
    i < |p| && low <= p[i] <= high
  }

  const REPLACEMENT: int := 0xFFFD

  /** The code point a non-ASCII position decodes to and the bytes it takes; a malformed sequence becomes one
      replacement character for its longest well-formed beginning. */
  function DecodeOne(p: Path): (r: (int, nat))
    requires p != [] && p[0] >= 128
    ensures r.0 >= 128 && 1 <= r.1 <= |p| && r.1 <= 4
    ensures forall i :: 0 <= i < r.1 ==> p[i] >= 128
  {
    var a := p[0];
    if 0xC2 <= a <= 0xDF then
      if Continues(p, 1, 0x80, 0xBF) then ((a - 0xC0) * 64 + p[1] - 0x80, 2) else (REPLACEMENT, 1)
    else if 0xE0 <= a <= 0xEF then
      if !Continues(p, 1, if a == 0xE0 then 0xA0 else 0x80, if a == 0xED then 0x9F else 0xBF) then (REPLACEMENT, 1)
      else if !Continues(p, 2, 0x80, 0xBF) then (REPLACEMENT, 2)
      else (((a - 0xE0) * 64 + p[1] - 0x80) * 64 + p[2] - 0x80, 3)
    else if 0xF0 <= a <= 0xF4 then
      if !Continues(p, 1, if a == 0xF0 then 0x90 else 0x80, if a == 0xF4 then 0x8F else 0xBF) then (REPLACEMENT, 1)
      else if !Continues(p, 2, 0x80, 0xBF) then (REPLACEMENT, 2)
      else if !Continues(p, 3, 0x80, 0xBF) then (REPLACEMENT, 3)
      else ((((a - 0xF0) * 64 + p[1] - 0x80) * 64 + p[2] - 0x80) * 64 + p[3] - 0x80, 4)
    else (REPLACEMENT, 1)
  }

  function DecodeUtf8(p: Path): Path
    decreases |p|
  {
    if p == [] then []
    else if p[0] < 128 then [p[0]] + DecodeUtf8(p[1..])
    else [DecodeOne(p).0] + DecodeUtf8(p[DecodeOne(p).1..])
  }

  // ----- The test of the web shell -----

  function Lower(p: Path): Path {
    seq(|p|, i requires 0 <= i < |p| => if 65 <= p[i] <= 90 then p[i] + 32 else p[i])
  }

  predicate Contains(p: Path, part: Path) {
    exists i :: 0 <= i <= |p| && StartsWith(p[i..], part)
  }

  /** The path that is forwarded as it came, or nothing. */
  function CanonicalPath(raw: Path): Option<Path> {
    if exists i :: 0 <= i < |raw| && raw[i] >= 128 then None
    else if raw == [] || raw[0] != SLASH || (|raw| > 1 && raw[1] == SLASH) || BACKSLASH in raw
            || Contains(Lower(raw), ENCODED_SLASH) || Contains(Lower(raw), ENCODED_BACKSLASH) then None
    else if HasDot(Split(DecodeUtf8(Unquote(raw)))) then None
    else Some(raw)
  }

  // ----- Remove dot segments, section 5.2.4 of RFC 3986 -----

  function DropLastSegment(output: Path): Path {
    if output == [] || output[|output| - 1] == SLASH then (if output == [] then [] else output[..|output| - 1])
    else DropLastSegment(output[..|output| - 1])
  }

  /** Length of the first segment, with the slash it begins with. */
  function FirstLength(input: Path): (n: nat)
    requires input != []
    ensures 0 < n <= |input|
  {
    if input[0] == SLASH then 1 + SlashAt(input[1..]) else SlashAt(input)
  }

  predicate StartsWith(p: Path, part: Path) {
    part <= p
  }

  function RemoveDotSegments(input: Path, output: Path): Path
    decreases |input|
  {
    if input == [] then output
    else if StartsWith(input, [46, 46, 47]) then RemoveDotSegments(input[3..], output)
    else if StartsWith(input, [46, 47]) then RemoveDotSegments(input[2..], output)
    else if StartsWith(input, [47, 46, 47]) then RemoveDotSegments(input[2..], output)
    else if input == [47, 46] then RemoveDotSegments([SLASH], output)
    else if StartsWith(input, [47, 46, 46, 47]) then RemoveDotSegments(input[3..], DropLastSegment(output))
    else if input == [47, 46, 46] then RemoveDotSegments([SLASH], DropLastSegment(output))
    else if IsDot(input) then output
    else RemoveDotSegments(input[FirstLength(input)..], output + input[..FirstLength(input)])
  }

  /** Not an absolute network path: one slash leads. */
  predicate SingleSlashLed(p: Path) {
    p != [] && p[0] == SLASH && !(|p| > 1 && p[1] == SLASH)
  }

  function Count(p: Path, v: int): nat {
    if p == [] then 0 else (if p[0] == v then 1 else 0) + Count(p[1..], v)
  }

  // ----- Splitting commutes with decoding -----

  lemma SlashAtIs(p: Path, i: nat)
    requires i <= |p| && (forall j :: 0 <= j < i ==> p[j] != SLASH) && (i < |p| ==> p[i] == SLASH)
    ensures SlashAt(p) == i
  {}

  /** A path is its first segment, or that, a slash and the rest. */
  lemma SplitJoin(a: Path, rest: Path)
    requires SLASH !in a
    ensures Split(Joined(a, rest)) == [a] + Split(rest)
    ensures Split(a) == [a]
  {
    var p := Joined(a, rest);
    SlashAtIs(p, |a|);
    SlashAtIs(a, |a|);
    assert p[..|a|] == a && p[|a| + 1..] == rest;
  }

  function Joined(a: Path, rest: Path): Path {
    a + [SLASH] + rest
  }

  lemma JoinedParts(a: Path, rest: Path, n: nat)
    requires n <= |a|
    ensures Joined(a, rest)[n..] == Joined(a[n..], rest)
    ensures Joined(a, rest) == a[..n] + Joined(a[n..], rest)
  {}

  lemma JoinedAtOnce(rest: Path)
    ensures Joined([], rest)[0] == SLASH && Joined([], rest)[1..] == rest && Joined([], rest) == [SLASH] + rest
  {}

  lemma JoinedStarts(a: Path, rest: Path)
    requires a != []
    ensures Joined(a, rest) != [] && Joined(a, rest)[0] == a[0] && Escaped(Joined(a, rest)) == Escaped(a)
  {}

  lemma JoinedAfter(c: Path, a: Path, rest: Path)
    ensures c + Joined(a, rest) == Joined(c + a, rest)
  {}

  lemma {:induction false} UnquoteAtSlash(a: Path, rest: Path)
    ensures Unquote(Joined(a, rest)) == Joined(Unquote(a), Unquote(rest))
    decreases |a|
  {
    hide Joined, Escaped;
    if a == [] {
      JoinedAtOnce(rest);
      JoinedAtOnce(Unquote(rest));
      assert Escaped(Joined(a, rest)).None? by { SlashIsPlain(rest); }
      return;
    }
    JoinedStarts(a, rest);
    var n := if Escaped(a).Some? then 3 else 1;
    var c := if Escaped(a).Some? then Escaped(a).value else a[0];
    EscapedLength(a);
    JoinedParts(a, rest, n);
    UnquoteAtSlash(a[n..], rest);
    JoinedAfter([c], Unquote(a[n..]), Unquote(rest));
  }

  lemma SlashIsPlain(rest: Path)
    ensures Escaped(Joined([], rest)).None?
  {}

  lemma EscapedLength(p: Path)
    ensures Escaped(p).Some? ==> |p| >= 3
  {}

  lemma DecodeOneAtSlash(a: Path, rest: Path)
    requires a != [] && a[0] >= 128
    ensures Joined(a, rest)[0] == a[0] && DecodeOne(Joined(a, rest)) == DecodeOne(a)
  {}

  lemma {:induction false} DecodeAtSlash(a: Path, rest: Path)
    ensures DecodeUtf8(Joined(a, rest)) == Joined(DecodeUtf8(a), DecodeUtf8(rest))
    decreases |a|
  {
    hide Joined, Escaped, DecodeOne;
    if a == [] {
      JoinedAtOnce(rest);
      JoinedAtOnce(DecodeUtf8(rest));
      return;
    }
    JoinedStarts(a, rest);
    if a[0] >= 128 { DecodeOneAtSlash(a, rest); }
    var n := if a[0] < 128 then 1 else DecodeOne(a).1;
    var c := if a[0] < 128 then a[0] else DecodeOne(a).0;
    JoinedParts(a, rest, n);
    DecodeAtSlash(a[n..], rest);
    JoinedAfter([c], DecodeUtf8(a[n..]), DecodeUtf8(rest));
  }

  function Map(f: Path -> Path, segments: seq<Path>): seq<Path> {
    seq(|segments|, i requires 0 <= i < |segments| => f(segments[i]))
  }

  lemma EncodesStep(p: Path, v: int)
    requires p != []
    ensures Encodes(p, v) <==> Escaped(p) == Some(v) || Encodes(p[1..], v)
  {
    assert p[0..] == p;
    if Encodes(p[1..], v) {
      var i :| 0 <= i < |p| - 1 && Escaped(p[1..][i..]) == Some(v);
      assert p[1..][i..] == p[i + 1..];
    }
    if Encodes(p, v) && Escaped(p) != Some(v) {
      var i :| 0 <= i < |p| && Escaped(p[i..]) == Some(v);
      assert i > 0 && p[1..][i - 1..] == p[i..];
    }
  }

  /** The characters of an encoded octet begin no other one. */
  lemma EncodesSkip(p: Path, v: int)
    requires Escaped(p).Some?
    ensures Encodes(p, v) <==> Escaped(p) == Some(v) || Encodes(p[3..], v)
  {
    hide Encodes;
    EncodesStep(p, v);
    EncodesStep(p[1..], v);
    EncodesStep(p[1..][1..], v);
    assert p[1..][1..][1..] == p[3..];
  }

  /** Neither a percent sign nor a hexadecimal digit. */
  predicate Structural(v: int) {
    v != PERCENT && HexValue(v).None?
  }

  lemma UnquoteStep(p: Path)
    requires p != []
    ensures if Escaped(p).Some? then |p| >= 3 && Unquote(p) == [Escaped(p).value] + Unquote(p[3..])
            else Unquote(p) == [p[0]] + Unquote(p[1..])
  {}

  lemma CountCons(c: int, p: Path, v: int)
    ensures Count([c] + p, v) == (if c == v then 1 else 0) + Count(p, v)
    ensures v in [c] + p <==> c == v || v in p
  {
    assert ([c] + p)[1..] == p;
  }

  /** The three characters of an encoded octet are not structural. */
  lemma CountSkip(p: Path, v: int)
    requires Structural(v) && Escaped(p).Some?
    ensures Count(p, v) == Count(p[3..], v) && (v in p <==> v in p[3..])
  {
    hide Count;
    CountCons(p[0], p[1..], v);
    CountCons(p[1], p[1..][1..], v);
    CountCons(p[2], p[1..][1..][1..], v);
    assert p == [p[0]] + p[1..] && p[1..] == [p[1]] + p[1..][1..] && p[1..][1..] == [p[2]] + p[1..][1..][1..];
    assert p[1..][1..][1..] == p[3..];
  }

  /** Decoding yields such a character exactly where it stood or was encoded. */
  lemma {:induction false} UnquoteHas(p: Path, v: int)
    requires Structural(v)
    ensures v in Unquote(p) <==> v in p || Encodes(p, v)
    ensures Count(Unquote(p), v) >= Count(p, v)
    ensures Count(Unquote(p), v) == Count(p, v) <==> !Encodes(p, v)
    decreases |p|
  {
    if p == [] {
      NothingEncoded(v);
      return;
    }
    UnquoteStep(p);
    hide Encodes, Unquote, Count;
    if Escaped(p).Some? {
      EncodesSkip(p, v);
      CountSkip(p, v);
      UnquoteHas(p[3..], v);
      CountCons(Escaped(p).value, Unquote(p[3..]), v);
    } else {
      EncodesStep(p, v);
      UnquoteHas(p[1..], v);
      assert p == [p[0]] + p[1..];
      CountCons(p[0], p[1..], v);
      CountCons(p[0], Unquote(p[1..]), v);
    }
  }

  lemma NothingEncoded(v: int)
    ensures !Encodes([], v)
  {}

  lemma EncodesParts(a: Path, rest: Path, v: int)
    ensures Encodes(a, v) || Encodes(rest, v) ==> Encodes(Joined(a, rest), v)
  {
    var p := Joined(a, rest);
    if Encodes(a, v) {
      var i :| 0 <= i < |a| && Escaped(a[i..]) == Some(v);
      assert p[i..] == a[i..] + [SLASH] + rest;
      assert Escaped(p[i..]) == Some(v);
    }
    if Encodes(rest, v) {
      var i :| 0 <= i < |rest| && Escaped(rest[i..]) == Some(v);
      assert p[|a| + 1 + i..] == rest[i..];
    }
  }

  lemma Cut(p: Path)
    requires SlashAt(p) < |p|
    ensures p == Joined(p[..SlashAt(p)], p[SlashAt(p) + 1..]) && SLASH !in p[..SlashAt(p)]
  {
    CutAt(p, SlashAt(p));
  }

  lemma CutAt(p: Path, i: nat)
    requires i < |p| && p[i] == SLASH
    ensures p == Joined(p[..i], p[i + 1..])
  {}

  lemma MapCons(f: Path -> Path, a: Path, segments: seq<Path>)
    ensures Map(f, [a] + segments) == [f(a)] + Map(f, segments)
  {}

  /** Without an encoded slash, decoding commutes with splitting into segments, section 3.3 of RFC 3986. */
  lemma {:induction false} UnquoteCommutes(p: Path)
    requires !Encodes(p, SLASH)
    ensures Split(Unquote(p)) == Map(Unquote, Split(p))
    decreases |p|
  {
    hide Encodes, Unquote, Escaped, Map, Joined, Split, SlashAt;
    var i := SlashAt(p);
    if i == |p| {
      UnquoteHas(p, SLASH);
      SplitJoin(Unquote(p), []);
      SplitJoin(p, []);
      MapOne(p);
      return;
    }
    var a, rest := p[..i], p[i + 1..];
    Cut(p);
    EncodesParts(a, rest, SLASH);
    UnquoteHas(a, SLASH);
    UnquoteAtSlash(a, rest);
    SplitJoin(Unquote(a), Unquote(rest));
    UnquoteCommutes(rest);
    MapCons(Unquote, a, Split(rest));
    SplitJoin(a, rest);
  }

  lemma MapOne(p: Path)
    ensures Map(Unquote, [p]) == [Unquote(p)] && Map(DecodeUtf8, [p]) == [DecodeUtf8(p)]
  {}

  /** Decoding UTF-8 neither makes nor removes an ASCII character. */
  lemma {:induction false} DecodeHas(p: Path, v: int)
    requires 0 <= v < 128
    ensures v in DecodeUtf8(p) <==> v in p
    decreases |p|
  {
    if p != [] {
      var n := if p[0] < 128 then 1 else DecodeOne(p).1;
      DecodeHas(p[n..], v);
      assert p == p[..n] + p[n..];
    }
  }

  lemma {:induction false} DecodeCommutes(p: Path)
    ensures Split(DecodeUtf8(p)) == Map(DecodeUtf8, Split(p))
    decreases |p|
  {
    hide DecodeUtf8, Map, Joined, Split, SlashAt;
    var i := SlashAt(p);
    if i == |p| {
      DecodeHas(p, SLASH);
      SplitJoin(DecodeUtf8(p), []);
      SplitJoin(p, []);
      MapOne(p);
      return;
    }
    var a, rest := p[..i], p[i + 1..];
    Cut(p);
    DecodeHas(a, SLASH);
    DecodeAtSlash(a, rest);
    SplitJoin(DecodeUtf8(a), DecodeUtf8(rest));
    DecodeCommutes(rest);
    MapCons(DecodeUtf8, a, Split(rest));
    SplitJoin(a, rest);
  }

  lemma DecodeStep(p: Path)
    ensures DecodeUtf8(p) == [] <==> p == []
    ensures p != [] && p[0] < 128 ==> DecodeUtf8(p) == [p[0]] + DecodeUtf8(p[1..])
    ensures p != [] && p[0] >= 128 ==> DecodeUtf8(p)[0] >= 128
  {
    hide DecodeOne;
  }

  lemma DotIsOneOrTwo(p: Path)
    ensures IsDot(p) <==> (|p| == 1 && p[0] == 46) || (|p| == 2 && p[0] == 46 && p[1] == 46)
  {}

  /** A segment decodes to a dot segment only if it is one. */
  lemma DecodeDot(p: Path)
    ensures IsDot(DecodeUtf8(p)) <==> IsDot(p)
  {
    hide DecodeUtf8, IsDot;
    DotIsOneOrTwo(p);
    DotIsOneOrTwo(DecodeUtf8(p));
    DecodeStep(p);
    if p != [] && p[0] < 128 {
      DecodeStep(p[1..]);
      if |p| > 1 && p[1] < 128 {
        DecodeStep(p[1..][1..]);
        assert p[1..][0] == p[1] && |p[1..][1..]| == |p| - 2;
      }
    }
  }

  lemma DotsCommute(p: Path)
    ensures HasDot(Split(DecodeUtf8(p))) <==> HasDot(Split(p))
  {
    hide DecodeUtf8, Split, IsDot;
    DecodeCommutes(p);
    forall i | 0 <= i < |Split(p)| ensures IsDot(Split(DecodeUtf8(p))[i]) <==> IsDot(Split(p)[i]) {
      DecodeDot(Split(p)[i]);
    }
    assert |Split(DecodeUtf8(p))| == |Split(p)|;
  }

  // ----- Removing dot segments -----

  lemma SplitSlashLed(p: Path)
    requires p != [] && p[0] == SLASH
    ensures Split(p) == [[]] + Split(p[1..])
  {
    assert SlashAt(p) == 0 && p[..0] == [];
  }

  /** The first segment of a slash-led path. */
  function FirstSegment(input: Path): Path
    requires input != [] && input[0] == SLASH
  {
    input[1..FirstLength(input)]
  }

  /** The forms of a slash-led path that the algorithm shortens. */
  predicate DotLed(input: Path) {
    || StartsWith(input, [47, 46, 47])
    || input == [47, 46]
    || StartsWith(input, [47, 46, 46, 47])
    || input == [47, 46, 46]
  }

  lemma DotLedIsFirstDot(input: Path)
    requires input != [] && input[0] == SLASH
    ensures DotLed(input) <==> IsDot(FirstSegment(input))
  {
    var p, a := input[1..], FirstSegment(input);
    var m := SlashAt(p);
    assert |a| == m && (forall i :: 0 <= i < m ==> a[i] == input[i + 1]) && (m < |p| ==> input[m + 1] == SLASH);
    if a == DOT {
      assert a[0] == input[1] == 46;
      assert if m < |p| then StartsWith(input, [47, 46, 47]) else input == [47, 46];
    }
    if a == DOTDOT {
      assert a[0] == input[1] == 46 && a[1] == input[2] == 46;
      assert if m < |p| then StartsWith(input, [47, 46, 46, 47]) else input == [47, 46, 46];
    }
    if StartsWith(input, [47, 46, 47]) || input == [47, 46] {
      SlashAtIs(p, 1);
    } else if StartsWith(input, [47, 46, 46, 47]) || input == [47, 46, 46] {
      SlashAtIs(p, 2);
    }
  }

  /** A first segment that is no dot segment moves to the output. */
  lemma PlainStep(input: Path, output: Path)
    requires input != [] && input[0] == SLASH && !DotLed(input)
    ensures RemoveDotSegments(input, output)
              == RemoveDotSegments(input[FirstLength(input)..], output + input[..FirstLength(input)])
  {
    SlashLedIsNotDotLed(input);
  }

  lemma SlashLedIsNotDotLed(input: Path)
    requires input != [] && input[0] == SLASH
    ensures !StartsWith(input, [46, 46, 47]) && !StartsWith(input, [46, 47]) && !IsDot(input)
  {
    assert DOT[0] == DOTDOT[0] == 46;
  }

  /** A dot segment goes, and nothing takes its place. */
  lemma DotStep(input: Path, output: Path) returns (next: Path, kept: Path)
    requires DotLed(input)
    ensures |next| < |input| && |kept| <= |output| && RemoveDotSegments(input, output) == RemoveDotSegments(next, kept)
  {
    SlashLedIsNotDotLed(input);
    DropShrinks(output);
    if StartsWith(input, [47, 46, 47]) {
      next, kept := input[2..], output;
    } else if input == [47, 46] {
      next, kept := [SLASH], output;
    } else if StartsWith(input, [47, 46, 46, 47]) {
      next, kept := input[3..], DropLastSegment(output);
    } else {
      next, kept := [SLASH], DropLastSegment(output);
    }
  }

  lemma {:induction false} DropShrinks(output: Path)
    ensures |DropLastSegment(output)| <= |output|
    decreases |output|
  {
    if output != [] && output[|output| - 1] != SLASH { DropShrinks(output[..|output| - 1]); }
  }

  lemma {:induction false} RemovalShrinks(input: Path, output: Path)
    ensures |RemoveDotSegments(input, output)| <= |input| + |output|
    decreases |input|
  {
    hide FirstLength;
    DropShrinks(output);
    if input == [] {
    } else if StartsWith(input, [46, 46, 47]) { RemovalShrinks(input[3..], output);
    } else if StartsWith(input, [46, 47]) { RemovalShrinks(input[2..], output);
    } else if StartsWith(input, [47, 46, 47]) { RemovalShrinks(input[2..], output);
    } else if input == [47, 46] { RemovalShrinks([SLASH], output);
    } else if StartsWith(input, [47, 46, 46, 47]) { RemovalShrinks(input[3..], DropLastSegment(output));
    } else if input == [47, 46, 46] { RemovalShrinks([SLASH], DropLastSegment(output));
    } else if !IsDot(input) { RemovalShrinks(input[FirstLength(input)..], output + input[..FirstLength(input)]);
    }
  }

  /** On a path that is empty or slash-led the removal is the identity exactly when no segment is a dot segment. */
  lemma {:induction false} RemovalIsIdentity(input: Path, output: Path)
    requires input == [] || input[0] == SLASH
    ensures RemoveDotSegments(input, output) == output + input <==> !HasDot(Split(input))
    decreases |input|
  {
    hide RemoveDotSegments, IsDot, DotLed, HasDot;
    if input == [] {
      NothingRemoved(output);
      return;
    }
    var n := FirstLength(input);
    DotLedIsFirstDot(input);
    SplitFirst(input);
    if DotLed(input) {
      var next, kept := DotStep(input, output);
      RemovalShrinks(next, kept);
      DotFirst(FirstSegment(input), Split(input));
    } else {
      PlainStep(input, output);
      RestIsSlashLed(input);
      RemovalIsIdentity(input[n..], output + input[..n]);
      Regroup(output, input, n);
      DotsShift(Split(input), Split(input[n..]), FirstSegment(input));
    }
  }

  lemma NothingRemoved(output: Path)
    ensures RemoveDotSegments([], output) == output + [] && Split([]) == [[]] && !HasDot(Split([]))
  {
    assert Split([]) == [[]];
  }

  lemma DotFirst(a: Path, whole: seq<Path>)
    requires IsDot(a) && |whole| > 1 && whole[1] == a
    ensures HasDot(whole)
  {}

  lemma Regroup(output: Path, input: Path, n: nat)
    requires n <= |input|
    ensures output + input[..n] + input[n..] == output + input
  {}

  lemma RestIsSlashLed(input: Path)
    requires input != [] && input[0] == SLASH
    ensures var rest := input[FirstLength(input)..]; rest == [] || rest[0] == SLASH
  {}

  /** A slash-led path is split into an empty segment, its first segment, and the further ones. */
  lemma SplitFirst(input: Path)
    requires input != [] && input[0] == SLASH
    ensures var rest := input[FirstLength(input)..];
            Split(rest)[0] == [] && Split(input) == [[], FirstSegment(input)] + Split(rest)[1..]
  {
    hide SlashAt, StartsWith, Split, Joined;
    var p, a := input[1..], FirstSegment(input);
    var n := FirstLength(input);
    SplitSlashLed(input);
    assert p[..n - 1] == a;
    if n == |input| {
      assert p[..n - 1] == p && input[n..] == [];
      SplitJoin(p, []);
      NothingRemoved([]);
      SegmentMoved(a, []);
    } else {
      Cut(p);
      SplitJoin(a, p[n..]);
      SplitSlashLed(input[n..]);
      assert input[n..][1..] == p[n..];
      SegmentMoved(a, Split(p[n..]));
    }
  }

  lemma SegmentMoved(a: Path, rest: seq<Path>)
    ensures [[]] + ([a] + rest) == [[], a] + ([[]] + rest)[1..] && [[]] + [a] == [[], a] + [[]][1..]
  {}

  lemma EmptyIsNoDot()
    ensures !IsDot([])
  {}

  /** Moving one plain segment changes nothing about dots. */
  lemma DotsShift(whole: seq<Path>, rest: seq<Path>, a: Path)
    requires !IsDot(a) && rest != [] && rest[0] == [] && whole == [[], a] + rest[1..]
    ensures HasDot(whole) <==> HasDot(rest)
  {
    hide IsDot;
    EmptyIsNoDot();
    if HasDot(rest) {
      var i :| 0 <= i < |rest| && IsDot(rest[i]);
      assert i > 0 && whole[i + 1] == rest[i];
    }
    if HasDot(whole) {
      var i :| 0 <= i < |whole| && IsDot(whole[i]);
      assert i > 1 && rest[i - 1] == whole[i];
    }
  }

  // ----- What the test accepts -----

  predicate Ascii(p: Path) {
    forall i :: 0 <= i < |p| ==> p[i] < 128
  }

  /** What the test is for, in the terms of RFC 3986: one leading slash, and percent-decoding makes no backslash, no
      further slash and no dot segment. */
  predicate Canonical(raw: Path) {
    && Ascii(raw)
    && SingleSlashLed(raw)
    && BACKSLASH !in Unquote(raw)
    && Count(Unquote(raw), SLASH) == Count(raw, SLASH)
    && RemoveDotSegments(Unquote(raw), []) == Unquote(raw)
  }

  lemma EncodedAt(raw: Path, i: nat)
    requires i <= |raw|
    ensures StartsWith(Lower(raw)[i..], ENCODED_SLASH) <==> i < |raw| && Escaped(raw[i..]) == Some(SLASH)
    ensures StartsWith(Lower(raw)[i..], ENCODED_BACKSLASH) <==> i < |raw| && Escaped(raw[i..]) == Some(BACKSLASH)
  {
    var low := Lower(raw)[i..];
    assert ENCODED_SLASH[0] == 37 && ENCODED_SLASH[1] == 50 && ENCODED_SLASH[2] == 102;
    assert ENCODED_BACKSLASH[0] == 37 && ENCODED_BACKSLASH[1] == 53 && ENCODED_BACKSLASH[2] == 99;
    if |low| >= 3 {
      assert low[0] == Lower(raw)[i] && low[1] == Lower(raw)[i + 1] && low[2] == Lower(raw)[i + 2];
    }
  }

  lemma EncodedEverywhere(raw: Path)
    ensures Contains(Lower(raw), ENCODED_SLASH) <==> Encodes(raw, SLASH)
    ensures Contains(Lower(raw), ENCODED_BACKSLASH) <==> Encodes(raw, BACKSLASH)
  {
    hide StartsWith, Escaped, Lower;
    assert |Lower(raw)| == |raw| by { LowerLength(raw); }
    forall i | 0 <= i <= |raw|
      ensures StartsWith(Lower(raw)[i..], ENCODED_SLASH) <==> i < |raw| && Escaped(raw[i..]) == Some(SLASH)
      ensures StartsWith(Lower(raw)[i..], ENCODED_BACKSLASH) <==> i < |raw| && Escaped(raw[i..]) == Some(BACKSLASH)
    {
      EncodedAt(raw, i);
    }
  }

  lemma LowerLength(p: Path)
    ensures |Lower(p)| == |p|
  {}

  lemma StaysSlashLed(p: Path)
    requires p != [] && p[0] == SLASH
    ensures Unquote(p) != [] && Unquote(p)[0] == SLASH && DecodeUtf8(p) != [] && DecodeUtf8(p)[0] == SLASH
  {}

  /** The textual test decides the property of decoded paths, and an accepted path comes back as it was. */
  lemma AcceptsExactlyCanonical(raw: Path)
    ensures CanonicalPath(raw) == if Canonical(raw) then Some(raw) else None
  {
    hide Encodes, Contains, RemoveDotSegments, HasDot, Split, Lower, Unquote, DecodeUtf8, Count;
    EncodedEverywhere(raw);
    UnquoteHas(raw, SLASH);
    UnquoteHas(raw, BACKSLASH);
    if raw != [] && raw[0] == SLASH {
      StaysSlashLed(raw);
      RemovalIsIdentity(Unquote(raw), []);
      Unprefixed(RemoveDotSegments(Unquote(raw), []), Unquote(raw));
      DotsCommute(Unquote(raw));
    }
  }

  lemma Unprefixed(p: Path, q: Path)
    ensures p == [] + q <==> p == q
  {}

  lemma UnquoteDot(segment: Path)
    requires IsDot(segment)
    ensures IsDot(Unquote(segment))
  {
    assert DOT[0] == 46 && DOT[1..] == [] && DOTDOT[0] == 46 && DOTDOT[1..] == DOT && DOTDOT == [46] + DOT;
    assert Unquote(DOT) == [46] + Unquote([]);
    assert Unquote(DOTDOT) == [46] + Unquote(DOT);
  }

  /** The text the router sees and the bytes it forwards have the same segments, and no party that removes dot
      segments, before or after decoding, ends up anywhere else. */
  lemma AcceptedStaysPut(raw: Path)
    requires CanonicalPath(raw) == Some(raw)
    ensures Split(Unquote(raw)) == Map(Unquote, Split(raw))
    ensures Split(DecodeUtf8(Unquote(raw))) == Map(DecodeUtf8, Map(Unquote, Split(raw)))
    ensures BACKSLASH !in DecodeUtf8(Unquote(raw))
    ensures RemoveDotSegments(raw, []) == raw
    ensures RemoveDotSegments(Unquote(raw), []) == Unquote(raw)
    ensures RemoveDotSegments(DecodeUtf8(Unquote(raw)), []) == DecodeUtf8(Unquote(raw))
  {
    hide Encodes, Contains, RemoveDotSegments, IsDot, Split, Lower, Unquote, DecodeUtf8, Count, CanonicalPath, Map;
    AcceptsExactlyCanonical(raw);
    var u := Unquote(raw);
    UnquoteHas(raw, SLASH);
    UnquoteCommutes(raw);
    DecodeCommutes(u);
    DecodeHas(u, BACKSLASH);
    StaysSlashLed(raw);
    StaysSlashLed(u);
    RemovalIsIdentity(u, []);
    Unprefixed(RemoveDotSegments(u, []), u);
    DotsCommute(u);
    RemovalIsIdentity(DecodeUtf8(u), []);
    Unprefixed(RemoveDotSegments(DecodeUtf8(u), []), DecodeUtf8(u));
    if HasDot(Split(raw)) { RawDots(raw); }
    RemovalIsIdentity(raw, []);
    Unprefixed(RemoveDotSegments(raw, []), raw);
  }

  lemma RawDots(raw: Path)
    requires Split(Unquote(raw)) == Map(Unquote, Split(raw)) && HasDot(Split(raw))
    ensures HasDot(Split(Unquote(raw)))
  {
    hide Split, Unquote, IsDot;
    var i :| 0 <= i < |Split(raw)| && IsDot(Split(raw)[i]);
    UnquoteDot(Split(raw)[i]);
    assert Split(Unquote(raw))[i] == Unquote(Split(raw)[i]);
  }

  // ----- What percent-decoding computes -----

  const LOWER_DIGITS: string := "0123456789abcdef"
  const UPPER_DIGITS: string := "0123456789ABCDEF"

  /** The character is the hexadecimal digit of `k`, in either case. */
  predicate IsDigit(c: int, k: nat) {
    k < 16 && (c == LOWER_DIGITS[k] as int || c == UPPER_DIGITS[k] as int)
  }

  /** The text begins with a percent sign and the two digits of the octet. */
  predicate Spells(p: Path, v: int) {
    |p| >= 3 && p[0] == PERCENT && 0 <= v < 256 && IsDigit(p[1], v / 16) && IsDigit(p[2], v % 16)
  }

  lemma DigitValue(c: int, k: nat)
    ensures HexValue(c) == Some(k) <==> IsDigit(c, k)
  {
    if k < 16 {
      assert k == 0 || k == 1 || k == 2 || k == 3 || k == 4 || k == 5 || k == 6 || k == 7
          || k == 8 || k == 9 || k == 10 || k == 11 || k == 12 || k == 13 || k == 14 || k == 15;
    }
  }

  lemma EscapedIsSpelled(p: Path, v: int)
    ensures Escaped(p) == Some(v) <==> Spells(p, v)
  {
    hide IsDigit, HexValue;
    if |p| >= 3 {
      if HexValue(p[1]).Some? && HexValue(p[2]).Some? {
        HexIsSmall(p[1]);
        HexIsSmall(p[2]);
        Octet(HexValue(p[1]).value, HexValue(p[2]).value, v);
        DigitValue(p[1], HexValue(p[1]).value);
        DigitValue(p[2], HexValue(p[2]).value);
      }
      if 0 <= v < 256 {
        DigitValue(p[1], v / 16);
        DigitValue(p[2], v % 16);
      }
    }
  }

  lemma HexIsSmall(c: int)
    ensures HexValue(c).Some? ==> HexValue(c).value < 16
  {}

  lemma Octet(a: nat, b: nat, v: int)
    requires a < 16 && b < 16
    ensures 16 * a + b == v <==> 0 <= v < 256 && a == v / 16 && b == v % 16
  {}

  /** Decoding turns a spelled octet into the octet, whatever the case of its digits, and keeps any other character, a
      percent sign without two digits included. */
  lemma UnquoteDecodes(p: Path, v: int)
    requires p != []
    ensures Spells(p, v) ==> Unquote(p) == [v] + Unquote(p[3..])
    ensures (forall u :: 0 <= u < 256 ==> !Spells(p, u)) ==> Unquote(p) == [p[0]] + Unquote(p[1..])
  {
    EscapedIsSpelled(p, v);
    if Escaped(p).Some? {
      EscapedIsSpelled(p, Escaped(p).value);
    }
  }

  /** One of the three spellings of a dot. */
  predicate SpellsDot(p: Path) {
    p == [46] || p == [PERCENT, 50, 101] || p == [PERCENT, 50, 69]
  }

  /** A segment that is read as `.` or `..`. */
  predicate DotSpelling(segment: Path) {
    || SpellsDot(segment)
    || exists i :: 0 <= i <= |segment| && SpellsDot(segment[..i]) && SpellsDot(segment[i..])
  }

  lemma DotUnit(p: Path) returns (n: nat)
    ensures Unquote(p) != [] && Unquote(p)[0] == 46 <==> 0 < n <= |p| && SpellsDot(p[..n])
    ensures 0 < n <= |p| && SpellsDot(p[..n]) ==> Unquote(p) == [46] + Unquote(p[n..])
    ensures forall m :: 0 <= m <= |p| && SpellsDot(p[..m]) ==> m == n
  {
    n := 0;
    if p != [] {
      EscapedIsSpelled(p, 46);
      DigitValue(50, 2);
      DigitValue(101, 14);
      DigitValue(69, 14);
      if Spells(p, 46) {
        assert p[1] == 50 && (p[2] == 101 || p[2] == 69) by { TwoE(p); }
        assert p[..3] == [p[0], p[1], p[2]];
        n := 3;
      } else if p[0] == 46 {
        assert p[..1] == [46];
        n := 1;
      }
      forall m | 0 <= m <= |p| && SpellsDot(p[..m]) ensures m == n {
        assert p[..m][0] == p[0];
        if m == 3 {
          assert p[..m][1] == p[1] && p[..m][2] == p[2];
        }
      }
    }
  }

  lemma TwoE(p: Path)
    requires Spells(p, 46)
    ensures p[1] == 50 && (p[2] == 101 || p[2] == 69)
  {
    assert LOWER_DIGITS[2] == '2' && UPPER_DIGITS[2] == '2' && LOWER_DIGITS[14] == 'e' && UPPER_DIGITS[14] == 'E';
  }

  /** A segment decodes to a dot segment exactly if it is spelled as one. */
  lemma SpelledDots(segment: Path)
    ensures IsDot(Unquote(segment)) <==> DotSpelling(segment)
  {
    hide Unquote;
    var n := DotUnit(segment);
    assert segment[..|segment|] == segment;
    var rest := if n <= |segment| then segment[n..] else [];
    var m := DotUnit(rest);
    assert Unquote([]) == [] by { NothingUnquoted(); }
    UnquoteNonempty(rest);
    if 0 < n <= |segment| && SpellsDot(segment[..n]) {
      var tail := if m <= |rest| then rest[m..] else [];
      UnquoteNonempty(tail);
      DotThenRest(segment, n);
      if 0 < m <= |rest| && SpellsDot(rest[..m]) && tail == [] {
        assert rest[..m] == rest;
        assert Unquote(segment) == DOTDOT;
      }
      if IsDot(Unquote(segment)) {
        DotOrTwo(Unquote(segment), Unquote(rest));
        if rest == [] {
          assert segment[..n] == segment;
        } else {
          assert Unquote(rest) == [46];
          assert rest[..m] == rest;
        }
      }
    }
  }

  lemma NothingUnquoted()
    ensures Unquote([]) == []
  {}

  lemma UnquoteNonempty(p: Path)
    ensures Unquote(p) == [] <==> p == []
  {}

  lemma DotOrTwo(whole: Path, rest: Path)
    requires IsDot(whole) && whole == [46] + rest
    ensures rest == [] || rest == [46]
  {
    if |rest| > 0 {
      assert whole[1] == rest[0] && |whole| == 2;
    }
  }

  /** The only way to split a spelled segment is after its first unit. */
  lemma DotThenRest(segment: Path, n: nat)
    requires 0 < n <= |segment| && forall m :: 0 <= m <= |segment| && SpellsDot(segment[..m]) ==> m == n
    ensures DotSpelling(segment) ==> n == |segment| || SpellsDot(segment[n..])
  {
    if SpellsDot(segment) {
      assert segment[..|segment|] == segment;
    }
  }

  /** A spelling of an encoded slash or backslash: a percent sign, the first digit, the second in either case. */
  predicate SpellsAt(p: Path, i: int, first: int, small: int, large: int) {
    0 <= i <= |p| - 3 && p[i] == PERCENT && p[i + 1] == first && (p[i + 2] == small || p[i + 2] == large)
  }

  /** What the test looks for, letter by letter. */
  predicate Plain(raw: Path) {
    && Ascii(raw) && SingleSlashLed(raw) && BACKSLASH !in raw
    && (forall i :: 0 <= i < |raw| ==> !SpellsAt(raw, i, 50, 102, 70) && !SpellsAt(raw, i, 53, 99, 67))
    && (forall i :: 0 <= i < |Split(raw)| ==> !DotSpelling(Split(raw)[i]))
  }

  lemma SpelledSlashes(raw: Path, i: nat)
    requires i < |raw|
    ensures Escaped(raw[i..]) == Some(SLASH) <==> SpellsAt(raw, i, 50, 102, 70)
    ensures Escaped(raw[i..]) == Some(BACKSLASH) <==> SpellsAt(raw, i, 53, 99, 67)
  {
    var p := raw[i..];
    EscapedIsSpelled(p, SLASH);
    EscapedIsSpelled(p, BACKSLASH);
    hide Escaped;
    assert LOWER_DIGITS[2] == '2' && UPPER_DIGITS[2] == '2' && LOWER_DIGITS[15] == 'f' && UPPER_DIGITS[15] == 'F';
    assert LOWER_DIGITS[5] == '5' && UPPER_DIGITS[5] == '5' && LOWER_DIGITS[12] == 'c' && UPPER_DIGITS[12] == 'C';
    if |p| >= 3 {
      assert p[0] == raw[i] && p[1] == raw[i + 1] && p[2] == raw[i + 2];
    }
  }

  lemma SpelledEverywhere(raw: Path)
    ensures Encodes(raw, SLASH) <==> exists i :: 0 <= i < |raw| && SpellsAt(raw, i, 50, 102, 70)
    ensures Encodes(raw, BACKSLASH) <==> exists i :: 0 <= i < |raw| && SpellsAt(raw, i, 53, 99, 67)
  {
    hide Escaped, SpellsAt;
    forall i | 0 <= i < |raw|
      ensures Escaped(raw[i..]) == Some(SLASH) <==> SpellsAt(raw, i, 50, 102, 70)
      ensures Escaped(raw[i..]) == Some(BACKSLASH) <==> SpellsAt(raw, i, 53, 99, 67)
    {
      SpelledSlashes(raw, i);
    }
  }

  lemma DotsAreSpelled(raw: Path)
    requires Split(Unquote(raw)) == Map(Unquote, Split(raw))
    ensures HasDot(Split(Unquote(raw))) <==> exists i :: 0 <= i < |Split(raw)| && DotSpelling(Split(raw)[i])
  {
    hide Split, Unquote, IsDot, DotSpelling;
    forall i | 0 <= i < |Split(raw)| ensures IsDot(Split(Unquote(raw))[i]) <==> DotSpelling(Split(raw)[i]) {
      SpelledDots(Split(raw)[i]);
    }
  }

  /** Letter by letter: a path is accepted exactly if it is ASCII, one slash leads it, it holds no backslash, no `%2f`
      and no `%5c` in any case, and no segment of it is spelled `.` or `..` with plain or encoded dots. */
  lemma AcceptsExactlyPlain(raw: Path)
    ensures CanonicalPath(raw) == if Plain(raw) then Some(raw) else None
  {
    hide Encodes, Contains, RemoveDotSegments, HasDot, Split, Lower, Unquote, DecodeUtf8, Count;
    hide SpellsAt, DotSpelling, Map;
    AcceptsExactlyCanonical(raw);
    SpelledEverywhere(raw);
    UnquoteHas(raw, SLASH);
    UnquoteHas(raw, BACKSLASH);
    if Ascii(raw) && SingleSlashLed(raw) && !Encodes(raw, SLASH) && !Encodes(raw, BACKSLASH) {
      UnquoteCommutes(raw);
      DotsAreSpelled(raw);
      StaysSlashLed(raw);
      RemovalIsIdentity(Unquote(raw), []);
      Unprefixed(RemoveDotSegments(Unquote(raw), []), Unquote(raw));
    }
  }

  // ----- UTF-8 reads back, section 3 of RFC 3629 -----

  /** The bytes of one code point. */
  function EncodeOne(c: CodePoint): (r: Path)
    ensures |r| == Utf8Width(c) && forall i :: 0 <= i < |r| ==> 0 <= r[i] < 256
  {
    if c < 0x80 then [c]
    else if c < 0x800 then [0xC0 + c / 64, 0x80 + c % 64]
    else if c < 0x10000 then [0xE0 + c / 4096, 0x80 + c / 64 % 64, 0x80 + c % 64]
    else [0xF0 + c / 262144, 0x80 + c / 4096 % 64, 0x80 + c / 64 % 64, 0x80 + c % 64]
  }

  function EncodeUtf8(s: Str): Path {
    if s == [] then [] else EncodeOne(s[0]) + EncodeUtf8(s[1..])
  }

  /** The six-bit digits of a code point. */
  lemma Digits(c: nat)
    ensures c == c / 64 * 64 + c % 64 && 0 <= c % 64 < 64
    ensures c / 64 == c / 4096 * 64 + c / 64 % 64 && 0 <= c / 64 % 64 < 64
    ensures c / 4096 == c / 262144 * 64 + c / 4096 % 64 && 0 <= c / 4096 % 64 < 64
  {}

  lemma ReadTwo(x: nat, y: nat, rest: Path)
    requires 2 <= x < 32 && y < 64
    ensures DecodeOne([0xC0 + x, 0x80 + y] + rest) == (x * 64 + y, 2)
  {}

  lemma ReadThree(x: nat, y: nat, z: nat, rest: Path)
    requires x < 16 && y < 64 && z < 64 && (x == 0 ==> y >= 32) && (x == 13 ==> y < 32)
    ensures DecodeOne([0xE0 + x, 0x80 + y, 0x80 + z] + rest) == ((x * 64 + y) * 64 + z, 3)
  {}

  lemma ReadFour(x: nat, y: nat, z: nat, u: nat, rest: Path)
    requires x <= 4 && y < 64 && z < 64 && u < 64 && (x == 0 ==> y >= 16) && (x == 4 ==> y < 16)
    ensures DecodeOne([0xF0 + x, 0x80 + y, 0x80 + z, 0x80 + u] + rest) == (((x * 64 + y) * 64 + z) * 64 + u, 4)
  {}

  /** The decoder reads one code point and no more. */
  lemma DecodeOneReadsBack(c: CodePoint, rest: Path)
    requires c >= 0x80 && !IsSurrogate(c)
    ensures EncodeOne(c)[0] >= 0x80 && DecodeOne(EncodeOne(c) + rest) == (c, |EncodeOne(c)|)
  {
    hide DecodeOne;
    Digits(c);
    if c < 0x800 {
      ReadTwo(c / 64, c % 64, rest);
    } else if c < 0x10000 {
      ReadThree(c / 4096, c / 64 % 64, c % 64, rest);
    } else {
      ReadFour(c / 262144, c / 4096 % 64, c / 64 % 64, c % 64, rest);
    }
  }

  /** Text that can be encoded is decoded to itself, and takes as many bytes as its length says. */
  lemma {:induction false} Utf8ReadsBack(s: Str)
    requires Encodable(s)
    ensures DecodeUtf8(EncodeUtf8(s)) == s && |EncodeUtf8(s)| == Utf8Length(s)
    decreases |s|
  {
    hide EncodeOne, DecodeOne;
    if s != [] {
      var e, rest := EncodeOne(s[0]), EncodeUtf8(s[1..]);
      Utf8ReadsBack(s[1..]);
      assert (e + rest)[|e|..] == rest;
      if s[0] < 0x80 {
        assert e == [s[0]] by { AsciiIsItself(s[0]); }
      } else {
        DecodeOneReadsBack(s[0], rest);
      }
    }
  }

  lemma AsciiIsItself(c: CodePoint)
    requires c < 0x80
    ensures EncodeOne(c) == [c]
  {}

  lemma TwoBytes(x: nat, y: nat)
    requires 2 <= x < 32 && y < 64
    ensures EncodeOne(x * 64 + y) == [0xC0 + x, 0x80 + y]
  {
    assert (x * 64 + y) / 64 == x && (x * 64 + y) % 64 == y;
  }

  lemma ThreeBytes(x: nat, y: nat, z: nat)
    requires x < 16 && y < 64 && z < 64 && (x == 0 ==> y >= 32)
    ensures EncodeOne((x * 64 + y) * 64 + z) == [0xE0 + x, 0x80 + y, 0x80 + z]
  {
    var c := (x * 64 + y) * 64 + z;
    assert c / 64 == x * 64 + y && c % 64 == z && c / 4096 == x && c / 64 % 64 == y;
  }

  lemma FourBytes(x: nat, y: nat, z: nat, u: nat)
    requires x <= 4 && y < 64 && z < 64 && u < 64 && (x == 0 ==> y >= 16) && (x == 4 ==> y < 16)
    ensures EncodeOne(((x * 64 + y) * 64 + z) * 64 + u) == [0xF0 + x, 0x80 + y, 0x80 + z, 0x80 + u]
  {
    var c := ((x * 64 + y) * 64 + z) * 64 + u;
    assert c / 64 == (x * 64 + y) * 64 + z && c % 64 == u && c / 64 % 64 == z;
    assert c / 4096 == x * 64 + y && c / 262144 == x && c / 4096 % 64 == y;
  }

  /** Whatever is decoded to anything but a replacement was the encoding of that code point. */
  lemma DecodeOneIsEncoding(p: Path)
    requires p != [] && 0x80 <= p[0] < 0x100
    ensures var (c, n) := DecodeOne(p);
            c != REPLACEMENT ==> 0x80 <= c <= 0x10FFFF && !IsSurrogate(c) && EncodeOne(c) == p[..n]
  {
    var (c, n) := DecodeOne(p);
    hide EncodeOne;
    if c != REPLACEMENT {
      if n == 2 {
        TwoBytes(p[0] - 0xC0, p[1] - 0x80);
        assert p[..2] == [p[0], p[1]];
      } else if n == 3 {
        ThreeBytes(p[0] - 0xE0, p[1] - 0x80, p[2] - 0x80);
        assert p[..3] == [p[0], p[1], p[2]];
      } else if n == 4 {
        FourBytes(p[0] - 0xF0, p[1] - 0x80, p[2] - 0x80, p[3] - 0x80);
        assert p[..4] == [p[0], p[1], p[2], p[3]];
      }
    }
  }

  /** The first `n` bytes begin the encoding of some code point. */
  ghost predicate Begins(p: Path, n: nat) {
    n <= |p| && exists c: CodePoint :: BeginsAs(p, n, c)
  }

  predicate BeginsAs(p: Path, n: nat, c: CodePoint)
    requires n <= |p|
  {
    !IsSurrogate(c) && n <= |EncodeOne(c)| && EncodeOne(c)[..n] == p[..n]
  }

  /** What is replaced is decided by the bytes up to the one that does not fit. */
  lemma SameReplacement(p: Path, q: Path)
    requires p != [] && 0x80 <= p[0] < 0x100 && DecodeOne(p).0 == REPLACEMENT && DecodeOne(p).1 < |p|
    requires DecodeOne(p).1 < |q| && forall i :: 0 <= i <= DecodeOne(p).1 ==> p[i] == q[i]
    ensures DecodeOne(q) == DecodeOne(p)
  {}

  lemma NoLongerPart(p: Path, c: CodePoint)
    requires p != [] && 0x80 <= p[0] < 0x100 && DecodeOne(p).0 == REPLACEMENT && DecodeOne(p).1 < |p|
    ensures !BeginsAs(p, DecodeOne(p).1 + 1, c)
  {
    hide DecodeOne, EncodeOne;
    var n, q := DecodeOne(p).1, EncodeOne(c);
    if c < 0x80 { AsciiIsItself(c); }
    if BeginsAs(p, n + 1, c) {
      assert forall i :: 0 <= i <= n ==> p[i] == p[..n + 1][i] == q[..n + 1][i] == q[i];
      DecodeOneReadsBack(c, []);
      assert q + [] == q;
      SameReplacement(p, q);
    }
  }

  lemma PartBegins(p: Path)
    requires p != [] && 0x80 <= p[0] < 0x100 && DecodeOne(p).0 == REPLACEMENT && 1 < DecodeOne(p).1
    ensures Begins(p, DecodeOne(p).1)
  {
    var n, a := DecodeOne(p).1, p[0];
    hide EncodeOne;
    if a < 0xF0 {
      var z := if n == 2 then 0 else p[2] - 0x80;
      ThreeBytes(a - 0xE0, p[1] - 0x80, z);
      assert BeginsAs(p, n, ((a - 0xE0) * 64 + p[1] - 0x80) * 64 + z);
    } else {
      var z := if n == 2 then 0 else p[2] - 0x80;
      FourBytes(a - 0xF0, p[1] - 0x80, z, 0);
      assert BeginsAs(p, n, (((a - 0xF0) * 64 + p[1] - 0x80) * 64 + z) * 64);
    }
  }

  /** What no encoding begins with is replaced by one U+FFFD for its longest part that begins an encoding, or for one
      byte if none does. */
  lemma MalformedIsReplaced(p: Path)
    requires p != [] && 0x80 <= p[0] < 0x100 && forall d: CodePoint :: !IsSurrogate(d) ==> !(EncodeOne(d) <= p)
    ensures var (c, n) := DecodeOne(p);
            && c == 0xFFFD && (n > 1 ==> Begins(p, n)) && (n < |p| ==> !Begins(p, n + 1))
  {
    DecodeOneIsEncoding(p);
    var (c, n) := DecodeOne(p);
    if n > 1 { PartBegins(p); }
    if n < |p| && Begins(p, n + 1) {
      var d: CodePoint :| BeginsAs(p, n + 1, d);
      NoLongerPart(p, d);
    }
  }
}
