/** Text and bytes as the runtime holds them: a string is a sequence of code points,
    lone surrogates included, and a pipe carries bytes. */
module Text {

  type Byte = n: int | 0 <= n < 256
  type Bytes = seq<Byte>
  type CodePoint = n: int | 0 <= n <= 0x10FFFF
  type Str = seq<CodePoint>

  datatype Option<+T> = None | Some(value: T)

  const NEWLINE: Byte := 10

  function Literal(s: string): Str {
    seq(|s|, i requires 0 <= i < |s| => s[i] as int)
  }

  /** The characters that `str.strip` removes. */
  predicate IsSpace(c: CodePoint) {
    9 <= c <= 13 || 28 <= c <= 32 || c == 0x85 || c == 0xA0 || c == 0x1680 || 0x2000 <= c <= 0x200A
    || c == 0x2028 || c == 0x2029 || c == 0x202F || c == 0x205F || c == 0x3000
  }

  function StripLeft(s: Str): (r: Str)
    ensures r == [] || !IsSpace(r[0])
    ensures |r| <= |s| && r == s[|s| - |r|..]
  {
    if s != [] && IsSpace(s[0]) then StripLeft(s[1..]) else s
  }

  function StripRight(s: Str): (r: Str)
    ensures r == [] || !IsSpace(r[|r| - 1])
    ensures r <= s
  {
    if s != [] && IsSpace(s[|s| - 1]) then StripRight(s[..|s| - 1]) else s
  }

  function Strip(s: Str): (r: Str)
    ensures r != [] ==> !IsSpace(r[0]) && !IsSpace(r[|r| - 1])
  {
    StripRight(StripLeft(s))
  }

  /** Text that has neither leading nor trailing white space is exactly what `strip` leaves alone. */
  lemma StripFixpoint(s: Str)
    ensures Strip(s) == s <==> s == [] || (!IsSpace(s[0]) && !IsSpace(s[|s| - 1]))
  {
    if s != [] && !IsSpace(s[0]) && !IsSpace(s[|s| - 1]) {
      assert StripLeft(s) == s;
    }
  }

  predicate IsAscii(s: Str) {
    forall i :: 0 <= i < |s| ==> s[i] < 128
  }

  predicate IsSurrogate(c: CodePoint) {
    0xD800 <= c <= 0xDFFF
  }

  /** No lone surrogate: the strings that `encode("utf-8")` accepts. */
  predicate Encodable(s: Str) {
    forall i :: 0 <= i < |s| ==> !IsSurrogate(s[i])
  }

  /** Bytes of one code point in UTF-8, section 3 of RFC 3629. */
  function Utf8Width(c: CodePoint): nat {
    if c < 0x80 then 1 else if c < 0x800 then 2 else if c < 0x10000 then 3 else 4
  }

  function Utf8Length(s: Str): nat {
    if s == [] then 0 else Utf8Width(s[0]) + Utf8Length(s[1..])
  }

  /** `strip` removes white space at both ends and nothing else. */
  lemma StripTakesSpaceOnly(s: Str) returns (i: nat, j: nat)
    ensures i <= j <= |s| && Strip(s) == s[i..j]
    ensures (forall k :: 0 <= k < i ==> IsSpace(s[k])) && (forall k :: j <= k < |s| ==> IsSpace(s[k]))
  {
    hide StripLeft, StripRight, IsSpace;
    i := StripLeftTakesSpace(s);
    var n := StripRightTakesSpace(s[i..]);
    SliceOfSlice(s, i, n);
    j := i + n;
    forall k | j <= k < |s| ensures IsSpace(s[k]) {
      assert s[i..][k - i] == s[k];
    }
  }

  lemma SliceOfSlice(s: Str, i: nat, n: nat)
    requires i <= |s| && n <= |s| - i
    ensures s[i..][..n] == s[i..i + n]
  {}

  lemma {:induction false} StripLeftTakesSpace(s: Str) returns (i: nat)
    ensures i <= |s| && StripLeft(s) == s[i..] && forall k :: 0 <= k < i ==> IsSpace(s[k])
    decreases |s|
  {
    if s != [] && IsSpace(s[0]) {
      i := StripLeftTakesSpace(s[1..]);
      assert forall k :: 0 < k < i + 1 ==> s[k] == s[1..][k - 1];
      i := i + 1;
    } else {
      i := 0;
    }
  }

  lemma {:induction false} StripRightTakesSpace(s: Str) returns (j: nat)
    ensures j <= |s| && StripRight(s) == s[..j] && forall k :: j <= k < |s| ==> IsSpace(s[k])
    decreases |s|
  {
    if s != [] && IsSpace(s[|s| - 1]) {
      j := StripRightTakesSpace(s[..|s| - 1]);
      assert s[..|s| - 1][..j] == s[..j];
      assert forall k :: j <= k < |s| - 1 ==> s[k] == s[..|s| - 1][k];
    } else {
      j := |s|;
    }
  }
}
