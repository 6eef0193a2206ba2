/**
 * The .NET string operations the controllers rely on: white-space tests,
 * `Trim`, lower-casing, UTF-16 length and integer formatting.
 */
module Text {
  import opened Optional

  /** `char.IsWhiteSpace`: the Unicode separators plus the C0 controls 9..13 and U+0085. */
  predicate IsWhiteSpace(c: char) {
    || ('\U{9}' <= c <= '\U{D}')
    || c == ' ' || c == '\U{85}' || c == '\U{A0}' || c == '\U{1680}'
    || ('\U{2000}' <= c <= '\U{200A}')
    || c == '\U{2028}' || c == '\U{2029}' || c == '\U{202F}' || c == '\U{205F}' || c == '\U{3000}'
  }

  /** Empty or made only of white space. */
  predicate IsBlank(s: string) {
    forall i :: 0 <= i < |s| ==> IsWhiteSpace(s[i])
  }

  /** `string.IsNullOrWhiteSpace`. */
  predicate IsNullOrWhiteSpace(v: Option<string>) {
    v.None? || IsBlank(v.value)
  }

  /** `string.IsNullOrEmpty`. */
  predicate IsNullOrEmpty(v: Option<string>) {
    v.None? || v.value == ""
  }

  /** Drops the leading white space. */
  function TrimStart(s: string): (r: string)
    ensures |r| <= |s| && r == s[|s| - |r|..]
    ensures forall k :: 0 <= k < |s| - |r| ==> IsWhiteSpace(s[k])
    ensures |r| > 0 ==> !IsWhiteSpace(r[0])
    decreases |s|
  {
    if |s| > 0 && IsWhiteSpace(s[0]) then TrimStart(s[1..]) else s
  }

  /** Drops the trailing white space. */
  function TrimEnd(s: string): (r: string)
    ensures |r| <= |s| && r == s[..|r|]
    ensures forall k :: |r| <= k < |s| ==> IsWhiteSpace(s[k])
    ensures |r| > 0 ==> !IsWhiteSpace(r[|r| - 1])
    decreases |s|
  {
    if |s| > 0 && IsWhiteSpace(s[|s| - 1]) then TrimEnd(s[..|s| - 1]) else s
  }

  /** `string.Trim()`: the input without its white-space margins. */
  function Trim(s: string): (r: string)
  {
    TrimEnd(TrimStart(s))
  }

  /** The trimmed string is the part of the input between two white-space margins. */
  lemma TrimIsInner(s: string)
    ensures exists i, j :: (0 <= i <= j <= |s| && Trim(s) == s[i..j]
      && (forall k :: 0 <= k < i ==> IsWhiteSpace(s[k]))
      && (forall k :: j <= k < |s| ==> IsWhiteSpace(s[k])))
    ensures |Trim(s)| > 0 ==> !IsWhiteSpace(Trim(s)[0]) && !IsWhiteSpace(Trim(s)[|Trim(s)| - 1])
  {
    var t := TrimStart(s);
    var i := |s| - |t|;
    var j := i + |TrimEnd(t)|;
    assert Trim(s) == s[i..j];
    if |Trim(s)| > 0 {
      assert Trim(s)[0] == t[0];
    }
  }

  /** Trimming a trimmed string changes nothing. */
  lemma TrimIdempotent(s: string)
    ensures Trim(Trim(s)) == Trim(s)
  {
    TrimIsInner(s);
    var t := Trim(s);
    if |t| > 0 {
      assert TrimStart(t) == t;
      assert TrimEnd(t) == t;
    }
  }

  /** Trimming yields the empty string exactly for blank input. */
  lemma TrimEmptyIffBlank(s: string)
    ensures Trim(s) == "" <==> IsBlank(s)
  {
    TrimIsInner(s);
  }

  /** `char.ToLower` on ASCII letters; every other character is kept. */
  function AsciiLower(c: char): (r: char)
    ensures 'A' <= c <= 'Z' ==> r as int == c as int + 32
    ensures !('A' <= c <= 'Z') ==> r == c
  {
    if 'A' <= c <= 'Z' then (c as int + 32) as char else c
  }

  /** `string.ToLower()`, restricted to the ASCII case mapping. */
  function Lower(s: string): (r: string)
    ensures |r| == |s|
    ensures forall i :: 0 <= i < |s| ==> r[i] == AsciiLower(s[i])
  {
    seq(|s|, i requires 0 <= i < |s| => AsciiLower(s[i]))
  }

  /** A UTF-16 surrogate code unit. */
  predicate IsSurrogate(x: int) {
    0xD800 <= x <= 0xDFFF
  }

  /** The UTF-16 encoding of one character: itself, or a surrogate pair above U+FFFF. */
  function CodeUnits(c: char): (u: seq<int>)
    ensures c as int <= 0xFFFF ==> u == [c as int]
    ensures c as int > 0xFFFF ==> |u| == 2 && IsSurrogate(u[0]) && IsSurrogate(u[1])
  {
    if c as int <= 0xFFFF then [c as int]
    else
      var v := c as int - 0x10000;
      [0xD800 + v / 0x400, 0xDC00 + v % 0x400]
  }

  /** The UTF-16 code units of a string, which is what .NET strings and regular expressions work on. */
  function ToUtf16(s: string): seq<int>
    decreases |s|
  {
    if |s| == 0 then [] else CodeUnits(s[0]) + ToUtf16(s[1..])
  }

  /** `string.Length`. */
  function Utf16Length(s: string): nat {
    |ToUtf16(s)|
  }

  /** Every code unit is a surrogate or one of the characters; every character up to U+FFFF is a code unit. */
  lemma {:induction false} CodeUnitsOfString(s: string)
    ensures forall x :: x in ToUtf16(s) ==> IsSurrogate(x) || exists i :: 0 <= i < |s| && s[i] as int == x
    ensures forall i :: 0 <= i < |s| && s[i] as int <= 0xFFFF ==> s[i] as int in ToUtf16(s)
    ensures |ToUtf16(s)| >= |s|
    decreases |s|
  {
    if |s| > 0 {
      CodeUnitsOfString(s[1..]);
      forall x | x in ToUtf16(s)
        ensures IsSurrogate(x) || exists i :: 0 <= i < |s| && s[i] as int == x
      {
        if x in ToUtf16(s[1..]) && !IsSurrogate(x) {
          var i :| 0 <= i < |s[1..]| && s[1..][i] as int == x;
          assert s[i + 1] as int == x;
        }
      }
      forall i | 0 <= i < |s| && s[i] as int <= 0xFFFF
        ensures s[i] as int in ToUtf16(s)
      {
        if i > 0 {
          assert s[1..][i - 1] == s[i];
        }
      }
    }
  }

  /** Without characters above U+FFFF the code units are the characters themselves. */
  lemma {:induction false} Utf16OfBmp(s: string)
    requires forall i :: 0 <= i < |s| ==> s[i] as int <= 0xFFFF
    ensures |ToUtf16(s)| == |s|
    ensures forall i :: 0 <= i < |s| ==> ToUtf16(s)[i] == s[i] as int
    decreases |s|
  {
    if |s| > 0 {
      Utf16OfBmp(s[1..]);
    }
  }

  /** A character above U+FFFF leaves a surrogate among the code units. */
  lemma AstralLeavesSurrogate(s: string, i: nat)
    requires i < |s| && s[i] as int > 0xFFFF
    ensures exists x :: x in ToUtf16(s) && IsSurrogate(x)
    decreases i
  {
    if i == 0 {
      assert CodeUnits(s[0])[0] in ToUtf16(s);
    } else {
      AstralLeavesSurrogate(s[1..], i - 1);
      var x :| x in ToUtf16(s[1..]) && IsSurrogate(x);
      assert x in ToUtf16(s);
    }
  }

  function DigitChar(d: nat): (c: char)
    requires d < 10
    ensures '0' <= c <= '9'
  {
    "0123456789"[d]
  }

  /** Decimal rendering of a natural number, as string interpolation prints it. */
  function NatToString(n: nat): (r: string)
    ensures |r| >= 1
    ensures forall i :: 0 <= i < |r| ==> '0' <= r[i] <= '9'
    decreases n
  {
    if n < 10 then [DigitChar(n)] else NatToString(n / 10) + [DigitChar(n % 10)]
  }

  function IntToString(n: int): string
  {
    if n < 0 then "-" + NatToString(-n) else NatToString(n)
  }
}
