/**
 * The two regular expressions of the view models, given a small semantics:
 * a pattern is a list of items matched against the UTF-16 code units of the
 * value, anchored at both ends, as `[RegularExpression]` requires the match
 * to span the whole value.
 */
module Patterns {
  import opened Text

  /** The character classes the two patterns use. */
  datatype CharClass =
    | Literal(unit: int)   // one fixed code unit
    | Digit                // \d
    | AsciiUpper           // [A-Z]
    | Symbol               // the special-character set of the password rule
    | NotNewline           // .

  /** Pattern items: `c{n}`, `c{n,}` and the lookahead `(?=.*c)`. */
  datatype Item = Exactly(cls: CharClass, n: nat) | AtLeast(cls: CharClass, n: nat) | Ahead(cls: CharClass)

  /** The decimal-digit blocks (Unicode category Nd) of the Basic Multilingual Plane, as first and last code unit. */
  const DigitBlocks: seq<(int, int)> := [
    (0x0030, 0x0039), (0x0660, 0x0669), (0x06F0, 0x06F9), (0x07C0, 0x07C9), (0x0966, 0x096F),
    (0x09E6, 0x09EF), (0x0A66, 0x0A6F), (0x0AE6, 0x0AEF), (0x0B66, 0x0B6F), (0x0BE6, 0x0BEF),
    (0x0C66, 0x0C6F), (0x0CE6, 0x0CEF), (0x0D66, 0x0D6F), (0x0DE6, 0x0DEF), (0x0E50, 0x0E59),
    (0x0ED0, 0x0ED9), (0x0F20, 0x0F29), (0x1040, 0x1049), (0x1090, 0x1099), (0x17E0, 0x17E9),
    (0x1810, 0x1819), (0x1946, 0x194F), (0x19D0, 0x19D9), (0x1A80, 0x1A89), (0x1A90, 0x1A99),
    (0x1B50, 0x1B59), (0x1BB0, 0x1BB9), (0x1C40, 0x1C49), (0x1C50, 0x1C59), (0xA620, 0xA629),
    (0xA8D0, 0xA8D9), (0xA900, 0xA909), (0xA9D0, 0xA9D9), (0xA9F0, 0xA9F9), (0xAA50, 0xAA59),
    (0xABF0, 0xABF9), (0xFF10, 0xFF19)]

  /** `\d`: a code unit inside one of the decimal-digit blocks. */
  predicate IsDecimalDigitUnit(x: int) {
    exists b | 0 <= b < |DigitBlocks| :: DigitBlocks[b].0 <= x <= DigitBlocks[b].1
  }

  /** `[!@#$%^&*()_+\-=\[\]{};':"\\|,.<>\/?]`. */
  const SymbolChars: string := "!@#$%^&*()_+-=[]{};':\"\\|,.<>/?"

  predicate InClass(cls: CharClass, x: int) {
    match cls
    case Literal(u) => x == u
    case Digit => IsDecimalDigitUnit(x)
    case AsciiUpper => 'A' as int <= x <= 'Z' as int
    case Symbol => 0 <= x < 0x80 && (x as char) in SymbolChars
    case NotNewline => x != '\n' as int
  }

  predicate AllIn(cls: CharClass, u: seq<int>) {
    forall k :: 0 <= k < |u| ==> InClass(cls, u[k])
  }

  /** The pattern matches all of `u`; repetitions may take any admissible length (backtracking). */
  predicate Match(items: seq<Item>, u: seq<int>)
    decreases |items|
  {
    if |items| == 0 then |u| == 0
    else match items[0]
      case Exactly(c, n) => n <= |u| && AllIn(c, u[..n]) && Match(items[1..], u[n..])
      case AtLeast(c, n) => exists k | n <= k <= |u| :: AllIn(c, u[..k]) && Match(items[1..], u[k..])
      case Ahead(c) =>
        && (exists k | 0 <= k < |u| :: AllIn(NotNewline, u[..k]) && InClass(c, u[k]))
        && Match(items[1..], u)
  }

  /** `^9\d{9}$`. */
  const PhonePattern: seq<Item> := [Exactly(Literal('9' as int), 1), Exactly(Digit, 9)]

  /** `^(?=.*[A-Z])(?=.*\d)(?=.*[special]).{8,}$`. */
  const StrongPasswordPattern: seq<Item> := [Ahead(AsciiUpper), Ahead(Digit), Ahead(Symbol), AtLeast(NotNewline, 8)]

  /** A decimal digit for `\d`. */
  predicate IsDecimalDigit(c: char) {
    IsDecimalDigitUnit(c as int)
  }

  predicate IsPasswordSymbol(c: char) {
    c in SymbolChars
  }

  /** A phone number in plain words: ten characters, a leading '9', then nine decimal digits. */
  predicate IsPhoneNumber(s: string) {
    |s| == 10 && s[0] == '9' && forall i :: 1 <= i < 10 ==> IsDecimalDigit(s[i])
  }

  /** A strong password in plain words. */
  predicate IsStrongPassword(s: string) {
    && Utf16Length(s) >= 8
    && (forall i :: 0 <= i < |s| ==> s[i] != '\n')
    && (exists i :: 0 <= i < |s| && 'A' <= s[i] <= 'Z')
    && (exists i :: 0 <= i < |s| && IsDecimalDigit(s[i]))
    && (exists i :: 0 <= i < |s| && IsPasswordSymbol(s[i]))
  }

  /** Every decimal-digit block lies below the surrogates or above them, inside the Basic Multilingual Plane. */
  lemma DigitBlocksArePlain(b: nat)
    requires b < |DigitBlocks|
    ensures DigitBlocks[b].1 < 0xD800 || 0xDFFF < DigitBlocks[b].0 <= DigitBlocks[b].1 <= 0xFFFF
  {
  }

  /** The classes the lookaheads and `\\d` test for hold only plain Basic Multilingual Plane units. */
  lemma ClassUnitIsPlain(cls: CharClass, x: int)
    requires cls == AsciiUpper || cls == Digit || cls == Symbol
    requires InClass(cls, x)
    ensures x <= 0xFFFF && !IsSurrogate(x)
  {
    match cls
    case Digit =>
      var b :| 0 <= b < |DigitBlocks| && DigitBlocks[b].0 <= x <= DigitBlocks[b].1;
      DigitBlocksArePlain(b);
    case Symbol =>
    case AsciiUpper =>
  }

  lemma ExactlyStep(c: CharClass, n: nat, rest: seq<Item>, u: seq<int>)
    ensures Match([Exactly(c, n)] + rest, u) <==> n <= |u| && AllIn(c, u[..n]) && Match(rest, u[n..])
  {
    assert ([Exactly(c, n)] + rest)[1..] == rest;
  }

  lemma AtLeastLast(c: CharClass, n: nat, u: seq<int>)
    ensures Match([AtLeast(c, n)], u) <==> n <= |u| && AllIn(c, u)
  {
    var items := [AtLeast(c, n)];
    assert items[1..] == [];
    if n <= |u| && AllIn(c, u) {
      assert u[..|u|] == u;
      assert Match(items[1..], u[|u|..]);
    }
    if Match(items, u) {
      var k :| n <= k <= |u| && AllIn(c, u[..k]) && Match(items[1..], u[k..]);
      assert u[..k] == u;
    }
  }

  lemma AheadStep(c: CharClass, rest: seq<Item>, u: seq<int>)
    ensures Match([Ahead(c)] + rest, u) <==>
      (exists k | 0 <= k < |u| :: AllIn(NotNewline, u[..k]) && InClass(c, u[k])) && Match(rest, u)
  {
    assert ([Ahead(c)] + rest)[1..] == rest;
  }

  /** A single `c{n}` accepts exactly the runs of `n` units of the class. */
  lemma ExactlyAlone(c: CharClass, n: nat, u: seq<int>)
    ensures Match([Exactly(c, n)], u) <==> |u| == n && AllIn(c, u)
  {
    assert [Exactly(c, n)] == [Exactly(c, n)] + [];
    ExactlyStep(c, n, [], u);
    if |u| == n {
      assert u[..n] == u;
    }
  }

  /** `c{n}d{m}` splits the value into a run of `c` and a run of `d`. */
  lemma ExactlyPair(c: CharClass, n: nat, d: CharClass, m: nat, u: seq<int>)
    ensures Match([Exactly(c, n), Exactly(d, m)], u) <==>
      |u| == n + m && AllIn(c, u[..n]) && AllIn(d, u[n..])
  {
    assert [Exactly(c, n), Exactly(d, m)] == [Exactly(c, n)] + [Exactly(d, m)];
    ExactlyStep(c, n, [Exactly(d, m)], u);
    if n <= |u| {
      ExactlyAlone(d, m, u[n..]);
    }
  }

  /** A single unit is a run of a literal exactly when it is that literal. */
  lemma OneLiteral(x: int, u: seq<int>)
    requires |u| == 1
    ensures AllIn(Literal(x), u) <==> u[0] == x
  {
  }

  /** The phone pattern, read off on code units. */
  lemma PhoneMatchUnits(u: seq<int>)
    ensures Match(PhonePattern, u) <==> |u| == 10 && u[0] == '9' as int && AllIn(Digit, u[1..])
  {
    ExactlyPair(Literal('9' as int), 1, Digit, 9, u);
    if |u| == 10 {
      OneLiteral('9' as int, u[..1]);
    }
  }

  /** The phone pattern accepts exactly the phone numbers. */
  lemma PhonePatternMeaning(s: string)
    ensures Match(PhonePattern, ToUtf16(s)) <==> IsPhoneNumber(s)
  {
    var u := ToUtf16(s);
    PhoneMatchUnits(u);
    if IsPhoneNumber(s) {
      forall i | 0 <= i < |s|
        ensures s[i] as int <= 0xFFFF
      {
        if i > 0 {
          ClassUnitIsPlain(Digit, s[i] as int);
        }
      }
      Utf16OfBmp(s);
      assert forall k :: 0 <= k < 9 ==> u[1..][k] == s[k + 1] as int;
    }
    if Match(PhonePattern, u) {
      forall i | 0 <= i < |s|
        ensures s[i] as int <= 0xFFFF
      {
        if s[i] as int > 0xFFFF {
          AstralLeavesSurrogate(s, i);
          var x :| x in u && IsSurrogate(x);
          var k :| 0 <= k < |u| && u[k] == x;
          if k > 0 {
            assert u[1..][k - 1] == x;
            ClassUnitIsPlain(Digit, x);
          }
          assert false;
        }
      }
      Utf16OfBmp(s);
      assert forall i :: 1 <= i < 10 ==> s[i] as int == u[1..][i - 1];
    }
  }

  /** Some code unit of `u` belongs to the class. */
  predicate SomeIn(cls: CharClass, u: seq<int>) {
    exists k | 0 <= k < |u| :: InClass(cls, u[k])
  }

  /** Some character of `s`, read as one number, belongs to the class. */
  predicate SomeCharIn(cls: CharClass, s: string) {
    exists i | 0 <= i < |s| :: InClass(cls, s[i] as int)
  }

  /** The class holds only units that stand for a character by themselves. */
  ghost predicate PlainClass(cls: CharClass) {
    forall x :: InClass(cls, x) ==> x <= 0xFFFF && !IsSurrogate(x)
  }

  /** The password pattern, read off on code units. */
  lemma PasswordMatchUnits(u: seq<int>)
    ensures Match(StrongPasswordPattern, u) <==>
      && |u| >= 8 && AllIn(NotNewline, u)
      && SomeIn(AsciiUpper, u) && SomeIn(Digit, u) && SomeIn(Symbol, u)
  {
    var tail := [AtLeast(NotNewline, 8)];
    assert StrongPasswordPattern == [Ahead(AsciiUpper)] + ([Ahead(Digit)] + ([Ahead(Symbol)] + tail));
    AheadStep(AsciiUpper, [Ahead(Digit)] + ([Ahead(Symbol)] + tail), u);
    AheadStep(Digit, [Ahead(Symbol)] + tail, u);
    AheadStep(Symbol, tail, u);
    AtLeastLast(NotNewline, 8, u);
    if AllIn(NotNewline, u) {
      AheadWithoutNewline(AsciiUpper, u);
      AheadWithoutNewline(Digit, u);
      AheadWithoutNewline(Symbol, u);
    }
  }

  /** Under `.*` with no newline anywhere, a lookahead just asks for some code unit in the class. */
  lemma AheadWithoutNewline(cls: CharClass, u: seq<int>)
    requires AllIn(NotNewline, u)
    ensures (exists k | 0 <= k < |u| :: AllIn(NotNewline, u[..k]) && InClass(cls, u[k])) <==> SomeIn(cls, u)
  {
    if SomeIn(cls, u) {
      var k :| 0 <= k < |u| && InClass(cls, u[k]);
      assert AllIn(NotNewline, u[..k]);
    }
  }

  lemma SomeInConcat(cls: CharClass, a: seq<int>, b: seq<int>)
    ensures SomeIn(cls, a + b) <==> SomeIn(cls, a) || SomeIn(cls, b)
  {
    if SomeIn(cls, a) {
      var k :| 0 <= k < |a| && InClass(cls, a[k]);
      assert (a + b)[k] == a[k];
    }
    if SomeIn(cls, b) {
      var k :| 0 <= k < |b| && InClass(cls, b[k]);
      assert (a + b)[|a| + k] == b[k];
    }
    if SomeIn(cls, a + b) {
      var k :| 0 <= k < |a + b| && InClass(cls, (a + b)[k]);
      if k >= |a| {
        assert b[k - |a|] == (a + b)[k];
      }
    }
  }

  /** A plain class finds a unit in one character's encoding exactly when it holds the character. */
  lemma OneCharUnits(cls: CharClass, c: char)
    requires PlainClass(cls)
    ensures SomeIn(cls, CodeUnits(c)) <==> InClass(cls, c as int)
  {
    var u := CodeUnits(c);
    if c as int <= 0xFFFF {
      assert u[0] == c as int;
    } else {
      assert IsSurrogate(u[0]) && IsSurrogate(u[1]);
    }
  }

  /** A class of plain units finds a code unit exactly when it finds a character. */
  lemma {:induction false} SomeInUnitsIffChars(cls: CharClass, s: string)
    requires PlainClass(cls)
    ensures SomeIn(cls, ToUtf16(s)) <==> SomeCharIn(cls, s)
    decreases |s|
  {
    if |s| > 0 {
      SomeInUnitsIffChars(cls, s[1..]);
      SomeInConcat(cls, CodeUnits(s[0]), ToUtf16(s[1..]));
      OneCharUnits(cls, s[0]);
      if SomeCharIn(cls, s[1..]) {
        var i :| 0 <= i < |s[1..]| && InClass(cls, s[1..][i] as int);
        assert s[i + 1] == s[1..][i];
      }
      if SomeCharIn(cls, s) {
        var i :| 0 <= i < |s| && InClass(cls, s[i] as int);
        if i > 0 {
          assert s[1..][i - 1] == s[i];
        }
      }
    }
  }

  /** `[A-Z]`, `\d` and the symbol set are plain classes. */
  lemma PasswordClassesArePlain()
    ensures PlainClass(AsciiUpper) && PlainClass(Digit) && PlainClass(Symbol)
  {
    forall x | InClass(Digit, x)
      ensures x <= 0xFFFF && !IsSurrogate(x)
    {
      ClassUnitIsPlain(Digit, x);
    }
  }

  /** A literal outside the surrogate range is a plain class. */
  lemma LiteralIsPlain(x: int)
    requires x <= 0xFFFF && !IsSurrogate(x)
    ensures PlainClass(Literal(x))
  {
  }

  /** `.` accepts every unit exactly when no unit is a line feed. */
  lemma NewlineFreeUnits(u: seq<int>)
    ensures AllIn(NotNewline, u) <==> !SomeIn(Literal('\n' as int), u)
  {
  }

  /** No character is a line feed exactly when none reads as the line-feed unit. */
  lemma NewlineFreeChars(s: string)
    ensures !SomeCharIn(Literal('\n' as int), s) <==> forall i :: 0 <= i < |s| ==> s[i] != '\n'
  {
    if SomeCharIn(Literal('\n' as int), s) {
      var i :| 0 <= i < |s| && InClass(Literal('\n' as int), s[i] as int);
      assert s[i] == '\n';
    }
  }

  /** `.` accepts every code unit exactly when no character is a line feed. */
  lemma NoNewlineUnitsIffChars(s: string)
    ensures AllIn(NotNewline, ToUtf16(s)) <==> forall i :: 0 <= i < |s| ==> s[i] != '\n'
  {
    LiteralIsPlain('\n' as int);
    SomeInUnitsIffChars(Literal('\n' as int), s);
    NewlineFreeUnits(ToUtf16(s));
    NewlineFreeChars(s);
  }

  lemma SymbolClassIsSymbolChar(c: char)
    ensures InClass(Symbol, c as int) <==> IsPasswordSymbol(c)
  {
    if IsPasswordSymbol(c) {
      assert forall i | 0 <= i < |SymbolChars| :: SymbolChars[i] as int < 0x80;
      var j :| 0 <= j < |SymbolChars| && SymbolChars[j] == c;
    }
  }

  /** The password pattern accepts exactly the strong passwords. */
  lemma StrongPasswordPatternMeaning(s: string)
    ensures Match(StrongPasswordPattern, ToUtf16(s)) <==> IsStrongPassword(s)
  {
    var u := ToUtf16(s);
    PasswordMatchUnits(u);
    NoNewlineUnitsIffChars(s);
    PasswordClassesArePlain();
    SomeInUnitsIffChars(AsciiUpper, s);
    SomeInUnitsIffChars(Digit, s);
    SomeInUnitsIffChars(Symbol, s);
    forall i | 0 <= i < |s|
      ensures InClass(Symbol, s[i] as int) <==> IsPasswordSymbol(s[i])
    {
      SymbolClassIsSymbolChar(s[i]);
    }
  }
}
