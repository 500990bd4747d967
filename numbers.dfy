/**
  Number conversion as device_lib.py performs it on readings: Python's `float()`
  on a plain decimal literal, then `int()` on the result.
*/
module Numbers {
  import opened Wrappers
  import opened Strings

  predicate IsDigit(c: char) {
    '0' <= c <= '9'
  }

  predicate AllDigits(s: string) {
    forall i :: 0 <= i < |s| ==> IsDigit(s[i])
  }

  /** A decimal literal: its sign, the digits before the point and the digits after it. */
  datatype Decimal = Decimal(negative: bool, whole: string, frac: string)

  /** The literal has decimal digits only, and at least one of them. */
  predicate IsLiteral(d: Decimal) {
    AllDigits(d.whole) && AllDigits(d.frac) && |d.whole| + |d.frac| > 0
  }

  /**
    The whitespace `float()` strips from the ends of its argument: ASCII characters
    are looked up in the C-locale table (tab, newline, vertical tab, form feed,
    carriage return and space), and every other `str.isspace()` character counts
    as a space. The separator controls U+001C to U+001F, which `str.isspace()`
    accepts, are therefore kept by `float()`, and refused.
  */
  predicate FloatSpace(c: char) {
    IsSpace(c) && !(28 <= c as int <= 31)
  }

  predicate AllFloatSpace(s: string) {
    forall i :: 0 <= i < |s| ==> FloatSpace(s[i])
  }

  /** The suffix left after dropping the longest prefix of `float()` whitespace. */
  function StripLeading(s: string): (r: string)
    ensures |r| <= |s| && r == s[|s| - |r|..]
    ensures AllFloatSpace(s[..|s| - |r|])
    ensures r != [] ==> !FloatSpace(r[0])
  {
    if s != [] && FloatSpace(s[0]) then
      var r := StripLeading(s[1..]);
      assert s[..|s| - |r|] == [s[0]] + s[1..][..|s| - 1 - |r|];
      r
    else
      s
  }

  /** The prefix left after dropping the longest suffix of `float()` whitespace. */
  function StripTrailing(s: string): (r: string)
    ensures |r| <= |s| && r == s[..|r|]
    ensures AllFloatSpace(s[|r|..])
    ensures r != [] ==> !FloatSpace(r[|r| - 1])
  {
    if s != [] && FloatSpace(s[|s| - 1]) then
      var r := StripTrailing(s[..|s| - 1]);
      assert s[|r|..] == s[..|s| - 1][|r|..] + [s[|s| - 1]];
      r
    else
      s
  }

  /** The text `float()` parses: its argument with `float()` whitespace dropped at both ends. */
  function FloatStrip(s: string): (r: string)
    ensures r != [] ==> !FloatSpace(r[0]) && !FloatSpace(r[|r| - 1])
  {
    StripTrailing(StripLeading(s))
  }

  lemma {:induction false} StripLeadingSpaces(w: string, x: string)
    requires AllFloatSpace(w)
    requires x == [] || !FloatSpace(x[0])
    ensures StripLeading(w + x) == x
  {
    if w != [] {
      assert (w + x)[1..] == w[1..] + x;
      StripLeadingSpaces(w[1..], x);
    }
  }

  lemma {:induction false} StripTrailingSpaces(x: string, w: string)
    requires AllFloatSpace(w)
    requires x == [] || !FloatSpace(x[|x| - 1])
    ensures StripTrailing(x + w) == x
  {
    if w != [] {
      assert (x + w)[..|x + w| - 1] == x + w[..|w| - 1];
      StripTrailingSpaces(x, w[..|w| - 1]);
    }
  }

  /** `float()` drops exactly its whitespace around a text whose ends are not such whitespace. */
  lemma FloatStripSurrounded(w1: string, x: string, w2: string)
    requires AllFloatSpace(w1) && AllFloatSpace(w2)
    requires x != [] && !FloatSpace(x[0]) && !FloatSpace(x[|x| - 1])
    ensures FloatStrip(w1 + x + w2) == x
  {
    assert w1 + x + w2 == w1 + (x + w2);
    StripLeadingSpaces(w1, x + w2);
    StripTrailingSpaces(x, w2);
  }

  /**
    `float(s)` for the literals `[+-]digits`, `[+-]digits.digits`, `[+-]digits.` and
    `[+-].digits`, with `float()` whitespace around them; any other text is a
    conversion failure.
  */
  function ParseFloat(s: string): (r: Option<Decimal>)
    ensures r.Some? ==> IsLiteral(r.value) && Spells(FloatStrip(s), r.value)
    ensures forall d :: IsLiteral(d) && Spells(FloatStrip(s), d) ==> r == Some(d)
  {
    ParseLiteralSpells(FloatStrip(s));
    SpelledParsesAll(FloatStrip(s));
    ParseLiteral(FloatStrip(s))
  }

  /** The literal that text without surrounding whitespace spells, if any. */
  function ParseLiteral(t: string): (r: Option<Decimal>)
    ensures r.Some? ==> IsLiteral(r.value)
  {
    var signed := t != [] && (t[0] == '-' || t[0] == '+');
    var body := if signed then t[1..] else t;
    var parts := Split(body, '.');
    var frac := if |parts| == 2 then parts[1] else [];
    if |parts| <= 2 && AllDigits(parts[0]) && AllDigits(frac) && |parts[0]| + |frac| > 0 then
      Some(Decimal(signed && t[0] == '-', parts[0], frac))
    else
      None
  }

  /** `body` with a sign `float()` accepts for it: `-` when negative, none or `+` otherwise. */
  predicate SignedBy(t: string, negative: bool, body: string) {
    if negative then t == "-" + body else t == body || t == "+" + body
  }

  /**
    `t` is a way of writing the literal `d` that `float()` accepts: its sign, its
    digits, and a point before the fraction; with no fraction a point may still
    close the digits (`5.`).
  */
  predicate Spells(t: string, d: Decimal) {
    SignedBy(t, d.negative, Unsigned(d)) || (d.frac == [] && SignedBy(t, d.negative, d.whole + "."))
  }

  /** The characters a literal is written with. */
  predicate NumberChar(c: char) {
    IsDigit(c) || c == '.' || c == '-' || c == '+'
  }

  /** What the text is read as is the literal it spells. */
  lemma ParseLiteralSpells(t: string)
    ensures ParseLiteral(t).Some? ==> Spells(t, ParseLiteral(t).value)
  {
    var signed := t != [] && (t[0] == '-' || t[0] == '+');
    var body := if signed then t[1..] else t;
    if ParseLiteral(t).Some? {
      var d := ParseLiteral(t).value;
      BodyShape(body);
      if signed {
        assert t == [t[0]] + body;
      }
    }
  }

  /** Text with at most one point spells the digits before it, the point and the digits after it. */
  lemma BodyShape(body: string)
    ensures var parts := Split(body, '.');
      var frac := if |parts| == 2 then parts[1] else [];
      |parts| <= 2 ==>
        body == parts[0] + (if frac == [] then "" else "." + frac) ||
        (frac == [] && body == parts[0] + ".")
  {
    SplitBody(body);
  }

  /** Text with at most one point is the piece before it, the point and the piece after it. */
  lemma SplitBody(body: string)
    ensures var parts := Split(body, '.');
      && (|parts| == 1 ==> body == parts[0])
      && (|parts| == 2 ==> body == parts[0] + ['.'] + parts[1])
  {
    var parts := Split(body, '.');
    JoinSplit(body, '.');
    if |parts| == 2 {
      assert Join(parts[1..], '.') == parts[1];
    }
  }

  /** Text that spells a literal is read as that literal. */
  lemma SpelledParses(t: string, d: Decimal)
    requires IsLiteral(d) && Spells(t, d)
    ensures ParseLiteral(t) == Some(d)
  {
    var body := if SignedBy(t, d.negative, Unsigned(d)) then Unsigned(d) else d.whole + ".";
    if d.whole != [] {
      assert body[0] == d.whole[0];
    } else {
      assert body[0] == '.';
    }
    NoPointInDigits(d.whole);
    if body == Unsigned(d) {
      SplitUnsigned(d);
    } else {
      assert body == d.whole + ['.'] + [];
      SplitAfterPiece(d.whole, [], '.');
    }
    if t != body {
      assert t[1..] == body;
    }
  }

  lemma SpelledParsesAll(t: string)
    ensures forall d :: IsLiteral(d) && Spells(t, d) ==> ParseLiteral(t) == Some(d)
  {
    forall d | IsLiteral(d) && Spells(t, d)
      ensures ParseLiteral(t) == Some(d)
    {
      SpelledParses(t, d);
    }
  }

  /** A literal is written with digits, a point and a sign only. */
  lemma LiteralChars(t: string, d: Decimal)
    requires IsLiteral(d) && Spells(t, d)
    ensures forall i :: 0 <= i < |t| ==> NumberChar(t[i])
  {
    var body := if SignedBy(t, d.negative, Unsigned(d)) then Unsigned(d) else d.whole + ".";
    assert forall i :: 0 <= i < |body| ==> NumberChar(body[i]);
    if t != body {
      assert t == [t[0]] + body;
    }
  }

  /**
    `float()` raises ValueError on text holding, anywhere, a character that is
    neither one a literal is written with nor `float()` whitespace.
  */
  lemma OtherCharRefused(s: string, i: int)
    requires 0 <= i < |s| && !NumberChar(s[i]) && !FloatSpace(s[i])
    ensures ParseFloat(s).None?
  {
    StripKeeps(s, i);
    StrippedCharRefused(s, i - (|s| - |StripLeading(s)|));
  }

  /** Stripping keeps every character that is not `float()` whitespace, shifted by the leading whitespace. */
  lemma StripKeeps(s: string, i: int)
    requires 0 <= i < |s| && !FloatSpace(s[i])
    ensures var a := |s| - |StripLeading(s)|; a <= i < a + |FloatStrip(s)| && FloatStrip(s)[i - a] == s[i]
  {
    var l := StripLeading(s);
    var a := |s| - |l|;
    assert i >= a;
    assert l[i - a] == s[i];
  }

  /** Once stripped, the text is refused if any of its characters, whitespace included, is not a literal's. */
  lemma StrippedCharRefused(s: string, i: int)
    requires 0 <= i < |FloatStrip(s)| && !NumberChar(FloatStrip(s)[i])
    ensures ParseFloat(s).None?
  {
    if ParseFloat(s).Some? {
      LiteralChars(FloatStrip(s), ParseFloat(s).value);
    }
  }

  /** The canonical text of a literal: `-` when negative, and a point only before a fraction. */
  function Format(d: Decimal): string {
    (if d.negative then "-" else "") + d.whole + (if d.frac == [] then "" else "." + d.frac)
  }

  lemma FormatEnds(d: Decimal)
    requires IsLiteral(d)
    ensures Format(d) != []
    ensures !IsSpace(Format(d)[0]) && !IsSpace(Format(d)[|Format(d)| - 1])
    ensures IsDigit(Format(d)[|Format(d)| - 1])
  {
    var f := Format(d);
    if d.frac == [] {
      assert f[|f| - 1] == d.whole[|d.whole| - 1];
    } else {
      assert f[|f| - 1] == d.frac[|d.frac| - 1];
    }
  }

  /** The literal without its sign. */
  function Unsigned(d: Decimal): string {
    d.whole + (if d.frac == [] then "" else "." + d.frac)
  }

  lemma NoPointInDigits(s: string)
    requires AllDigits(s)
    ensures '.' !in s
  {
    forall i | 0 <= i < |s|
      ensures s[i] != '.'
    {
      assert IsDigit(s[i]);
    }
  }

  lemma SplitUnsigned(d: Decimal)
    requires IsLiteral(d)
    ensures Split(Unsigned(d), '.') == if d.frac == [] then [d.whole] else [d.whole, d.frac]
  {
    NoPointInDigits(d.whole);
    NoPointInDigits(d.frac);
    if d.frac == [] {
      assert Unsigned(d) == d.whole;
      SplitNoSep(d.whole, '.');
    } else {
      assert Unsigned(d) == d.whole + ['.'] + d.frac;
      SplitAfterPiece(d.whole, d.frac, '.');
      SplitNoSep(d.frac, '.');
    }
  }

  /** Reading the canonical text of a literal gives that literal back. */
  lemma ParseFormat(d: Decimal)
    requires IsLiteral(d)
    ensures ParseFloat(Format(d)) == Some(d)
  {
    FormatStripped(d);
    ParseLiteralFormat(d);
  }

  /** The canonical text has nothing for `float()` to strip. */
  lemma FormatStripped(d: Decimal)
    requires IsLiteral(d)
    ensures FloatStrip(Format(d)) == Format(d)
  {
    FormatEnds(d);
    FloatStripBare(Format(d));
  }

  lemma FloatStripBare(x: string)
    requires x != [] && !IsSpace(x[0]) && !IsSpace(x[|x| - 1])
    ensures FloatStrip(x) == x
  {
    FloatStripSurrounded([], x, []);
    assert [] + x + [] == x;
  }

  lemma ParseLiteralFormat(d: Decimal)
    requires IsLiteral(d)
    ensures ParseLiteral(Format(d)) == Some(d)
  {
    FormatSign(d);
    SplitUnsigned(d);
  }

  /** The canonical text starts with a sign exactly when the literal is negative, and the rest is unsigned. */
  lemma FormatSign(d: Decimal)
    requires IsLiteral(d)
    ensures Format(d) != []
    ensures d.negative ==> Format(d)[0] == '-' && Format(d)[1..] == Unsigned(d)
    ensures !d.negative ==> Format(d)[0] != '-' && Format(d)[0] != '+' && Format(d) == Unsigned(d)
  {
    var f := Format(d);
    FormatEnds(d);
    assert f == (if d.negative then "-" else "") + Unsigned(d);
    if !d.negative {
      assert f == Unsigned(d);
      if d.whole != [] {
        assert f[0] == d.whole[0];
      } else {
        assert f[0] == '.';
      }
    }
  }

  function DigitValue(c: char): nat
    requires IsDigit(c)
  {
    c as int - '0' as int
  }

  /** The integer that a string of decimal digits denotes. */
  function WholeValue(s: string): nat
    requires AllDigits(s)
  {
    if s == [] then 0 else 10 * WholeValue(s[..|s| - 1]) + DigitValue(s[|s| - 1])
  }

  /** The value of the digits after a decimal point: always in [0, 1). */
  function FracValue(s: string): (r: real)
    requires AllDigits(s)
    ensures 0.0 <= r < 1.0
  {
    if s == [] then 0.0 else (DigitValue(s[0]) as real + FracValue(s[1..])) / 10.0
  }

  /** The exact number a literal denotes (the value `float()` rounds to binary). */
  function RealValue(d: Decimal): real
    requires IsLiteral(d)
  {
    var m := WholeValue(d.whole) as real + FracValue(d.frac);
    if d.negative then -m else m
  }

  /** The literal's integer digits with its sign: the integer part of the number it spells. */
  function IntegerPart(d: Decimal): int
    requires IsLiteral(d)
  {
    if d.negative then -(WholeValue(d.whole) as int) else WholeValue(d.whole)
  }

  /** Python's `int()` on a float: rounds toward zero. */
  function Truncate(x: real): (r: int)
    ensures 0.0 <= x ==> r as real <= x < r as real + 1.0
    ensures x < 0.0 ==> r as real - 1.0 < x <= r as real
  {
    if x >= 0.0 then x.Floor else -((-x).Floor)
  }

  /** `int(float(text))` of a literal is its integer digits, with its sign: the fraction is dropped. */
  lemma TruncateLiteral(d: Decimal)
    requires IsLiteral(d)
    ensures Truncate(RealValue(d)) == IntegerPart(d)
  {
    var w: int := WholeValue(d.whole);
    var f := FracValue(d.frac);
    var r := Truncate(RealValue(d));
    if d.negative && RealValue(d) < 0.0 {
      assert r as real - 1.0 < -(w as real + f) <= r as real;
      assert r < -w + 1;
      assert r > -w - 1;
    } else if d.negative {
      assert w as real + f == 0.0;
      assert w == 0;
    } else {
      assert r as real <= w as real + f < r as real + 1.0;
      assert r < w + 1;
      assert r > w - 1;
    }
  }
}
