/**
  How `parse` reads the pieces of the numeric fields as nvidia-smi prints them:
  a decimal number, optional spaces and the unit `MiB` or `W`, with spaces
  around; and the case of a reading the board does not support.
*/
module GpuReadings {
  import opened Wrappers
  import opened Strings
  import opened Numbers
  import opened GpuQuery

  lemma FormatChars(d: Decimal)
    requires IsLiteral(d)
    ensures forall i :: 0 <= i < |Format(d)| ==> NumberChar(Format(d)[i])
  {
    var sign: string := if d.negative then "-" else "";
    var point: string := if d.frac == [] then "" else "." + d.frac;
    assert Format(d) == sign + d.whole + point;
  }

  lemma SpacesUpper(w: string)
    requires AllSpace(w)
    ensures Upper(w) == w
  {
    UpperUnchanged(w);
  }

  lemma FormatUpper(d: Decimal)
    requires IsLiteral(d)
    ensures Upper(Format(d)) == Format(d)
  {
    FormatChars(d);
    UpperUnchanged(Format(d));
  }

  /** A character a unit can hold when it upper-cases to `MIB` or `W`. */
  lemma UnitChars(u: string)
    requires Upper(u) == "MIB" || Upper(u) == "W"
    ensures 'N' !in u && u != [] && !IsSpace(Upper(u)[|Upper(u)| - 1])
  {
    forall i | 0 <= i < |u|
      ensures u[i] != 'N'
    {
      assert Upper(u)[i] == UpperChar(u[i]);
    }
  }

  /** A pattern whose first letter does not occur is not `in` the text. */
  lemma NotContained(s: string, pat: string)
    requires pat != [] && pat[0] !in s
    ensures !Contains(s, pat)
  {
    ContainsAt(s, pat);
    forall i
      ensures !OccursAt(s, pat, i)
    {
      if 0 <= i <= |s| - |pat| {
        assert s[i..i + |pat|][0] == s[i];
      }
    }
  }

  /** Removing a pattern that does not occur, before an occurrence-free tail, changes nothing. */
  lemma RemoveAbsent(a: string, pat: string)
    requires pat != [] && pat[0] !in a
    ensures RemoveAll(a, pat) == a
  {
    RemoveAllPrefix(a, [], pat);
    assert a + [] == a;
  }

  /** The reading `w1 + number + w2 + unit + w3` upper-cases to the same shape with the unit upper-cased. */
  lemma ReadingUpper(w1: string, d: Decimal, w2: string, u: string, w3: string)
    requires AllSpace(w1) && AllSpace(w2) && AllSpace(w3) && IsLiteral(d)
    ensures Upper(w1 + Format(d) + w2 + u + w3) == w1 + Format(d) + w2 + Upper(u) + w3
  {
    var f := Format(d);
    UpperAppend(w1 + f + w2 + u, w3);
    UpperAppend(w1 + f + w2, u);
    UpperAppend(w1 + f, w2);
    UpperAppend(w1, f);
    SpacesUpper(w1);
    SpacesUpper(w2);
    SpacesUpper(w3);
    FormatUpper(d);
  }

  lemma BareUpper(w1: string, d: Decimal, w2: string)
    requires AllSpace(w1) && AllSpace(w2) && IsLiteral(d)
    ensures Upper(w1 + Format(d) + w2) == w1 + Format(d) + w2
  {
    var f := Format(d);
    SpacesUpper(w1);
    SpacesUpper(w2);
    FormatUpper(d);
    UpperAppend(w1 + f, w2);
    UpperAppend(w1, f);
  }

  lemma BareTrim(w1: string, d: Decimal, w2: string)
    requires AllSpace(w1) && AllSpace(w2) && IsLiteral(d)
    ensures Trim(w1 + Format(d) + w2) == Format(d)
  {
    FormatEnds(d);
    TrimSurrounded(w1, Format(d), w2);
  }

  lemma LiteralUnitFree(d: Decimal)
    requires IsLiteral(d)
    ensures RemoveAll(RemoveAll(Format(d), "MIB"), "W") == Format(d)
  {
    FormatChars(d);
    RemoveAbsent(Format(d), "MIB");
    RemoveAbsent(Format(d), "W");
  }

  /** A bare number with whitespace around it. */
  lemma BareReadingText(w1: string, d: Decimal, w2: string)
    requires AllSpace(w1) && AllSpace(w2) && IsLiteral(d)
    ensures ParseFloat(NumericText(w1 + Format(d) + w2)) == Some(d)
  {
    BareUpper(w1, d, w2);
    BareTrim(w1, d, w2);
    LiteralUnitFree(d);
    ParseFormat(d);
  }

  /** What `upper().strip()` leaves of a number followed by spaces and a unit. */
  lemma UnitReadingTrim(w1: string, d: Decimal, w2: string, u: string, w3: string)
    requires AllSpace(w1) && AllSpace(w2) && AllSpace(w3) && IsLiteral(d)
    requires Upper(u) == "MIB" || Upper(u) == "W"
    ensures Trim(Upper(w1 + Format(d) + w2 + u + w3)) == Format(d) + w2 + Upper(u)
  {
    UnitChars(u);
    ReadingUpper(w1, d, w2, u, w3);
    UpperReadingTrim(w1, d, w2, Upper(u), w3);
  }

  /** `strip()` of an upper-cased reading keeps the number, the spaces after it and the unit. */
  lemma UpperReadingTrim(w1: string, d: Decimal, w2: string, up: string, w3: string)
    requires AllSpace(w1) && AllSpace(w2) && AllSpace(w3) && IsLiteral(d)
    requires up != [] && !IsSpace(up[|up| - 1])
    ensures Trim(w1 + Format(d) + w2 + up + w3) == Format(d) + w2 + up
  {
    UnitReadingEnds(d, w2, up);
    TrimAround(w1, Format(d) + w2 + up, w3, w1 + Format(d) + w2 + up + w3);
  }

  /** A number, spaces and a non-empty unit ending in a letter begin and end with non-space characters. */
  lemma UnitReadingEnds(d: Decimal, w2: string, up: string)
    requires IsLiteral(d) && up != [] && !IsSpace(up[|up| - 1])
    ensures var t := Format(d) + w2 + up; !IsSpace(t[0]) && !IsSpace(t[|t| - 1])
  {
    var f := Format(d);
    FormatEnds(d);
    assert (f + w2 + up)[0] == f[0];
    assert (f + w2 + up)[|f + w2 + up| - 1] == up[|up| - 1];
  }

  /** `strip()` of a text with non-space ends between whitespace, however the text is grouped. */
  lemma TrimAround(w1: string, x: string, w3: string, t: string)
    requires AllSpace(w1) && AllSpace(w3) && x != [] && !IsSpace(x[0]) && !IsSpace(x[|x| - 1])
    requires t == w1 + x + w3
    ensures Trim(t) == x
  {
    TrimSurrounded(w1, x, w3);
  }

  /** Removing every `MIB` and then every `W` from a number, spaces and a unit leaves the number and spaces. */
  lemma UnitRemoved(d: Decimal, w2: string, up: string)
    requires AllSpace(w2) && IsLiteral(d)
    requires up == "MIB" || up == "W"
    ensures RemoveAll(RemoveAll(Format(d) + w2 + up, "MIB"), "W") == Format(d) + w2
  {
    var body := Format(d) + w2;
    FormatChars(d);
    assert 'M' !in body && 'W' !in body;
    RemoveAllPrefix(body, up, "MIB");
    var rest := RemoveAll(up, "MIB");
    assert rest == [] || rest == "W";
    RemoveAllPrefix(body, rest, "W");
    assert RemoveAll(rest, "W") == [];
    assert body + [] == body;
  }

  /**
    A number followed by spaces and a unit. The spaces between number and unit
    outlive `strip()` and the unit removal, so they must be whitespace float() strips.
  */
  lemma UnitReadingText(w1: string, d: Decimal, w2: string, u: string, w3: string)
    requires AllSpace(w1) && AllFloatSpace(w2) && AllSpace(w3) && IsLiteral(d)
    requires Upper(u) == "MIB" || Upper(u) == "W"
    ensures ParseFloat(NumericText(w1 + Format(d) + w2 + u + w3)) == Some(d)
  {
    UnitReadingUnitFree(w1, d, w2, u, w3);
    TrailingSpaces(d, w2);
  }

  /** A number followed by float() whitespace reads as the number. */
  lemma TrailingSpaces(d: Decimal, w2: string)
    requires AllFloatSpace(w2) && IsLiteral(d)
    ensures ParseFloat(Format(d) + w2) == Some(d)
  {
    FormatTrailing(d, w2);
    ParseLiteralFormat(d);
  }

  lemma FormatTrailing(d: Decimal, w2: string)
    requires AllFloatSpace(w2) && IsLiteral(d)
    ensures FloatStrip(Format(d) + w2) == Format(d)
  {
    FormatEnds(d);
    FloatStripAfter(Format(d), w2);
  }

  lemma FloatStripAfter(x: string, w2: string)
    requires AllFloatSpace(w2) && x != [] && !IsSpace(x[0]) && !IsSpace(x[|x| - 1])
    ensures FloatStrip(x + w2) == x
  {
    FloatStripSurrounded([], x, w2);
    assert [] + x + w2 == x + w2;
  }

  /**
    `to_numberic` on a reading: the number, whatever whitespace surrounds it and
    the unit, and whether the unit is `MiB` or `W` in any letter case or absent,
    is read back exactly. Only the whitespace between number and unit is narrower:
    it is left for float(), which does not strip U+001C to U+001F.
  */
  lemma ReadingText(w1: string, d: Decimal, w2: string, u: string, w3: string)
    requires AllSpace(w1) && AllSpace(w2) && AllSpace(w3) && IsLiteral(d)
    requires u != [] ==> AllFloatSpace(w2)
    requires Upper(u) == "MIB" || Upper(u) == "W" || u == []
    ensures ParseFloat(NumericText(w1 + Format(d) + w2 + u + w3)) == Some(d)
  {
    if u == [] {
      assert w1 + Format(d) + w2 + u + w3 == w1 + Format(d) + (w2 + w3);
      BareReadingText(w1, d, w2 + w3);
    } else {
      UnitReadingText(w1, d, w2, u, w3);
    }
  }

  /**
    A numeric field whose piece is such a reading holds the reading's integer
    digits, with its sign: `int()` drops the fraction.
  */
  lemma ReadingValue(k: string, w1: string, d: Decimal, w2: string, u: string, w3: string)
    requires k in NumericFields
    requires AllSpace(w1) && AllSpace(w2) && AllSpace(w3) && IsLiteral(d)
    requires u != [] ==> AllFloatSpace(w2)
    requires Upper(u) == "MIB" || Upper(u) == "W" || u == []
    ensures ProcessField(k, w1 + Format(d) + w2 + u + w3) ==
            Ok(Num(IntegerPart(d)))
  {
    ReadingSupported(w1, d, w2, u, w3);
    ReadingText(w1, d, w2, u, w3);
    TruncateLiteral(d);
  }

  /** A free-memory piece ` 4035 MiB` is read as 4035. */
  lemma MemoryReadingExample()
    ensures ProcessField(MemoryFree, " 4035 MiB") == Ok(Num(4035))
  {
    var d := Decimal(false, "4035", "");
    assert " 4035 MiB" == " " + Format(d) + " " + "MiB" + "";
    assert Upper("MiB") == "MIB";
    ReadingValue(MemoryFree, " ", d, " ", "MiB", "");
    WholeValue4035();
  }

  lemma WholeValue4035()
    ensures WholeValue("4035") == 4035
  {
    assert "4035"[..3] == "403" && "403"[..2] == "40" && "40"[..1] == "4" && "4"[..0] == "";
  }

  /** A power piece `45.23 W` is read as 45. */
  lemma PowerReadingExample()
    ensures ProcessField(PowerDraw, "45.23 W") == Ok(Num(45))
  {
    var d := Decimal(false, "45", "23");
    assert "45.23 W" == "" + Format(d) + " " + "W" + "";
    assert Upper("W") == "W";
    ReadingValue(PowerDraw, "", d, " ", "W", "");
    assert WholeValue("45") == 45 by {
      assert "45"[..1] == "4" && "4"[..0] == "";
    }
  }

  /**
    A separator control (U+001C to U+001F) between a reading and its unit is
    whitespace to `strip()` but not to float(): it survives the unit removal and
    float() raises ValueError.
  */
  lemma SeparatorBeforeUnitRaises(k: string, w1: string, d: Decimal, w2: string, u: string, w3: string, i: int)
    requires k in NumericFields
    requires AllSpace(w1) && AllSpace(w2) && AllSpace(w3) && IsLiteral(d)
    requires Upper(u) == "MIB" || Upper(u) == "W"
    requires 0 <= i < |w2| && !FloatSpace(w2[i])
    ensures ProcessField(k, w1 + Format(d) + w2 + u + w3) == Err(MalformedNumber(k))
  {
    var v := w1 + Format(d) + w2 + u + w3;
    ReadingSupported(w1, d, w2, u, w3);
    UnitReadingUnitFree(w1, d, w2, u, w3);
    assert 28 <= w2[i] as int <= 31;
    SeparatedRaises(k, v, Format(d), w2, i);
  }

  lemma SeparatedRaises(k: string, v: string, x: string, w2: string, i: int)
    requires k in NumericFields && !Contains(v, NotSupported)
    requires NumericText(v) == x + w2
    requires 0 <= i < |w2| && 28 <= w2[i] as int <= 31
    ensures ProcessField(k, v) == Err(MalformedNumber(k))
  {
    SeparatorParse(x, w2, i);
  }

  /** float() refuses a text holding a separator control. */
  lemma SeparatorParse(x: string, w2: string, i: int)
    requires 0 <= i < |w2| && 28 <= w2[i] as int <= 31
    ensures ParseFloat(x + w2).None?
  {
    assert (x + w2)[|x| + i] == w2[i];
    OtherCharRefused(x + w2, |x| + i);
  }

  /** Without its unit, a number, spaces and a unit are the number and the spaces between. */
  lemma UnitReadingUnitFree(w1: string, d: Decimal, w2: string, u: string, w3: string)
    requires AllSpace(w1) && AllSpace(w2) && AllSpace(w3) && IsLiteral(d)
    requires Upper(u) == "MIB" || Upper(u) == "W"
    ensures NumericText(w1 + Format(d) + w2 + u + w3) == Format(d) + w2
  {
    UnitReadingTrim(w1, d, w2, u, w3);
    UnitRemoved(d, w2, Upper(u));
  }

  /** A reading never mentions `Not Support`: it has no `N`. */
  lemma ReadingSupported(w1: string, d: Decimal, w2: string, u: string, w3: string)
    requires AllSpace(w1) && AllSpace(w2) && AllSpace(w3) && IsLiteral(d)
    requires Upper(u) == "MIB" || Upper(u) == "W" || u == []
    ensures !Contains(w1 + Format(d) + w2 + u + w3, NotSupported)
  {
    FormatChars(d);
    assert 'N' !in w1 && 'N' !in w2 && 'N' !in w3 && 'N' !in Format(d);
    if u != [] {
      UnitChars(u);
    }
    NotContained(w1 + Format(d) + w2 + u + w3, NotSupported);
  }

  /** `45` and a unit separator before `W`: the power reading raises. */
  lemma SeparatorBeforeUnitExample(v: string)
    requires v == "45\U{1F}W"
    ensures ProcessField(PowerDraw, v) == Err(MalformedNumber(PowerDraw))
  {
    var d := Decimal(false, "45", "");
    assert v == "" + Format(d) + "\U{1F}" + "W" + "";
    assert Upper("W") == "W";
    SeparatorBeforeUnitRaises(PowerDraw, "", d, "\U{1F}", "W", "", 0);
  }

  /** A numeric piece mentioning `Not Support`, such as `[Not Supported]`, holds the sentinel 1. */
  lemma UnsupportedReading(k: string, v: string, i: int)
    requires k in NumericFields
    requires OccursAt(v, NotSupported, i)
    ensures ProcessField(k, v) == Ok(Num(Sentinel))
  {
    ContainsAt(v, NotSupported);
  }

  /**
    nvidia-smi prints `[N/A]` for some readings it cannot take. That piece does not
    say `Not Support`, so float() is tried on it and raises ValueError.
  */
  lemma NotAvailableExample(v: string)
    requires v == " [N/A]"
    ensures ProcessField(PowerDraw, v) == Err(MalformedNumber(PowerDraw))
  {
    assert v == " " + "[N/A]" + "";
    OtherPieceRaises(PowerDraw, " ", "[N/A]", "", 0);
  }

  /**
    A numeric piece too short to say `Not Support`, made of spaces around a text
    with a character no literal is written with, raises ValueError.
  */
  lemma OtherPieceRaises(k: string, w1: string, t: string, w2: string, i: int)
    requires k in NumericFields
    requires |w1 + t + w2| < |NotSupported|
    requires AllSpace(w1) && AllSpace(w2)
    requires t != [] && !IsSpace(t[0]) && !IsSpace(t[|t| - 1]) && PlainText(t)
    requires 0 <= i < |t| && !NumberChar(t[i])
    ensures ProcessField(k, w1 + t + w2) == Err(MalformedNumber(k))
  {
    var v := w1 + t + w2;
    ContainsAt(v, NotSupported);
    UnitFreeText(w1, t, w2);
    FloatStripBare(t);
    StrippedCharRefused(NumericText(v), i);
  }

  /** A text with no lower-case letter, no `M` and no `W`: upper-casing and removing the units leave it alone. */
  predicate PlainText(t: string) {
    forall j :: 0 <= j < |t| ==> !('a' <= t[j] <= 'z') && t[j] != 'M' && t[j] != 'W'
  }

  lemma PlainUpper(w1: string, t: string, w2: string)
    requires AllSpace(w1) && AllSpace(w2) && PlainText(t)
    ensures Upper(w1 + t + w2) == w1 + t + w2
  {
    SpacesUpper(w1);
    SpacesUpper(w2);
    UpperUnchanged(t);
    UpperAppend(w1 + t, w2);
    UpperAppend(w1, t);
  }

  lemma PlainUnitFree(t: string)
    requires PlainText(t)
    ensures RemoveAll(RemoveAll(t, "MIB"), "W") == t
  {
    assert 'M' !in t && 'W' !in t;
    RemoveAbsent(t, "MIB");
    RemoveAbsent(t, "W");
  }

  /** Spaces around a plain text with non-space ends: the unit-free text is that text. */
  lemma UnitFreeText(w1: string, t: string, w2: string)
    requires AllSpace(w1) && AllSpace(w2) && PlainText(t)
    requires t != [] && !IsSpace(t[0]) && !IsSpace(t[|t| - 1])
    ensures NumericText(w1 + t + w2) == t
  {
    var v := w1 + t + w2;
    PlainUpper(w1, t, w2);
    TrimAround(w1, t, w2, v);
    PlainUnitFree(t);
  }

  lemma UnsupportedReadingExample()
    ensures ProcessField(PowerLimit, " [Not Supported]") == Ok(Num(1))
  {
    UnsupportedReading(PowerLimit, " [Not Supported]", 2);
  }
}
