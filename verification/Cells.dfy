// Typing the cells of delimited text and writing them back: which cells are
// stable, which come back verbatim, and which keep their value.
module Cells {
  import opened Results
  import opened Text
  import opened Decimals
  import opened Values
  import opened Serialization
  import opened Engine

  predicate HasLeadingZeroNumeric(cell: string) {
    |cell| >= 2 && cell[0] == '0' && IsDigit(cell[1])
  }

  function ConservativeCell(cell: string): Value {
    if HasLeadingZeroNumeric(cell) then String(cell)
    else match ParseInt64(cell)
      case Some(v) => Int(v)
      case None =>
        if Has(cell, '.') && ParseDecimal(cell).Some? then Decimal(ParseDecimal(cell).value) else String(cell)
  }

  function CellText(lib: Lib, value: Value): Result<string> {
    match value
    case Null => Ok("")
    case String(text) => Ok(text)
    case Bool(flag) => Ok(if flag then "true" else "false")
    case Int(v) => Ok(IntText(v))
    case UInt(v) => Ok(IntText(v))
    case FloatValue(f) => Ok(lib.floatText(f))
    case Decimal(d) => Ok(RenderDecimal(d))
    case Array(_) => TransformError("csv_nested")
    case Object(_) => TransformError("csv_nested")
    case _ => Ok(JsonText(lib, value))
  }

  // ---------------------------------------------------------------------
  // Stability.
  // ---------------------------------------------------------------------

  // A numeral that ends in its point.
  predicate TrailingPoint(cell: string) {
    && !HasLeadingZeroNumeric(cell)
    && cell != "" && cell[|cell| - 1] == '.'
    && AllDigits(Magnitude(cell[..|cell| - 1]))
  }

  ghost predicate Stable(lib: Lib, cell: string) {
    var value := ConservativeCell(cell);
    CellText(lib, value).Ok? && ConservativeCell(CellText(lib, value).value) == value
  }

  lemma IntTextParses(v: Int64)
    ensures ParseInt64(IntText(v)) == Some(v) && !HasLeadingZeroNumeric(IntText(v))
  {
    var n: nat := if v < 0 then 0 - v else v;
    NatTextValue(n);
    var digits := NatText(n);
    assert v < 0 ==> ("-" + digits)[1..] == digits;
  }

  lemma PointIsNoInteger(cell: string)
    requires Has(cell, '.')
    ensures ParseInt64(cell).None?
  {
    var i :| 0 <= i < |cell| && cell[i] == '.';
    var signed := StartsWith(cell, '-') || StartsWith(cell, '+');
    var digits := if signed then cell[1..] else cell;
    assert signed ==> i > 0 && digits[i - 1] == '.';
    assert !signed ==> digits[i] == '.';
  }

  // Where the point of a read numeral stands.
  lemma NumeralPoint(cell: string, n: Numeral)
    requires n.Valid() && n.Text() == cell
    ensures n.point <==> Has(cell, '.')
    ensures n.point && n.fraction == "" <==>
            cell != "" && cell[|cell| - 1] == '.' && AllDigits(Magnitude(cell[..|cell| - 1]))
  {
    var signed := SignText(n.negative) + n.whole;
    if n.point {
      assert cell == signed + "." + n.fraction;
      assert cell[|signed|] == '.';
      if n.fraction == "" {
        assert cell[..|cell| - 1] == signed;
        assert n.negative ==> signed[1..] == n.whole;
        assert Magnitude(signed) == n.whole;
      } else {
        assert cell[|cell| - 1] == n.fraction[|n.fraction| - 1];
      }
    } else {
      assert cell == signed;
      assert forall i :: 0 <= i < |cell| ==> cell[i] == '-' || IsDigit(cell[i]);
    }
  }

  lemma ShownIsDecimal(n: Numeral)
    requires n.Valid() && |n.fraction| <= 127 && n.fraction != ""
    ensures ParseDecimal(n.Text()).Some?
    ensures ConservativeCell(RenderDecimal(ParseDecimal(n.Text()).value)) == Decimal(ParseDecimal(n.Text()).value)
  {
    ParsedShown(n);
    ParsedRoundTrip(n);
    var shown := ShownNumeral(n);
    var text := shown.Text();
    NumeralPoint(text, shown);
    PointIsNoInteger(text);
    assert !HasLeadingZeroNumeric(text) by {
      if !shown.negative {
        assert text == shown.whole + ("." + shown.fraction);
        assert |shown.whole| == 1 ==> text[1] == '.';
      } else {
        assert text[0] == '-';
      }
    }
  }

  lemma ShownIsWhole(n: Numeral)
    requires n.Valid() && n.fraction == ""
    ensures ParseDecimal(n.Text()).Some? && !ConservativeCell(RenderDecimal(ParseDecimal(n.Text()).value)).Decimal?
  {
    ParsedShown(n);
    NumeralPoint(ShownNumeral(n).Text(), ShownNumeral(n));
  }

  // The numeral behind a cell typed Decimal.
  lemma DecimalCell(cell: string) returns (n: Numeral)
    requires ConservativeCell(cell).Decimal?
    ensures n.Valid() && n.Text() == cell && n.point && |n.fraction| <= 127
    ensures ParseDecimal(n.Text()) == Some(ConservativeCell(cell).decimal) && !HasLeadingZeroNumeric(cell)
  {
    ParseAccepts(cell);
    n :| n.Valid() && n.Text() == cell && |n.fraction| <= 127;
    NumeralPoint(cell, n);
  }

  // The numeral behind a trailing point.
  lemma TrailingNumeral(cell: string) returns (n: Numeral)
    requires cell != "" && cell[|cell| - 1] == '.' && AllDigits(Magnitude(cell[..|cell| - 1]))
    ensures n.Valid() && n.Text() == cell && n.point && n.fraction == ""
  {
    var signed := cell[..|cell| - 1];
    n := Numeral(StartsWith(signed, '-'), Magnitude(signed), true, "");
    assert cell == signed + ".";
    assert signed == SignText(n.negative) + n.whole;
    assert n.Body() == n.whole + ".";
  }

  lemma TrailingPointIsDecimal(cell: string)
    requires TrailingPoint(cell)
    ensures ConservativeCell(cell).Decimal?
  {
    var n := TrailingNumeral(cell);
    ParseOfNumeral(n);
    assert Has(cell, '.') by { assert cell[|cell| - 1] == '.'; }
    PointIsNoInteger(cell);
  }

  lemma StableInteger(lib: Lib, cell: string)
    requires ConservativeCell(cell).Int?
    ensures Stable(lib, cell)
  {
    IntTextParses(ConservativeCell(cell).int64);
  }

  lemma StableReading(lib: Lib, cell: string, value: Value, text: string)
    requires ConservativeCell(cell) == value && CellText(lib, value) == Ok(text)
    ensures Stable(lib, cell) <==> ConservativeCell(text) == value
  {
  }

  lemma NumeralStable(n: Numeral, d: DecimalValue)
    requires n.Valid() && |n.fraction| <= 127 && ParseDecimal(n.Text()) == Some(d)
    ensures ConservativeCell(RenderDecimal(d)) == Decimal(d) <==> n.fraction != ""
  {
    if n.fraction == "" { ShownIsWhole(n); } else { ShownIsDecimal(n); }
  }

  lemma StableDecimal(lib: Lib, cell: string)
    requires ConservativeCell(cell).Decimal?
    ensures Stable(lib, cell) <==> !TrailingPoint(cell)
  {
    var d := ConservativeCell(cell).decimal;
    var n := DecimalCell(cell);
    DecimalStable(lib, cell, n, d);
  }

  lemma DecimalStable(lib: Lib, cell: string, n: Numeral, d: DecimalValue)
    requires ConservativeCell(cell) == Decimal(d) && !HasLeadingZeroNumeric(cell)
    requires n.Valid() && n.Text() == cell && n.point && |n.fraction| <= 127 && ParseDecimal(cell) == Some(d)
    ensures Stable(lib, cell) <==> !TrailingPoint(cell)
  {
    StableReading(lib, cell, Decimal(d), RenderDecimal(d));
    NumeralStable(n, d);
    TrailingMeans(cell, n);
  }

  lemma TrailingMeans(cell: string, n: Numeral)
    requires n.Valid() && n.Text() == cell && n.point && !HasLeadingZeroNumeric(cell)
    ensures TrailingPoint(cell) <==> n.fraction == ""
  {
    NumeralPoint(cell, n);
  }

  // Decoding, writing and decoding again gives the same value for every cell
  // but the numerals that end in their point.
  lemma CellStable(lib: Lib, cell: string)
    ensures Stable(lib, cell) <==> !TrailingPoint(cell)
  {
    if TrailingPoint(cell) {
      TrailingPointIsDecimal(cell);
    }
    if ConservativeCell(cell).Decimal? {
      StableDecimal(lib, cell);
    } else if ConservativeCell(cell).Int? {
      StableInteger(lib, cell);
    }
  }

  // Codes with a leading zero come back verbatim.
  lemma LeadingZeroVerbatim(lib: Lib, cell: string)
    requires HasLeadingZeroNumeric(cell)
    ensures CellText(lib, ConservativeCell(cell)) == Ok(cell) && Stable(lib, cell)
  {
    CellStable(lib, cell);
  }

  // ---------------------------------------------------------------------
  // Numeric value.
  // ---------------------------------------------------------------------

  // The cell is a numeral, or a plus sign and a numeral, of this value.
  ghost predicate Spells(cell: string, value: real) {
    exists n: Numeral :: n.Valid() && (n.Text() == cell || "+" + n.Text() == cell) && n.Meaning() == value
  }

  lemma WholeMeaning(negative: bool, digits: string)
    requires digits != "" && AllDigits(digits)
    ensures var n := Numeral(negative, digits, false, "");
            n.Valid() && n.Text() == SignText(negative) + digits && n.Meaning() == Signed(negative, DigitsValue(digits) as real)
  {
    assert digits + "" == digits;
    assert Shrink(DigitsValue("") as real, 0) == 0.0;
  }

  lemma IntegerSpelled(cell: string)
    requires ParseInt64(cell).Some?
    ensures var v: int := ParseInt64(cell).value; Spells(cell, v as real)
  {
    var negative := StartsWith(cell, '-');
    var signed := negative || StartsWith(cell, '+');
    var digits := if signed then cell[1..] else cell;
    var n := Numeral(negative, digits, false, "");
    WholeMeaning(negative, digits);
    assert signed ==> cell == [cell[0]] + digits;
    assert n.Text() == cell || "+" + n.Text() == cell;
  }

  lemma PointBefore(n: Numeral)
    requires n.Valid() && n.point
    ensures var cell := n.Text(); |n.fraction| < |cell| && cell[|cell| - 1 - |n.fraction|] == '.'
  {
    var signed, cell := SignText(n.negative) + n.whole, n.Text();
    assert cell == signed + "." + n.fraction;
    assert cell[|signed|] == '.';
  }

  lemma SpellsItself(n: Numeral)
    requires n.Valid()
    ensures Spells(n.Text(), n.Meaning())
  {
  }

  lemma NumeralSpelled(n: Numeral, d: DecimalValue)
    requires n.Valid() && n.point && |n.fraction| <= 127 && ParseDecimal(n.Text()) == Some(d)
    ensures WellFormedCoefficient(d.coefficient) && Spells(n.Text(), DecimalMeaning(d))
    ensures var cell := n.Text(); 0 <= d.scale < |cell| && cell[|cell| - 1 - d.scale] == '.'
  {
    ParseKeepsValue(n);
    SpellsItself(n);
    PointBefore(n);
  }

  lemma DecimalSpelled(cell: string)
    requires ConservativeCell(cell).Decimal?
    ensures var d := ConservativeCell(cell).decimal;
            && WellFormedCoefficient(d.coefficient) && Spells(cell, DecimalMeaning(d))
            && 0 <= d.scale < |cell| && cell[|cell| - 1 - d.scale] == '.'
  {
    var n := DecimalCell(cell);
    NumeralSpelled(n, ConservativeCell(cell).decimal);
  }

  // A cell typed Int or Decimal keeps its numeric value, and a Decimal keeps
  // the number of digits written after the point.
  lemma TypedCellsKeepValue(cell: string)
    ensures match ConservativeCell(cell)
            case Int(v) => Spells(cell, (v as int) as real)
            case Decimal(d) =>
              && WellFormedCoefficient(d.coefficient) && Spells(cell, DecimalMeaning(d))
              && 0 <= d.scale < |cell| && cell[|cell| - 1 - d.scale] == '.'
            case String(text) => text == cell
            case _ => false
  {
    if ConservativeCell(cell).Decimal? {
      DecimalSpelled(cell);
    } else if ConservativeCell(cell).Int? {
      IntegerSpelled(cell);
    }
  }
}
