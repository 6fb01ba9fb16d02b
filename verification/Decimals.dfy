// Decimal text, a signed digit string and a scale, and fidelity.
module Decimals {
  import opened Results
  import opened Text

  type Int8 = n: int | -128 <= n <= 127

  datatype DecimalValue = DecimalValue(coefficient: string, scale: Int8)

  function SignText(negative: bool): string {
    if negative then "-" else ""
  }

  // ---------------------------------------------------------------------
  // Grammar and meaning of decimal numerals, independent of the parser.
  // ---------------------------------------------------------------------

  // [-] whole [. fraction], with at least a digit or a point.
  datatype Numeral = Numeral(negative: bool, whole: string, point: bool, fraction: string) {
    predicate Valid() {
      && AllDigits(whole) && AllDigits(fraction)
      && (!point ==> fraction == "" && whole != "")
    }

    function Body(): string {
      whole + (if point then "." + fraction else "")
    }

    function Text(): string {
      SignText(negative) + Body()
    }

    ghost function Meaning(): real
      requires Valid()
    {
      Signed(negative, DigitsValue(whole) as real + Shrink(DigitsValue(fraction) as real, |fraction|))
    }
  }

  // r divided by ten k times.
  ghost function Shrink(r: real, k: nat): real {
    if k == 0 then r else Shrink(r, k - 1) / 10.0
  }

  // r multiplied by ten k times.
  ghost function Grow(r: real, k: nat): real {
    if k == 0 then r else Grow(r, k - 1) * 10.0
  }

  ghost function Signed(negative: bool, r: real): real {
    if negative then -r else r
  }

  function Magnitude(c: string): string {
    if StartsWith(c, '-') then c[1..] else c
  }

  ghost predicate WellFormedCoefficient(c: string) {
    Magnitude(c) != "" && AllDigits(Magnitude(c))
  }

  ghost function CoefficientMeaning(c: string): real
    requires WellFormedCoefficient(c)
  {
    Signed(StartsWith(c, '-'), DigitsValue(Magnitude(c)) as real)
  }

  // coefficient times ten to the minus scale.
  ghost function DecimalMeaning(d: DecimalValue): real
    requires WellFormedCoefficient(d.coefficient)
  {
    var scale: int := d.scale;
    if scale >= 0 then Shrink(CoefficientMeaning(d.coefficient), scale)
    else Grow(CoefficientMeaning(d.coefficient), 0 - scale)
  }

  // ---------------------------------------------------------------------
  // The parser and the printer.
  // ---------------------------------------------------------------------

  predicate DigitsAndPoints(s: string) {
    forall i :: 0 <= i < |s| ==> IsDigit(s[i]) || s[i] == '.'
  }

  function SplitParts(body: string): (string, string) {
    match IndexOf(body, '.')
    case None => (body, "")
    case Some(k) => (if k == 0 then "0" else body[..k], body[k + 1..])
  }

  predicate TwoPoints(body: string) {
    match IndexOf(body, '.')
    case None => false
    case Some(k) => Has(body[k + 1..], '.')
  }

  function HeadDigits(whole: string): string {
    if TrimZeros(whole) == "" then "0" else TrimZeros(whole)
  }

  function Coefficient(negative: bool, whole: string, fraction: string): string {
    var head := HeadDigits(whole);
    if negative && head == "0" && fraction == "" then "0" else SignText(negative) + head + fraction
  }

  function ParseDecimal(raw: string): Option<DecimalValue> {
    var negative := StartsWith(raw, '-');
    var body := if negative then raw[1..] else raw;
    if body == "" || !DigitsAndPoints(body) || TwoPoints(body) then None else
      var (whole, fraction) := SplitParts(body);
      if |fraction| > 127 then None
      else Some(DecimalValue(Coefficient(negative, whole, fraction), |fraction|))
  }

  function TrimMinus(s: string): string {
    if StartsWith(s, '-') then TrimMinus(s[1..]) else s
  }

  function PadLeft(s: string, width: nat): (t: string)
    ensures |t| == if |s| < width then width else |s|
  {
    if |s| < width then Repeat('0', width - |s|) + s else s
  }

  function RenderDecimal(d: DecimalValue): string {
    var negative := StartsWith(d.coefficient, '-');
    var digits := TrimMinus(d.coefficient);
    var scale := if d.scale > 0 then d.scale else 0;
    if scale == 0 then SignText(negative) + digits else
      var padded := if |digits| <= scale then PadLeft(digits, scale + 1) else digits;
      var splitAt := |padded| - scale;
      SignText(negative) + (padded[..splitAt] + "." + padded[splitAt..])
  }

  // The coefficient is built and rewritten step by step.
  method ParseDecimalText(raw: string) returns (r: Option<DecimalValue>)
    ensures r == ParseDecimal(raw)
  {
    if raw == "" {
      return None;
    }
    var negative := StartsWith(raw, '-');
    var body := if negative then raw[1..] else raw;
    if body == "" || !DigitsAndPoints(body) {
      return None;
    }
    if TwoPoints(body) {
      return None;
    }
    var (whole, fraction) := SplitParts(body);
    if |fraction| > 127 {
      return None;
    }
    BuiltCoefficient(negative, body);
    var coefficient := "";
    if negative {
      coefficient := "-";
    }
    coefficient := coefficient + TrimZeros(whole);
    if coefficient == "-" || coefficient == "" {
      coefficient := if negative then "-0" else "0";
    }
    coefficient := coefficient + fraction;
    if coefficient == "-" || (coefficient == "-0" && fraction == "") {
      coefficient := "0";
    }
    return Some(DecimalValue(coefficient, |fraction|));
  }

  lemma {:induction false} TrimZerosHead(s: string)
    ensures TrimZeros(s) != "" ==> TrimZeros(s)[0] != '0'
  {
    if s != "" && s[0] == '0' {
      TrimZerosHead(s[1..]);
    }
  }

  lemma SplitWholeDigits(body: string)
    requires DigitsAndPoints(body) && !TwoPoints(body)
    ensures AllDigits(SplitParts(body).0) && AllDigits(SplitParts(body).1)
  {
    match IndexOf(body, '.')
    case None =>
      forall i | 0 <= i < |body| ensures IsDigit(body[i]) { assert body[i] != '.'; }
    case Some(k) =>
      var tail := body[k + 1..];
      forall i | 0 <= i < |tail| ensures IsDigit(tail[i]) {
        assert tail[i] == body[k + 1 + i];
      }
  }

  // The coefficient after each of the parser's rewriting steps.
  function SteppedCoefficient(negative: bool, whole: string, fraction: string): string {
    var signed := SignText(negative) + TrimZeros(whole);
    var filled := if signed == "-" || signed == "" then (if negative then "-0" else "0") else signed;
    var full := filled + fraction;
    if full == "-" || (full == "-0" && fraction == "") then "0" else full
  }

  lemma BuiltCoefficient(negative: bool, body: string)
    requires DigitsAndPoints(body) && !TwoPoints(body)
    ensures var (whole, fraction) := SplitParts(body);
            SteppedCoefficient(negative, whole, fraction) == Coefficient(negative, whole, fraction)
  {
    SplitWholeDigits(body);
    var (whole, fraction) := SplitParts(body);
    TrimZerosValue(whole);
    CoefficientSteps(negative, whole, fraction);
  }

  lemma CoefficientSteps(negative: bool, whole: string, fraction: string)
    requires AllDigits(TrimZeros(whole))
    ensures SteppedCoefficient(negative, whole, fraction) == Coefficient(negative, whole, fraction)
  {
    TrimZerosHead(whole);
    if TrimZeros(whole) == "" {
      ZeroHeadSteps(negative, whole, fraction);
    } else {
      DigitHeadSteps(negative, whole, TrimZeros(whole), fraction);
    }
  }

  lemma ZeroHeadSteps(negative: bool, whole: string, fraction: string)
    requires TrimZeros(whole) == ""
    ensures SteppedCoefficient(negative, whole, fraction) == Coefficient(negative, whole, fraction)
  {
    assert SignText(negative) + "" == SignText(negative);
    if fraction == "" {
      assert "-0" + fraction == "-0";
    } else {
      assert |"-0" + fraction| > 2;
    }
  }

  lemma DigitHeadSteps(negative: bool, whole: string, t: string, fraction: string)
    requires t == TrimZeros(whole) && t != "" && AllDigits(t) && t[0] != '0'
    ensures SteppedCoefficient(negative, whole, fraction) == Coefficient(negative, whole, fraction)
  {
    var signed := SignText(negative) + t;
    var at := |SignText(negative)|;
    assert signed[at] == t[0] != '-';
    var full := signed + fraction;
    assert full[at] == t[0];
    assert |full| == at + |t| + |fraction|;
  }

  // ---------------------------------------------------------------------
  // Fidelity.
  // ---------------------------------------------------------------------

  lemma PointAt(whole: string, fraction: string)
    requires AllDigits(whole) && AllDigits(fraction)
    ensures IndexOf(whole + "." + fraction, '.') == Some(|whole|)
    ensures (whole + "." + fraction)[|whole| + 1..] == fraction
  {
    var s := whole + "." + fraction;
    assert s[|whole|] == '.';
    assert forall j :: 0 <= j < |whole| ==> s[j] == whole[j] != '.';
    assert Has(s, '.');
  }

  function NormalWhole(n: Numeral): string {
    if n.whole == "" then "0" else n.whole
  }

  // What the parser makes of each numeral of the grammar.
  lemma ParseOfNumeral(n: Numeral)
    requires n.Valid()
    ensures ParseDecimal(n.Text()) ==
            if |n.fraction| > 127 then None
            else Some(DecimalValue(Coefficient(n.negative, NormalWhole(n), n.fraction), |n.fraction|))
  {
    var raw, body := n.Text(), n.Body();
    BodyShape(n);
    assert body != "" && !StartsWith(body, '-');
    assert StartsWith(raw, '-') == n.negative;
    assert (if n.negative then raw[1..] else raw) == body;
    assert SplitParts(body) == (NormalWhole(n), n.fraction);
  }

  lemma BodyShape(n: Numeral)
    requires n.Valid()
    ensures n.Body() != "" && DigitsAndPoints(n.Body()) && !TwoPoints(n.Body()) && !StartsWith(n.Body(), '-')
    ensures SplitParts(n.Body()) == (NormalWhole(n), n.fraction)
  {
    var body := n.Body();
    if n.point {
      assert body == n.whole + "." + n.fraction;
      PointAt(n.whole, n.fraction);
      assert body[..|n.whole|] == n.whole;
      assert body[|n.whole|] == '.';
    } else {
      assert body == n.whole;
      assert !Has(body, '.');
    }
  }

  // The numeral a text spells, when it spells one.
  function ReadNumeral(raw: string): Option<Numeral> {
    var negative := StartsWith(raw, '-');
    var body := if negative then raw[1..] else raw;
    if body == "" || !DigitsAndPoints(body) || TwoPoints(body) then None else
      match IndexOf(body, '.')
      case None => Some(Numeral(negative, body, false, ""))
      case Some(k) => Some(Numeral(negative, body[..k], true, body[k + 1..]))
  }

  lemma ReadBody(body: string)
    requires DigitsAndPoints(body) && !TwoPoints(body) && IndexOf(body, '.').Some?
    ensures var k := IndexOf(body, '.').value;
            AllDigits(body[..k]) && AllDigits(body[k + 1..]) && body[..k] + ("." + body[k + 1..]) == body
  {
    var k := IndexOf(body, '.').value;
    var head, tail := body[..k], body[k + 1..];
    SplitWholeDigits(body);
    forall i | 0 <= i < k ensures IsDigit(head[i]) { assert head[i] == body[i] != '.'; }
    assert body[k] == '.' && body[k..] == "." + tail;
  }

  lemma ReadBodySpells(body: string, n: Numeral)
    requires DigitsAndPoints(body) && !TwoPoints(body) && body != ""
    requires n == match IndexOf(body, '.')
                  case None => Numeral(n.negative, body, false, "")
                  case Some(k) => Numeral(n.negative, body[..k], true, body[k + 1..])
    ensures n.Valid() && n.Body() == body
  {
    if IndexOf(body, '.').Some? {
      ReadBody(body);
    } else {
      SplitWholeDigits(body);
      assert body + "" == body;
    }
  }

  lemma ReadNumeralSpells(raw: string)
    requires ReadNumeral(raw).Some?
    ensures ReadNumeral(raw).value.Valid() && ReadNumeral(raw).value.Text() == raw
  {
    var negative := StartsWith(raw, '-');
    var body := if negative then raw[1..] else raw;
    ReadBodySpells(body, ReadNumeral(raw).value);
    assert SignText(negative) + body == raw;
  }

  // Accepted texts are exactly the numerals with at most 127 fraction digits.
  lemma ParseAccepts(raw: string)
    ensures ParseDecimal(raw).Some? <==>
            exists n: Numeral :: n.Valid() && n.Text() == raw && |n.fraction| <= 127
  {
    if ParseDecimal(raw).Some? {
      ReadNumeralSpells(raw);
      ParseOfNumeral(ReadNumeral(raw).value);
    }
    if exists n: Numeral :: n.Valid() && n.Text() == raw && |n.fraction| <= 127 {
      var n: Numeral :| n.Valid() && n.Text() == raw && |n.fraction| <= 127;
      ParseOfNumeral(n);
    }
  }

  lemma {:induction false} ShrinkAdd(a: real, b: real, k: nat)
    ensures Shrink(a + b, k) == Shrink(a, k) + Shrink(b, k)
  {
    if k > 0 { ShrinkAdd(a, b, k - 1); }
  }

  lemma {:induction false} ShrinkTen(a: real, k: nat)
    ensures Shrink(a * 10.0, k + 1) == Shrink(a, k)
  {
    if k > 0 { ShrinkTen(a, k - 1); }
  }

  lemma {:induction false} ShrinkSigned(negative: bool, a: real, k: nat)
    ensures Shrink(Signed(negative, a), k) == Signed(negative, Shrink(a, k))
    ensures a == 0.0 ==> Shrink(a, k) == 0.0
  {
    if k > 0 { ShrinkSigned(negative, a, k - 1); }
  }

  lemma {:induction false} GrowMoves(a: real, k: nat)
    requires k > 0
    ensures Grow(a, k) == a <==> a == 0.0
    ensures (a > 0.0 ==> Grow(a, k) > a) && (a < 0.0 ==> Grow(a, k) < a)
  {
    if k > 1 { GrowMoves(a, k - 1); } else { assert Grow(a, 0) == a; }
  }

  // Positional value: shifting the joined digits right by the fraction length.
  lemma {:induction false} JoinedDigits(whole: string, fraction: string)
    requires AllDigits(whole) && AllDigits(fraction)
    ensures AllDigits(whole + fraction)
    ensures Shrink(DigitsValue(whole + fraction) as real, |fraction|)
         == DigitsValue(whole) as real + Shrink(DigitsValue(fraction) as real, |fraction|)
  {
    if fraction == "" {
      assert whole + fraction == whole;
    } else {
      var n := |fraction|;
      var front, d := fraction[..n - 1], DigitValue(fraction[n - 1]) as real;
      JoinedDigits(whole, front);
      assert (whole + fraction)[..|whole + fraction| - 1] == whole + front;
      var all, part := DigitsValue(whole + front) as real, DigitsValue(front) as real;
      assert DigitsValue(whole + fraction) as real == all * 10.0 + d;
      assert DigitsValue(fraction) as real == part * 10.0 + d;
      ShrinkAdd(all * 10.0, d, n);
      ShrinkAdd(part * 10.0, d, n);
      ShrinkTen(all, n - 1);
      ShrinkTen(part, n - 1);
    }
  }

  lemma {:induction false} SameHead(a: string, b: string, fraction: string)
    requires AllDigits(a) && AllDigits(b) && AllDigits(fraction) && DigitsValue(a) == DigitsValue(b)
    ensures AllDigits(a + fraction) && AllDigits(b + fraction) && DigitsValue(a + fraction) == DigitsValue(b + fraction)
  {
    if fraction == "" {
      assert a + fraction == a && b + fraction == b;
    } else {
      var front := fraction[..|fraction| - 1];
      SameHead(a, b, front);
      assert (a + fraction)[..|a + fraction| - 1] == a + front;
      assert (b + fraction)[..|b + fraction| - 1] == b + front;
    }
  }

  lemma HeadValue(whole: string)
    requires AllDigits(whole)
    ensures var head := HeadDigits(whole);
            AllDigits(head) && head != "" && DigitsValue(head) == DigitsValue(whole)
  {
    TrimZerosValue(whole);
    assert "0"[..0] == "";
  }

  lemma CoefficientText(negative: bool, whole: string, fraction: string)
    requires AllDigits(HeadDigits(whole)) && HeadDigits(whole) != ""
    ensures var c := Coefficient(negative, whole, fraction);
            && Magnitude(c) == HeadDigits(whole) + fraction
            && (StartsWith(c, '-') == negative || Magnitude(c) == "0")
  {
    var head := HeadDigits(whole);
    var c := Coefficient(negative, whole, fraction);
    assert (head + fraction)[0] == head[0];
    if negative && head == "0" && fraction == "" {
      assert head + fraction == "0";
    } else {
      assert c == SignText(negative) + (head + fraction);
    }
  }

  lemma CoefficientValue(negative: bool, whole: string, fraction: string)
    requires AllDigits(whole) && AllDigits(fraction)
    ensures var c := Coefficient(negative, whole, fraction);
            && WellFormedCoefficient(c)
            && AllDigits(whole + fraction) && DigitsValue(Magnitude(c)) == DigitsValue(whole + fraction)
            && (StartsWith(c, '-') == negative || DigitsValue(Magnitude(c)) == 0)
  {
    HeadValue(whole);
    SameHead(whole, HeadDigits(whole), fraction);
    CoefficientText(negative, whole, fraction);
    assert DigitsValue("0") == 0 by { assert "0"[..0] == ""; }
  }

  // An accepted text denotes the same rational as the parsed decimal, and the
  // scale is the number of fraction digits written.
  lemma ParseKeepsValue(n: Numeral)
    requires n.Valid() && |n.fraction| <= 127
    ensures ParseDecimal(n.Text()).Some?
    ensures var d := ParseDecimal(n.Text()).value;
            WellFormedCoefficient(d.coefficient) && DecimalMeaning(d) == n.Meaning() && d.scale == |n.fraction|
  {
    ParseOfNumeral(n);
    var d := ParseDecimal(n.Text()).value;
    var whole := NormalWhole(n);
    assert AllDigits(whole) && DigitsValue(whole) == DigitsValue(n.whole) by { assert "0"[..0] == ""; }
    CoefficientValue(n.negative, whole, n.fraction);
    SameHead(whole, n.whole, n.fraction);
    MeaningsAgree(d, n);
  }

  lemma MeaningsAgree(d: DecimalValue, n: Numeral)
    requires n.Valid() && AllDigits(n.whole + n.fraction)
    requires WellFormedCoefficient(d.coefficient) && d.scale == |n.fraction|
    requires DigitsValue(Magnitude(d.coefficient)) == DigitsValue(n.whole + n.fraction)
    requires StartsWith(d.coefficient, '-') == n.negative || DigitsValue(Magnitude(d.coefficient)) == 0
    ensures DecimalMeaning(d) == n.Meaning()
  {
    JoinedDigits(n.whole, n.fraction);
    var total := DigitsValue(n.whole + n.fraction) as real;
    ShrinkSigned(n.negative, total, |n.fraction|);
    ShrinkSigned(StartsWith(d.coefficient, '-'), total, |n.fraction|);
  }

  function PaddedDigits(digits: string, scale: nat): string {
    if |digits| <= scale then PadLeft(digits, scale + 1) else digits
  }

  // Rendering written as a numeral of the grammar.
  function RenderedNumeral(d: DecimalValue): Numeral {
    var negative := StartsWith(d.coefficient, '-');
    var digits := TrimMinus(d.coefficient);
    if d.scale <= 0 then Numeral(negative, digits, false, "") else
      var padded := PaddedDigits(digits, d.scale);
      Numeral(negative, padded[..|padded| - d.scale], true, padded[|padded| - d.scale..])
  }

  lemma TrimMinusOnce(c: string)
    requires WellFormedCoefficient(c)
    ensures TrimMinus(c) == Magnitude(c)
  {
    assert !StartsWith(Magnitude(c), '-');
  }

  lemma RenderSpells(d: DecimalValue)
    requires WellFormedCoefficient(d.coefficient)
    ensures RenderedNumeral(d).Valid() && RenderDecimal(d) == RenderedNumeral(d).Text()
    ensures |RenderedNumeral(d).fraction| == if d.scale > 0 then d.scale else 0
  {
    var digits := Magnitude(d.coefficient);
    TrimMinusOnce(d.coefficient);
    if d.scale > 0 {
      PaddedValue(digits, d.scale);
      var padded := PaddedDigits(digits, d.scale);
      var at := |padded| - d.scale;
      assert padded[..at] + ("." + padded[at..]) == padded[..at] + "." + padded[at..];
    } else {
      assert digits + "" == digits;
    }
  }

  lemma PaddedValue(digits: string, scale: nat)
    requires AllDigits(digits)
    ensures AllDigits(PaddedDigits(digits, scale)) && DigitsValue(PaddedDigits(digits, scale)) == DigitsValue(digits)
  {
    if |digits| <= scale {
      var zeros := Repeat('0', scale + 1 - |digits|);
      ZerosValue(scale + 1 - |digits|);
      DigitsConcat(zeros, digits);
    }
  }

  lemma SplitMeaning(n: Numeral, digits: string)
    requires n.Valid() && AllDigits(digits) && AllDigits(n.whole + n.fraction)
    requires DigitsValue(n.whole + n.fraction) == DigitsValue(digits)
    ensures n.Meaning() == Shrink(Signed(n.negative, DigitsValue(digits) as real), |n.fraction|)
  {
    JoinedDigits(n.whole, n.fraction);
    ShrinkSigned(n.negative, DigitsValue(digits) as real, |n.fraction|);
  }

  lemma RenderedMeaning(d: DecimalValue)
    requires WellFormedCoefficient(d.coefficient)
    ensures RenderedNumeral(d).Valid()
    ensures RenderedNumeral(d).Meaning() == Shrink(CoefficientMeaning(d.coefficient), if d.scale > 0 then d.scale else 0)
  {
    RenderSpells(d);
    var n, digits := RenderedNumeral(d), Magnitude(d.coefficient);
    TrimMinusOnce(d.coefficient);
    if d.scale > 0 {
      PaddedValue(digits, d.scale);
      assert PaddedDigits(digits, d.scale) == n.whole + n.fraction;
    } else {
      assert digits + "" == digits;
    }
    SplitMeaning(n, digits);
  }

  // Rendering keeps the value exactly when the scale is not negative or the
  // coefficient is zero: a negative scale is dropped.
  lemma RenderKeepsValue(d: DecimalValue)
    requires WellFormedCoefficient(d.coefficient)
    ensures RenderedNumeral(d).Valid() && RenderDecimal(d) == RenderedNumeral(d).Text()
    ensures RenderedNumeral(d).Meaning() == DecimalMeaning(d) <==>
            d.scale >= 0 || CoefficientMeaning(d.coefficient) == 0.0
    ensures d.scale >= 0 ==> |RenderedNumeral(d).fraction| == d.scale
  {
    RenderSpells(d);
    RenderedMeaning(d);
    var scale: int := d.scale;
    if scale < 0 {
      GrowMoves(CoefficientMeaning(d.coefficient), 0 - scale);
    }
  }

  // The numeral a parsed numeral is rendered as: no superfluous zeros, no
  // trailing point, no sign on a whole zero.
  function ShownNumeral(n: Numeral): Numeral {
    var head := HeadDigits(NormalWhole(n));
    Numeral(n.negative && !(head == "0" && n.fraction == ""), head, n.fraction != "", n.fraction)
  }

  lemma ParsedShown(n: Numeral)
    requires n.Valid() && |n.fraction| <= 127
    ensures ParseDecimal(n.Text()).Some? && ShownNumeral(n).Valid()
    ensures RenderDecimal(ParseDecimal(n.Text()).value) == ShownNumeral(n).Text()
    ensures ShownNumeral(n).whole == "0" || (ShownNumeral(n).whole != "" && ShownNumeral(n).whole[0] != '0')
  {
    ParseOfNumeral(n);
    var whole := NormalWhole(n);
    assert AllDigits(whole);
    HeadValue(whole);
    TrimZerosHead(whole);
    ParsedRendersAs(ParseDecimal(n.Text()).value, ShownNumeral(n));
  }

  // The rendering of a parsed decimal parses to the same decimal, the sign of
  // a zero with fraction digits included.
  lemma ParsedRoundTrip(n: Numeral)
    requires n.Valid() && |n.fraction| <= 127
    ensures ParseDecimal(n.Text()).Some?
    ensures ParseDecimal(RenderDecimal(ParseDecimal(n.Text()).value)) == ParseDecimal(n.Text())
  {
    var shown := ShownNumeral(n);
    ParsedShown(n);
    ParseOfNumeral(n);
    ParseOfNumeral(shown);
    HeadOfHead(shown.whole);
    assert NormalWhole(shown) == shown.whole;
    assert Coefficient(n.negative, NormalWhole(n), n.fraction) == Coefficient(shown.negative, shown.whole, n.fraction);
  }

  lemma HeadOfHead(head: string)
    requires head == "0" || (head != "" && head[0] != '0')
    ensures HeadDigits(head) == head
  {
    if head == "0" {
      assert "0"[1..] == "" && TrimZeros("0"[1..]) == "";
    }
  }

  lemma ParsedRendersAs(d: DecimalValue, shown: Numeral)
    requires shown.Valid() && shown.whole != "" && (shown.point <==> shown.fraction != "")
    requires d.scale == |shown.fraction|
    requires d.coefficient == SignText(shown.negative) + shown.whole + shown.fraction
    ensures RenderDecimal(d) == shown.Text()
  {
    var digits := shown.whole + shown.fraction;
    assert digits[0] == shown.whole[0];
    assert d.coefficient == SignText(shown.negative) + digits;
    assert Magnitude(d.coefficient) == digits && StartsWith(d.coefficient, '-') == shown.negative;
    TrimMinusOnce(d.coefficient);
    RenderSpells(d);
    var n := RenderedNumeral(d);
    assert |PaddedDigits(digits, d.scale)| == |digits|;
    assert n.whole == shown.whole && n.fraction == shown.fraction;
  }
}
