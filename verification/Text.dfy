// Characters, decimal digits and strings: the digits of a number and the number
// of a run of digits, zero padding, and the order strings and padded digits have.
module Text {
  import opened Results
  import opened Orders

  predicate IsDigit(c: char) {
    '0' <= c <= '9'
  }

  predicate IsAlpha(c: char) {
    'a' <= c <= 'z' || 'A' <= c <= 'Z'
  }

  predicate AllDigits(s: string) {
    forall i :: 0 <= i < |s| ==> IsDigit(s[i])
  }

  function DigitOf(d: nat): (c: char)
    requires d < 10
    ensures IsDigit(c) && DigitValue(c) == d
  {
    ('0' as int + d) as char
  }

  function DigitValue(c: char): nat
    requires IsDigit(c)
  {
    c as int - '0' as int
  }

  function Pow10(n: nat): (p: nat)
    ensures p > 0
  {
    if n == 0 then 1 else 10 * Pow10(n - 1)
  }

  // The number a run of decimal digits denotes.
  function DigitsValue(s: string): nat
    requires AllDigits(s)
  {
    if s == "" then 0 else DigitsValue(s[..|s| - 1]) * 10 + DigitValue(s[|s| - 1])
  }

  // Decimal text without leading zeros, as integer formatting writes it.
  function NatText(n: nat): (s: string)
    ensures s != "" && AllDigits(s)
  {
    if n < 10 then [DigitOf(n)] else NatText(n / 10) + [DigitOf(n % 10)]
  }

  function IntText(n: int): string {
    if n < 0 then "-" + NatText(-n) else NatText(n)
  }

  predicate Canonical(s: string) {
    s != "" && AllDigits(s) && (|s| > 1 ==> s[0] != '0')
  }

  lemma {:induction false} NatTextValue(n: nat)
    ensures DigitsValue(NatText(n)) == n && Canonical(NatText(n)) && (n > 0 ==> NatText(n)[0] != '0')
  {
    if n >= 10 {
      NatTextValue(n / 10);
      var s := NatText(n);
      assert s[..|s| - 1] == NatText(n / 10);
    }
  }

  lemma {:induction false} CanonicalText(s: string)
    requires Canonical(s)
    ensures NatText(DigitsValue(s)) == s
    ensures s[0] != '0' ==> DigitsValue(s) > 0
  {
    if |s| == 1 {
      assert s[..0] == "";
      assert DigitsValue(s) == DigitValue(s[0]);
      assert s == [s[0]];
    } else {
      var front := s[..|s| - 1];
      CanonicalText(front);
      assert s == front + [s[|s| - 1]];
      var v := DigitsValue(front);
      assert front[0] == s[0] != '0';
      assert v > 0;
      assert DigitsValue(s) == v * 10 + DigitValue(s[|s| - 1]) >= 10;
      assert DigitsValue(s) / 10 == v;
    }
  }

  lemma {:induction false} DigitsConcat(a: string, b: string)
    requires AllDigits(a) && AllDigits(b)
    ensures AllDigits(a + b)
    ensures DigitsValue(a + b) == DigitsValue(a) * Pow10(|b|) + DigitsValue(b)
  {
    if b == "" {
      assert a + b == a;
    } else {
      var front, last := b[..|b| - 1], DigitValue(b[|b| - 1]);
      DigitsConcat(a, front);
      assert (a + b)[..|a + b| - 1] == a + front;
      assert (a + b)[|a + b| - 1] == b[|b| - 1];
      ShiftDigit(DigitsValue(a), Pow10(|front|), DigitsValue(front), last);
    }
  }

  lemma ShiftDigit(high: nat, power: nat, low: nat, digit: nat)
    ensures (high * power + low) * 10 + digit == high * (10 * power) + (low * 10 + digit)
  {
  }

  function Repeat(c: char, n: nat): (s: string)
    ensures |s| == n && forall i :: 0 <= i < n ==> s[i] == c
  {
    if n == 0 then "" else Repeat(c, n - 1) + [c]
  }

  lemma {:induction false} ZerosValue(n: nat)
    ensures AllDigits(Repeat('0', n)) && DigitsValue(Repeat('0', n)) == 0
  {
    if n > 0 {
      ZerosValue(n - 1);
      var s := Repeat('0', n);
      assert s[..|s| - 1] == Repeat('0', n - 1);
    }
  }

  lemma {:induction false} DigitsBound(s: string)
    requires AllDigits(s)
    ensures DigitsValue(s) < Pow10(|s|)
  {
    if s != "" {
      DigitsBound(s[..|s| - 1]);
    }
  }

  // Text with leading zeros removed.
  function TrimZeros(s: string): (t: string) {
    if s != "" && s[0] == '0' then TrimZeros(s[1..]) else s
  }

  lemma {:induction false} TrimZerosValue(s: string)
    requires AllDigits(s)
    ensures AllDigits(TrimZeros(s)) && DigitsValue(TrimZeros(s)) == DigitsValue(s)
    ensures TrimZeros(s) != "" ==> TrimZeros(s)[0] != '0'
    ensures TrimZeros(s) != "" <==> DigitsValue(s) > 0
  {
    if s != "" && s[0] == '0' {
      TrimZerosValue(s[1..]);
      assert s == [s[0]] + s[1..];
      assert DigitsValue([s[0]]) == 0 by { assert [s[0]][..0] == ""; }
      DigitsConcat([s[0]], s[1..]);
    } else if s != "" {
      LeadingDigitPositive(s);
    }
  }

  lemma {:induction false} LeadingDigitPositive(s: string)
    requires s != "" && AllDigits(s) && s[0] != '0'
    ensures DigitsValue(s) > 0
  {
    CanonicalText(s);
  }

  predicate StartsWith(s: string, c: char) {
    s != "" && s[0] == c
  }

  predicate Has(s: string, c: char) {
    exists i :: 0 <= i < |s| && s[i] == c
  }

  // Index of the first occurrence of c.
  function IndexOf(s: string, c: char): (r: Option<nat>)
    ensures r.Some? ==> r.value < |s| && s[r.value] == c && forall j :: 0 <= j < r.value ==> s[j] != c
    ensures r.None? ==> !Has(s, c)
  {
    if s == "" then None
    else if s[0] == c then Some(0)
    else match IndexOf(s[1..], c)
      case Some(k) => assert s[1..][k] == c; Some(k + 1)
      case None =>
        assert forall i :: 0 < i < |s| ==> s[i] == s[1..][i - 1];
        None
  }

  function Join(parts: seq<string>, sep: string): string {
    if |parts| == 0 then ""
    else if |parts| == 1 then parts[0]
    else parts[0] + sep + Join(parts[1..], sep)
  }

  // Lexicographic order by code point, the order of UTF-8 encoded strings.
  function StrCmp(a: string, b: string): Ordering {
    if a == "" && b == "" then Equal
    else if a == "" then Less
    else if b == "" then Greater
    else if a[0] < b[0] then Less
    else if a[0] > b[0] then Greater
    else StrCmp(a[1..], b[1..])
  }

  lemma {:induction false} StrCmpReverse(a: string, b: string)
    ensures StrCmp(b, a) == StrCmp(a, b).Reverse()
    ensures StrCmp(a, b) == Equal <==> a == b
  {
    if a != "" && b != "" && a[0] == b[0] {
      StrCmpReverse(a[1..], b[1..]);
      assert a == [a[0]] + a[1..] && b == [b[0]] + b[1..];
    }
  }

  lemma {:induction false} StrCmpTransitive(a: string, b: string, c: string)
    requires StrCmp(a, b) != Greater && StrCmp(b, c) != Greater
    ensures StrCmp(a, c) != Greater
  {
    if a != "" && b != "" && c != "" && a[0] == b[0] == c[0] {
      StrCmpTransitive(a[1..], b[1..], c[1..]);
    }
  }

  function IntCmp(a: int, b: int): Ordering {
    if a < b then Less else if a > b then Greater else Equal
  }

  // On digit runs of one length, string order is numeric order.
  lemma {:induction false} DigitsOrder(a: string, b: string)
    requires |a| == |b| && AllDigits(a) && AllDigits(b)
    ensures StrCmp(a, b) == IntCmp(DigitsValue(a), DigitsValue(b))
  {
    if a != "" {
      DigitsOrder(a[1..], b[1..]);
      assert a == [a[0]] + a[1..] && b == [b[0]] + b[1..];
      DigitsConcat([a[0]], a[1..]);
      DigitsConcat([b[0]], b[1..]);
      assert [a[0]][..0] == "" && [b[0]][..0] == "";
      DigitsBound(a[1..]);
      DigitsBound(b[1..]);
      LeadingDigitDecides(DigitValue(a[0]), DigitValue(b[0]), Pow10(|a| - 1), DigitsValue(a[1..]), DigitsValue(b[1..]));
    }
  }

  lemma LeadingDigitDecides(x: nat, y: nat, p: nat, u: nat, v: nat)
    requires u < p && v < p
    ensures IntCmp(x * p + u, y * p + v) == if x < y then Less else if x > y then Greater else IntCmp(u, v)
  {
    if x < y {
      assert (x + 1) * p <= y * p;
    } else if y < x {
      assert (y + 1) * p <= x * p;
    }
  }

  // Zero-padded decimal text of the given total width, sign first.
  function PadInt(n: int, width: nat): string {
    var digits := NatText(if n < 0 then -n else n);
    var used := |digits| + (if n < 0 then 1 else 0);
    (if n < 0 then "-" else "") + Repeat('0', if used < width then width - used else 0) + digits
  }
}
