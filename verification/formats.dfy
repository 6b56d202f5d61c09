/** The two text formats the spreadsheet writer produces: `f"{x:.2f}"` for
    amounts held in cents, and `strftime("%d.%m.%y")` / `strftime("%d.%m.%Y")`
    for dates. Each is shown to be read back by the export parser's decoders. */
module Formats {
  import opened Wrappers
  import opened Text
  import opened Calendar
  import TextParser

  function Abs(c: int): nat {
    if c < 0 then -c else c
  }

  /** `f"{amount:.2f}"` of an amount of `cents` hundredths. */
  function FormatCents(cents: int): (r: string)
    ensures |r| >= 4 && r[|r| - 3] == '.'
    ensures (r[0] == '-') <==> cents < 0
    ensures '*' !in r && '\n' !in r
  {
    var digits := NatToDigits(Abs(cents) / 100);
    var body := digits + "." + Fixed(Abs(cents) % 100, 2);
    assert body[0] == digits[0];
    assert forall i :: 0 <= i < |body| ==> IsDigit(body[i]) || body[i] == '.';
    if cents < 0 then "-" + body else body
  }

  /** `strftime("%d.%m.%Y")` (the year zero-padded to four digits). */
  function FormatDateLong(d: CalendarDate): (r: string)
    ensures |r| == 10
  {
    Fixed(d.day, 2) + "." + Fixed(d.month, 2) + "." + Fixed(d.year, 4)
  }

  /** `strftime("%d.%m.%y")`: the year modulo 100. */
  function FormatDateShort(d: CalendarDate): (r: string)
    ensures |r| == 8
  {
    Fixed(d.day, 2) + "." + Fixed(d.month, 2) + "." + Fixed(d.year, 2)
  }

  // ------------------------------------------------------------ round trips

  lemma {:induction false} DigitsNotGrouped(s: string)
    requires |s| >= 1 && '.' in s
    ensures !TextParser.IsGroupedDigits(s)
    decreases |s|
  {
    if TextParser.IsGroupedDigits(s) && !(|s| > 0 && AllDigits(s)) {
      var h := s[..|s| - 4];
      assert s == h + s[|s| - 4..];
      assert '.' in h;
      DigitsNotGrouped(h);
    }
  }

  /** The fractional branch of the decoder, on a text whose parts are
      known. */
  lemma FractionBranch(s: string, digits: string)
    requires |s| == |digits| + 3 && |digits| >= 1 && AllDigits(digits)
    requires s[..|s| - 3] == digits && s[|s| - 3] == '.' && AllDigits(s[|s| - 2..])
    ensures TextParser.UnsignedCents(s) == Some(DigitsValue(digits) * 100 + DigitsValue(s[|s| - 2..]))
  {
    var frac := s[|s| - 2..];
    assert IsDigit(s[|s| - 2]) && IsDigit(s[|s| - 1]) by {
      assert s[|s| - 2] == frac[0] && s[|s| - 1] == frac[1];
    }
    assert DigitValue(s[|s| - 2]) * 10 + DigitValue(s[|s| - 1]) == DigitsValue(frac) by {
      assert s[|s| - 2] == frac[0] && s[|s| - 1] == frac[1];
      TextParser.DigitsValue2(frac);
    }
    assert !TextParser.IsGroupedDigits(s) by {
      assert s[|s| - 3] == '.';
      DigitsNotGrouped(s);
    }
    assert TextParser.IsGroupedDigits(digits);
    assert TextParser.RemoveQuotes(digits) == digits by {
      TextParser.RemoveQuotesDigits(digits);
    }
  }

  /** Digits, a point and two digits decode through the fractional branch,
      to the value `v` they denote. */
  lemma FractionRoundTrip(digits: string, frac: string, v: nat)
    requires |digits| >= 1 && AllDigits(digits) && |frac| == 2 && AllDigits(frac)
    requires v == DigitsValue(digits) * 100 + DigitsValue(frac)
    ensures TextParser.UnsignedCents(digits + "." + frac) == Some(v)
  {
    var s := digits + "." + frac;
    assert s[..|s| - 3] == digits && s[|s| - 3] == '.' && AllDigits(s[|s| - 2..])
           && v == DigitsValue(digits) * 100 + DigitsValue(s[|s| - 2..]) by {
      assert s[|s| - 2..] == frac;
    }
    FractionBranch(s, digits);
  }

  lemma DivMod100(c: nat)
    ensures c == c / 100 * 100 + c % 100
  {
  }

  lemma UnsignedRoundTrip(c: nat)
    ensures TextParser.UnsignedCents(NatToDigits(c / 100) + "." + Fixed(c % 100, 2)) == Some(c)
  {
    assert Pow10(2) == 100;
    FixedSmall(c % 100, 2);
    DivMod100(c);
    FractionRoundTrip(NatToDigits(c / 100), Fixed(c % 100, 2), c);
  }

  /** The parser's amount decoder reads every formatted amount back exactly. */
  lemma AmountRoundTrip(cents: int)
    ensures TextParser.DecodeAmount(FormatCents(cents)) == Some(cents)
  {
    var a := Abs(cents);
    var body := NatToDigits(a / 100) + "." + Fixed(a % 100, 2);
    assert TextParser.UnsignedCents(body) == Some(a) by {
      UnsignedRoundTrip(a);
    }
    if cents < 0 {
      assert FormatCents(cents) == "-" + body;
      assert ("-" + body)[1..] == body;
    } else {
      assert FormatCents(cents) == body;
      assert body[0] == NatToDigits(a / 100)[0];
    }
  }

  /** Two, two and four digits joined by points make a date text whose
      fields are those digits. */
  lemma DateTextParts(dd: string, mm: string, yyyy: string)
    requires |dd| == 2 && |mm| == 2 && |yyyy| == 4
    requires AllDigits(dd) && AllDigits(mm) && AllDigits(yyyy)
    ensures var s := dd + "." + mm + "." + yyyy;
            TextParser.IsDateText(s) && s[..2] == dd && s[3..5] == mm && s[6..10] == yyyy
  {
    var s := dd + "." + mm + "." + yyyy;
    assert s[..2] == dd && s[3..5] == mm && s[6..10] == yyyy;
    assert s[0] == dd[0] && s[1] == dd[1] && s[2] == '.' && s[3] == mm[0] && s[4] == mm[1] && s[5] == '.';
    assert s[6] == yyyy[0] && s[7] == yyyy[1] && s[8] == yyyy[2] && s[9] == yyyy[3];
  }

  lemma DateTextRoundTrip(dd: string, mm: string, yyyy: string, d: CalendarDate)
    requires |dd| == 2 && |mm| == 2 && |yyyy| == 4
    requires AllDigits(dd) && AllDigits(mm) && AllDigits(yyyy)
    requires DigitsValue(dd) == d.day && DigitsValue(mm) == d.month && DigitsValue(yyyy) == d.year
    ensures TextParser.DecodeDate(dd + "." + mm + "." + yyyy) == Some(d)
  {
    DateTextParts(dd, mm, yyyy);
  }

  /** `strptime("%d.%m.%Y")` reads every `%d.%m.%Y` rendering back. */
  lemma DateRoundTrip(d: CalendarDate)
    ensures TextParser.DecodeDate(FormatDateLong(d)) == Some(d)
  {
    assert Pow10(2) == 100 && Pow10(4) == 10000;
    FixedSmall(d.day, 2);
    FixedSmall(d.month, 2);
    FixedSmall(d.year, 4);
    DateTextRoundTrip(Fixed(d.day, 2), Fixed(d.month, 2), Fixed(d.year, 4), d);
  }

  lemma FixedSmall(n: nat, w: nat)
    requires n < Pow10(w)
    ensures DigitsValue(Fixed(n, w)) == n
  {
    FixedValue(n, w);
  }

  lemma DivDiv(n: nat, p: nat)
    requires p >= 1
    ensures n / 10 / p == n / (10 * p)
  {
    var q := n / 10;
    var a := q / p;
    assert q == p * a + q % p;
    assert n == (10 * p) * a + (10 * (q % p) + n % 10);
    ModUnique(n, 10 * p, a, 10 * (q % p) + n % 10);
  }

  /** `w + k` fixed digits are the leading `w` digits of `q = n / 10^k`
      followed by the last `k` digits of `n`. */
  lemma {:induction false} FixedSplit(n: nat, w: nat, k: nat, q: nat)
    requires q == n / Pow10(k)
    ensures Fixed(n, w + k) == Fixed(q, w) + Fixed(n, k)
    decreases k
  {
    if k > 0 {
      var last := [DigitChar(n % 10)];
      assert Fixed(n, w + k) == Fixed(n / 10, w + k - 1) + last;
      assert Fixed(n, k) == Fixed(n / 10, k - 1) + last;
      assert n / 10 / Pow10(k - 1) == q by {
        DivDiv(n, Pow10(k - 1));
      }
      FixedSplit(n / 10, w, k - 1, q);
    }
  }

  /** The short date is the long one with the century digits left out. */
  lemma ShortDateDropsCentury(d: CalendarDate)
    ensures FormatDateShort(d) == FormatDateLong(d)[..6] + FormatDateLong(d)[8..]
  {
    assert Pow10(2) == 100;
    FixedSplit(d.year, 2, 2, d.year / 100);
    var long := FormatDateLong(d);
    assert long[..6] == Fixed(d.day, 2) + "." + Fixed(d.month, 2) + ".";
    assert long[8..] == Fixed(d.year, 4)[2..];
  }

  lemma FormatCentsExample()
    ensures FormatCents(430) == "4.30"
  {
    assert Abs(430) / 100 == 4 && Abs(430) % 100 == 30;
    assert NatToDigits(4) == "4";
    assert Fixed(3, 1) == "3";
    assert Fixed(30, 2) == "30";
  }

  lemma FormatCentsZeroExample()
    ensures FormatCents(0) == "0.00"
  {
    assert Abs(0) / 100 == 0 && Abs(0) % 100 == 0;
    assert DigitChar(0) == '0';
    assert NatToDigits(0) == "0";
    assert Fixed(0, 0) == [];
    assert Fixed(0, 1) == "0";
    assert Fixed(0, 2) == "00";
    assert "0" + "." + "00" == "0.00";
  }

  lemma FormatCentsNegativeExample()
    ensures FormatCents(-15795) == "-157.95"
  {
    assert Abs(-15795) / 100 == 157 && Abs(-15795) % 100 == 95;
    assert NatToDigits(1) == "1";
    assert NatToDigits(15) == "15";
    assert NatToDigits(157) == "157";
    assert Fixed(9, 1) == "9";
    assert Fixed(95, 2) == "95";
  }

  /** Two fixed digits: the tens and the units. */
  lemma FixedTwo(n: nat)
    ensures Fixed(n, 2) == [DigitChar(n / 10 % 10), DigitChar(n % 10)]
  {
    assert Fixed(n / 10 / 10, 0) == [];
  }

  lemma FormatDateShortExample()
    ensures FormatDateShort(Date(2025, 7, 15)) == "15.07.25"
  {
    FixedTwo(15);
    FixedTwo(7);
    FixedTwo(2025);
    assert DigitChar(1) == '1' && DigitChar(5) == '5' && DigitChar(0) == '0' && DigitChar(7) == '7' && DigitChar(2) == '2';
  }
}
