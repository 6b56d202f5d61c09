/** The export-text recognizer of `TextParser`: the multi-line block regex,
    read as a recognizer over the lines of the document, followed by field
    decoding and construction, where a block whose decoding or construction
    raises is skipped.

    Line reading: the regex's `\s+` and the merchant's `[^*]+` are taken to
    stay inside one line; `\d` is an ASCII digit. */
module TextParser {
  import opened Wrappers
  import opened Text
  import opened Calendar
  import opened Transactions

  // ------------------------------------------------------------ lexical shapes

  /** `\d{2}\.\d{2}\.\d{4}` */
  predicate IsDateText(s: string) {
    |s| == 10 && IsDigit(s[0]) && IsDigit(s[1]) && s[2] == '.' && IsDigit(s[3]) && IsDigit(s[4])
    && s[5] == '.' && IsDigit(s[6]) && IsDigit(s[7]) && IsDigit(s[8]) && IsDigit(s[9])
  }

  /** `\d{2}:\d{2}` */
  predicate IsTimeText(s: string) {
    |s| == 5 && IsDigit(s[0]) && IsDigit(s[1]) && s[2] == ':' && IsDigit(s[3]) && IsDigit(s[4])
  }

  /** `\d+(?:'\d{3})*` */
  predicate IsGroupedDigits(s: string)
    decreases |s|
  {
    (|s| > 0 && AllDigits(s))
    || (|s| >= 5 && s[|s| - 4] == '\'' && AllDigits(s[|s| - 3..]) && IsGroupedDigits(s[..|s| - 4]))
  }

  /** Digits and separators, optionally followed by `\.\d{2}`. */
  predicate IsUnsignedAmount(s: string) {
    IsGroupedDigits(s)
    || (|s| >= 4 && s[|s| - 3] == '.' && IsDigit(s[|s| - 2]) && IsDigit(s[|s| - 1])
        && IsGroupedDigits(s[..|s| - 3]))
  }

  /** The `amountChf` group: `-?\d+(?:'\d{3})*(?:\.\d{2})?` */
  predicate IsAmountText(s: string) {
    IsUnsignedAmount(s) || (|s| > 0 && s[0] == '-' && IsUnsignedAmount(s[1..]))
  }

  /** The `foreignAmount` group: `\d+(?:\.\d{2})?` */
  predicate IsForeignAmountText(s: string) {
    (|s| > 0 && AllDigits(s))
    || (|s| >= 4 && s[|s| - 3] == '.' && IsDigit(s[|s| - 2]) && IsDigit(s[|s| - 1])
        && AllDigits(s[..|s| - 3]))
  }

  predicate IsCurrency(s: string) {
    s == "EUR" || s == "USD"
  }

  // ------------------------------------------------------------ amounts

  /** `s.replace("'", "")` */
  function RemoveQuotes(s: string): (r: string)
    ensures |r| <= |s|
  {
    if |s| == 0 then []
    else RemoveQuotes(s[..|s| - 1]) + (if s[|s| - 1] == '\'' then [] else [s[|s| - 1]])
  }

  lemma {:induction false} RemoveQuotesAppend(a: string, b: string)
    ensures RemoveQuotes(a + b) == RemoveQuotes(a) + RemoveQuotes(b)
    decreases |b|
  {
    if |b| == 0 {
      assert a + b == a;
    } else {
      assert (a + b)[..|a + b| - 1] == a + b[..|b| - 1];
      RemoveQuotesAppend(a, b[..|b| - 1]);
    }
  }

  lemma {:induction false} RemoveQuotesDigits(s: string)
    requires AllDigits(s)
    ensures RemoveQuotes(s) == s
  {
    if |s| > 0 {
      RemoveQuotesDigits(s[..|s| - 1]);
      assert s[..|s| - 1] + [s[|s| - 1]] == s;
    }
  }

  lemma {:induction false} GroupedDigitsClean(s: string)
    requires IsGroupedDigits(s)
    ensures AllDigits(RemoveQuotes(s)) && |RemoveQuotes(s)| > 0
    decreases |s|
  {
    if |s| > 0 && AllDigits(s) {
      RemoveQuotesDigits(s);
    } else {
      var head, tail := s[..|s| - 4], s[|s| - 3..];
      GroupedDigitsClean(head);
      assert s == head + ['\''] + tail;
      RemoveQuotesAppend(head + ['\''], tail);
      RemoveQuotesAppend(head, ['\'']);
      RemoveQuotesDigits(tail);
      assert RemoveQuotes(['\'']) == [];
      assert RemoveQuotes(s) == RemoveQuotes(head) + tail;
    }
  }

  /** Value in cents of an unsigned amount, separators removed. */
  function UnsignedCents(s: string): (r: Option<nat>)
    ensures r.Some? <==> IsUnsignedAmount(s)
  {
    if IsGroupedDigits(s) then
      GroupedDigitsClean(s);
      Some(DigitsValue(RemoveQuotes(s)) * 100)
    else if |s| >= 4 && s[|s| - 3] == '.' && IsDigit(s[|s| - 2]) && IsDigit(s[|s| - 1])
         && IsGroupedDigits(s[..|s| - 3]) then
      GroupedDigitsClean(s[..|s| - 3]);
      Some(DigitsValue(RemoveQuotes(s[..|s| - 3])) * 100
           + DigitValue(s[|s| - 2]) * 10 + DigitValue(s[|s| - 1]))
    else None
  }

  lemma {:induction false} GroupedStartsWithDigit(s: string)
    requires IsGroupedDigits(s)
    ensures |s| > 0 && IsDigit(s[0])
    decreases |s|
  {
    if !(|s| > 0 && AllDigits(s)) {
      GroupedStartsWithDigit(s[..|s| - 4]);
    }
  }

  lemma NegatedNotUnsigned(s: string)
    requires |s| > 0 && s[0] == '-'
    ensures !IsUnsignedAmount(s)
  {
    if IsGroupedDigits(s) {
      GroupedStartsWithDigit(s);
    }
    if |s| >= 4 && IsGroupedDigits(s[..|s| - 3]) {
      GroupedStartsWithDigit(s[..|s| - 3]);
    }
  }

  /** `float(s.replace("'", ""))`, in integer cents; `None` where the text is
      not an amount. The sign is kept. */
  function DecodeAmount(s: string): (r: Option<int>)
    ensures r.Some? <==> IsAmountText(s)
    ensures r.Some? && (|s| == 0 || s[0] != '-') ==> r.value >= 0
    ensures r.Some? && |s| > 0 && s[0] == '-' ==> r.value <= 0
  {
    if |s| > 0 && s[0] == '-' then
      (match UnsignedCents(s[1..])
       case Some(v) => var n: int := v; Some(-n)
       case None => NegatedNotUnsigned(s); None)
    else
      (match UnsignedCents(s)
       case Some(v) => Some(v as int)
       case None => None)
  }

  // ------------------------------------------------------------ amount values

  /** The digits of `s`, in order, everything else dropped. */
  function DigitsOnly(s: string): (r: string)
    ensures AllDigits(r) && |r| <= |s|
  {
    if |s| == 0 then []
    else DigitsOnly(s[..|s| - 1]) + (if IsDigit(s[|s| - 1]) then [s[|s| - 1]] else [])
  }

  lemma {:induction false} DigitsOnlyAppend(a: string, b: string)
    ensures DigitsOnly(a + b) == DigitsOnly(a) + DigitsOnly(b)
    decreases |b|
  {
    if |b| == 0 {
      assert a + b == a;
    } else {
      assert (a + b)[..|a + b| - 1] == a + b[..|b| - 1];
      DigitsOnlyAppend(a, b[..|b| - 1]);
    }
  }

  lemma {:induction false} DigitsOnlyDigits(s: string)
    requires AllDigits(s)
    ensures DigitsOnly(s) == s
  {
    if |s| > 0 {
      DigitsOnlyDigits(s[..|s| - 1]);
      assert s[..|s| - 1] + [s[|s| - 1]] == s;
    }
  }

  /** On digits and separators, dropping the separators keeps the digits. */
  lemma {:induction false} GroupedDigitsOnly(s: string)
    requires IsGroupedDigits(s)
    ensures DigitsOnly(s) == RemoveQuotes(s) && '.' !in s
    decreases |s|
  {
    if |s| > 0 && AllDigits(s) {
      DigitsOnlyDigits(s);
      RemoveQuotesDigits(s);
    } else {
      var head, tail := s[..|s| - 4], s[|s| - 3..];
      GroupedDigitsOnly(head);
      assert s == head + ['\''] + tail;
      DigitsOnlyAppend(head + ['\''], tail);
      DigitsOnlyAppend(head, ['\'']);
      DigitsOnlyDigits(tail);
      assert DigitsOnly(['\'']) == [] by {
        assert ['\''][..0] == [];
      }
      GroupedDigitsClean(head);
      RemoveQuotesAppend(head + ['\''], tail);
      RemoveQuotesAppend(head, ['\'']);
      RemoveQuotesDigits(tail);
      assert RemoveQuotes(['\'']) == [];
    }
  }

  /** An unsigned amount is worth its digits read as one number of cents
      when it has a fractional part, and a hundred times that otherwise. */
  lemma {:induction false} UnsignedValue(u: string)
    requires IsUnsignedAmount(u)
    ensures UnsignedCents(u) == Some(if '.' in u then DigitsValue(DigitsOnly(u)) else 100 * DigitsValue(DigitsOnly(u)))
  {
    if IsGroupedDigits(u) {
      GroupedDigitsOnly(u);
    } else {
      FractionValue(u);
    }
  }

  lemma FractionValue(u: string)
    requires !IsGroupedDigits(u) && IsUnsignedAmount(u)
    ensures '.' in u && UnsignedCents(u) == Some(DigitsValue(DigitsOnly(u)))
  {
    var h, f := u[..|u| - 3], u[|u| - 2..];
    assert f[0] == u[|u| - 2] && f[1] == u[|u| - 1];
    GroupedDigitsClean(h);
    var c := RemoveQuotes(h);
    assert UnsignedCents(u) == Some(DigitsValue(c) * 100 + DigitValue(f[0]) * 10 + DigitValue(f[1]));
    assert DigitsOnly(u) == c + f by {
      assert u == h + ['.'] + f;
      FractionDigits(h, f);
    }
    DigitsValueTwo(c, f);
    assert u[|u| - 3] == '.';
  }

  lemma FractionDigits(h: string, f: string)
    requires IsGroupedDigits(h) && |f| == 2 && IsDigit(f[0]) && IsDigit(f[1])
    ensures DigitsOnly(h + ['.'] + f) == RemoveQuotes(h) + f
  {
    GroupedDigitsOnly(h);
    DigitsOnlyAppend(h + ['.'], f);
    DigitsOnlyAppend(h, ['.']);
    assert DigitsOnly(['.']) == [] by {
      assert ['.'][..0] == [];
    }
    DigitsOnlyDigits(f);
  }

  lemma DigitsValueTwo(c: string, f: string)
    requires AllDigits(c) && |f| == 2 && IsDigit(f[0]) && IsDigit(f[1])
    ensures AllDigits(c + f) && DigitsValue(c + f) == DigitsValue(c) * 100 + DigitValue(f[0]) * 10 + DigitValue(f[1])
  {
    assert c + f == c + [f[0]] + [f[1]];
    DigitsValueAppend(c, f[0]);
    DigitsValueAppend(c + [f[0]], f[1]);
  }

  /** `float(s.replace("'", ""))` in cents, for every amount text: the
      digits read as one number, times a hundred without a fractional part,
      negated after a leading minus. */
  lemma {:induction false} AmountValue(s: string)
    requires IsAmountText(s)
    ensures |s| > 0
    ensures DecodeAmount(s) ==
              Some((if s[0] == '-' then -1 else 1) * (if '.' in s then 1 else 100) * DigitsValue(DigitsOnly(s)))
  {
    if |s| > 0 && s[0] == '-' {
      NegativeAmountValue(s);
    } else {
      PlainAmountValue(s);
    }
  }

  lemma {:induction false} NegativeAmountValue(s: string)
    requires IsAmountText(s) && |s| > 0 && s[0] == '-'
    ensures DecodeAmount(s) == Some(-(if '.' in s then 1 else 100) * DigitsValue(DigitsOnly(s)))
  {
    NegatedNotUnsigned(s);
    var u := s[1..];
    var v: int := UnsignedCents(u).value;
    assert DecodeAmount(s) == Some(-v);
    UnsignedValue(u);
    MinusDropped(u);
    assert s == ['-'] + u;
    var x := DigitsValue(DigitsOnly(s));
    assert x == DigitsValue(DigitsOnly(u));
    if '.' in s {
      assert v == x;
    } else {
      assert v == 100 * x;
    }
  }

  lemma {:induction false} PlainAmountValue(s: string)
    requires IsAmountText(s) && !(|s| > 0 && s[0] == '-')
    ensures |s| > 0
    ensures DecodeAmount(s) == Some((if '.' in s then 1 else 100) * DigitsValue(DigitsOnly(s)))
  {
    if IsGroupedDigits(s) {
      GroupedStartsWithDigit(s);
    } else {
      GroupedStartsWithDigit(s[..|s| - 3]);
    }
    var v := UnsignedCents(s).value;
    assert DecodeAmount(s) == Some(v as int);
    UnsignedValue(s);
  }

  /** A leading minus adds no digit and no point. */
  lemma MinusDropped(u: string)
    ensures DigitsOnly(['-'] + u) == DigitsOnly(u)
    ensures ('.' in ['-'] + u) == ('.' in u)
  {
    DigitsOnlyAppend(['-'], u);
    assert DigitsOnly(['-']) == [] by {
      assert ['-'][..0] == [];
    }
  }

  /** Removing the separators first, as the program does before `float`,
      leaves an amount text with the same value. */
  lemma SeparatorsIgnored(s: string)
    requires IsAmountText(s)
    ensures IsAmountText(RemoveQuotes(s)) && DecodeAmount(RemoveQuotes(s)) == DecodeAmount(s)
  {
    SeparatorsKeepSign(s);
    QuotesCarryNoValue(s);
    AmountValue(s);
    AmountValue(RemoveQuotes(s));
  }

  lemma SeparatorsKeepSign(s: string)
    requires IsAmountText(s)
    ensures IsAmountText(RemoveQuotes(s)) && |s| > 0 && |RemoveQuotes(s)| > 0
    ensures (RemoveQuotes(s)[0] == '-') == (s[0] == '-')
  {
    var r := RemoveQuotes(s);
    if |s| > 0 && s[0] == '-' {
      NegatedNotUnsigned(s);
      var u := s[1..];
      assert s == ['-'] + u;
      RemoveQuotesAppend(['-'], u);
      assert RemoveQuotes(['-']) == ['-'] by {
        assert ['-'][..0] == [];
      }
      UnsignedWithoutQuotes(u);
      assert r == ['-'] + RemoveQuotes(u);
      assert r[1..] == RemoveQuotes(u);
    } else {
      UnsignedWithoutQuotes(s);
      AmountValue(s);
      AmountValue(r);
      if r[0] == '-' {
        NegatedNotUnsigned(r);
      }
    }
  }

  lemma QuotesCarryNoValue(s: string)
    ensures DigitsOnly(RemoveQuotes(s)) == DigitsOnly(s)
    ensures ('.' in RemoveQuotes(s)) == ('.' in s)
  {
    QuotesCarryNoDigits(s);
    QuotesCarryNoPoint(s);
  }

  lemma {:induction false} QuotesCarryNoDigits(s: string)
    ensures DigitsOnly(RemoveQuotes(s)) == DigitsOnly(s)
  {
    if |s| > 0 {
      var init, last := s[..|s| - 1], s[|s| - 1];
      var x := if last == '\'' then [] else [last];
      QuotesCarryNoDigits(init);
      assert RemoveQuotes(s) == RemoveQuotes(init) + x;
      DigitsOnlyAppend(RemoveQuotes(init), x);
      assert DigitsOnly(x) == (if IsDigit(last) then [last] else []) by {
        assert [last][..0] == [];
      }
    }
  }

  lemma {:induction false} QuotesCarryNoPoint(s: string)
    ensures ('.' in RemoveQuotes(s)) == ('.' in s)
  {
    if |s| > 0 {
      var init, last := s[..|s| - 1], s[|s| - 1];
      QuotesCarryNoPoint(init);
      assert s == init + [last];
      assert RemoveQuotes(s) == RemoveQuotes(init) + (if last == '\'' then [] else [last]);
    }
  }

  lemma UnsignedWithoutQuotes(u: string)
    requires IsUnsignedAmount(u)
    ensures IsUnsignedAmount(RemoveQuotes(u))
  {
    if IsGroupedDigits(u) {
      GroupedDigitsClean(u);
    } else {
      var h, f := u[..|u| - 3], u[|u| - 2..];
      assert u == h + ['.'] + f;
      assert f[0] == u[|u| - 2] && f[1] == u[|u| - 1];
      GroupedDigitsClean(h);
      PointWithoutQuotes(h, f);
      var c := RemoveQuotes(h);
      var r := c + ['.'] + f;
      assert r[..|r| - 3] == c;
      assert r[|r| - 3] == '.' && r[|r| - 2] == f[0] && r[|r| - 1] == f[1];
    }
  }

  lemma PointWithoutQuotes(h: string, f: string)
    requires |f| == 2 && IsDigit(f[0]) && IsDigit(f[1])
    ensures RemoveQuotes(h + ['.'] + f) == RemoveQuotes(h) + ['.'] + f
  {
    RemoveQuotesAppend(h + ['.'], f);
    RemoveQuotesAppend(h, ['.']);
    assert RemoveQuotes(['.']) == ['.'] by {
      assert ['.'][..0] == [];
    }
    RemoveQuotesDigits(f);
  }

  lemma DigitsValue2(s: string)
    requires |s| == 2 && AllDigits(s)
    ensures DigitsValue(s) == 10 * DigitValue(s[0]) + DigitValue(s[1])
  {
    assert s[..1][..0] == [];
    assert DigitsValue(s[..1]) == DigitValue(s[0]);
  }

  lemma DigitsValue4(s: string)
    requires |s| == 4 && AllDigits(s)
    ensures DigitsValue(s) == 1000 * DigitValue(s[0]) + 100 * DigitValue(s[1]) + 10 * DigitValue(s[2]) + DigitValue(s[3])
  {
    assert s[..3][..2] == s[..2];
    DigitsValue2(s[..2]);
  }

  lemma DigitsValue1(s: string)
    requires |s| == 1 && AllDigits(s)
    ensures DigitsValue(s) == DigitValue(s[0])
  {
    assert s[..0] == [];
  }

  lemma AmountExamplePlain()
    ensures DecodeAmount("4.30") == Some(430)
  {
    var s := "4.30";
    assert !IsDigit(s[1]);
    assert !IsGroupedDigits(s);
    assert s[..1] == "4";
    assert IsGroupedDigits("4");
    RemoveQuotesDigits("4");
    DigitsValue1("4");
    assert UnsignedCents(s) == Some(430);
  }

  lemma AmountExampleNegative()
    ensures DecodeAmount("-157.95") == Some(-15795)
  {
    var u := "-157.95"[1..];
    assert u == "157.95";
    assert !IsDigit(u[3]) && u[2] != '\'';
    assert !IsGroupedDigits(u);
    assert u[..3] == "157";
    assert IsGroupedDigits("157");
    assert "15" + ['7'] == "157";
    DigitsValueAppend("15", '7');
    DigitsValue2("15");
    assert DigitsValue("157") == 157;
    RemoveQuotesDigits("157");
    assert DigitValue(u[4]) == 9 && DigitValue(u[5]) == 5;
    assert UnsignedCents(u) == Some(15795);
  }

  /** Appending a `'ddd` group keeps the grammar and adds three digits. */
  lemma GroupAppend(h: string, t: string)
    requires IsGroupedDigits(h) && |t| == 3 && AllDigits(t)
    ensures IsGroupedDigits(h + "'" + t)
    ensures RemoveQuotes(h + "'" + t) == RemoveQuotes(h) + t
  {
    var s := h + "'" + t;
    assert s[..|s| - 4] == h && s[|s| - 3..] == t && s[|s| - 4] == '\'';
    RemoveQuotesAppend(h + "'", t);
    RemoveQuotesAppend(h, "'");
    RemoveQuotesDigits(t);
    assert RemoveQuotes("'") == [];
  }

  lemma AmountExampleSeparator()
    ensures DecodeAmount("1'234.50") == Some(123450)
  {
    var s := "1'234.50";
    var a := "1'234";
    assert !IsDigit(s[1]) && s[4] != '\'';
    assert !IsGroupedDigits(s);
    assert s[..5] == a;
    assert a == "1" + "'" + "234";
    GroupAppend("1", "234");
    RemoveQuotesDigits("1");
    assert RemoveQuotes(a) == "1234";
    DigitsValue4("1234");
    assert DigitValue(s[6]) == 5 && DigitValue(s[7]) == 0;
    assert UnsignedCents(s) == Some(123450);
  }

  lemma AmountExampleMalformed()
    ensures DecodeAmount("12.5") == None
    ensures DecodeAmount("1'23") == None
  {
    assert !AllDigits("12.5") by { assert !IsDigit("12.5"[2]); }
    assert !AllDigits("1'23") by { assert !IsDigit("1'23"[1]); }
    assert "12.5"[..1] == "1";
    assert !IsGroupedDigits("12.5");
    assert !IsGroupedDigits("1'23");
  }

  // ------------------------------------------------------------ dates

  /** `datetime.strptime(s, "%d.%m.%Y")`: `None` where it raises. */
  function DecodeDate(s: string): (r: Option<CalendarDate>)
    ensures r.Some? ==> IsDateText(s)
    ensures IsDateText(s) ==>
              (r.Some? <==> ValidDate(Date(DigitsValue(s[6..10]), DigitsValue(s[3..5]), DigitsValue(s[..2]))))
    // Formats.DateRoundTrip states the converse: a valid date printed as DD.MM.YYYY decodes back to itself.
    ensures r.Some? ==> r.value == Date(DigitsValue(s[6..10]), DigitsValue(s[3..5]), DigitsValue(s[..2]))
  {
    if !IsDateText(s) then None
    else
      var d := Date(DigitsValue(s[6..10]), DigitsValue(s[3..5]), DigitsValue(s[..2]));
      if ValidDate(d) then Some(d) else None
  }

  lemma DateExampleValid()
    ensures DecodeDate("31.07.2025") == Some(Date(2025, 7, 31))
  {
    var s := "31.07.2025";
    assert s[6..10] == "2025";
    assert s[3..5] == "07";
    assert s[..2] == "31";
    DigitsValue4("2025");
    DigitsValue2("07");
    DigitsValue2("31");
  }

  /** The 29th of February exists in a leap year only. */
  lemma DateExampleLeapDay()
    ensures DecodeDate("29.02.2024") == Some(Date(2024, 2, 29))
  {
    var s := "29.02.2024";
    assert DigitsValue(s[6..10]) == 2024 && DigitsValue(s[3..5]) == 2 && DigitsValue(s[..2]) == 29 by {
      assert s[6..10] == "2024";
      assert s[3..5] == "02";
      assert s[..2] == "29";
      DigitsValue4("2024");
      DigitsValue2("02");
      DigitsValue2("29");
    }
    assert ValidDate(Date(2024, 2, 29));
  }

  lemma DateExampleNoLeapDay()
    ensures DecodeDate("29.02.2025") == None
  {
    var s := "29.02.2025";
    assert DigitsValue(s[6..10]) == 2025 && DigitsValue(s[3..5]) == 2 && DigitsValue(s[..2]) == 29 by {
      assert s[6..10] == "2025";
      assert s[3..5] == "02";
      assert s[..2] == "29";
      DigitsValue4("2025");
      DigitsValue2("02");
      DigitsValue2("29");
    }
    assert !ValidDate(Date(2025, 2, 29));
  }

  /** `strptime` rejects the 31st of February and the year 0. */
  lemma DateExampleImpossible()
    ensures DecodeDate("31.02.2025") == None
    ensures DecodeDate("01.01.0000") == None
  {
    var s, t := "31.02.2025", "01.01.0000";
    assert s[6..10] == "2025" && s[3..5] == "02" && s[..2] == "31";
    assert t[6..10] == "0000";
    DigitsValue4("2025");
    DigitsValue4("0000");
    DigitsValue2("02");
    DigitsValue2("31");
  }

  // ------------------------------------------------------------ one block

  /** The text captured by the named groups of one match. */
  datatype RawBlock = RawBlock(
    category: string,
    merchant: string,
    date: string,
    time: Option<string>,
    location: Option<string>,
    amountChf: string,
    foreignAmount: Option<string>,
    foreignCurrency: Option<string>)

  /** What the grammar guarantees of every match. */
  predicate MatchedShape(b: RawBlock) {
    && |b.category| > 0 && '*' !in b.category && '\n' !in b.category
    && |b.merchant| > 0 && '*' !in b.merchant && '\n' !in b.merchant
    && IsDateText(b.date)
    && (b.time.Some? ==> IsTimeText(b.time.value))
    && (b.location.Some? ==> |b.location.value| > 0 && '\n' !in b.location.value)
    && IsAmountText(b.amountChf)
    && (b.foreignAmount.Some? <==> b.foreignCurrency.Some?)
    && (b.foreignAmount.Some? ==> IsForeignAmountText(b.foreignAmount.value))
    && (b.foreignCurrency.Some? ==> IsCurrency(b.foreignCurrency.value))
  }

  /** A location group can follow (`\s+[^\n]+`) or the line ends here. */
  predicate LocationFits(s: string) {
    |s| == 0 || (|s| >= 2 && IsSpace(s[0]))
  }

  /** The `location` group for the rest `s` of the date line: greedy `\s+`,
      backing off one character when the rest is all whitespace. */
  function RawLocation(s: string): (r: Option<string>)
    requires LocationFits(s)
    ensures r.Some? <==> |s| > 0
    ensures r.Some? ==> 0 < |r.value| <= |s| && Strip(r.value) == Strip(s)
    ensures r.Some? ==> EndsWith(r.value, s)
  {
    if |s| == 0 then None
    else
      var w := LeadingSpaces(s);
      var k := if w < |s| then w else |s| - 1;
      StripDropSpaces(s, k);
      DropEndsWith(s, k);
      Some(s[k..])
  }

  /** `x` is a suffix of `s`. */
  predicate EndsWith(x: string, s: string)
    decreases |s|
  {
    if |x| == |s| then x == s else |x| < |s| && EndsWith(x, s[1..])
  }

  lemma {:induction false} DropEndsWith(s: string, k: nat)
    requires k <= |s|
    ensures EndsWith(s[k..], s)
    decreases k
  {
    if k > 0 {
      assert s[1..][k - 1..] == s[k..];
      DropEndsWith(s[1..], k - 1);
    }
  }

  lemma {:induction false} EndsWithTrans(x: string, y: string, s: string)
    requires EndsWith(x, y) && EndsWith(y, s)
    ensures EndsWith(x, s)
    decreases |s|
  {
    if |y| < |s| {
      EndsWithTrans(x, y, s[1..]);
    }
  }

  lemma {:induction false} NotInEnd(c: char, x: string, s: string)
    requires EndsWith(x, s) && c !in s
    ensures c !in x
    decreases |s|
  {
    if |x| < |s| {
      assert forall i :: 0 <= i < |s| - 1 ==> s[1..][i] == s[i + 1];
      NotInEnd(c, x, s[1..]);
    }
  }

  lemma StripDropSpaces(s: string, k: nat)
    requires k <= |s| && forall i :: 0 <= i < k ==> IsSpace(s[i])
    ensures Strip(s[k..]) == Strip(s)
  {
    var t := s[k..];
    LeadingSpacesDrop(s, k);
    var u := s[LeadingSpaces(s)..];
    assert t[LeadingSpaces(t)..] == u;
    assert Strip(t) == u[..|u| - TrailingSpaces(u)];
    assert Strip(s) == u[..|u| - TrailingSpaces(u)];
  }

  lemma {:induction false} LeadingSpacesDrop(s: string, k: nat)
    requires k <= |s| && forall i :: 0 <= i < k ==> IsSpace(s[i])
    ensures LeadingSpaces(s) == k + LeadingSpaces(s[k..])
    decreases k
  {
    if k > 0 {
      assert s[1..][k - 1..] == s[k..];
      LeadingSpacesDrop(s[1..], k - 1);
    }
  }

  /** Whether the rest of the date line starts with the time the regex
      takes: whitespace, `HH:MM`, and then a possible location. */
  predicate HasTime(rest: string) {
    var w := LeadingSpaces(rest);
    w >= 1 && w + 5 <= |rest| && IsTimeText(rest[w..w + 5]) && LocationFits(rest[w + 5..])
  }

  /** Where the time ends, or 0 without one. */
  function TimeEnd(rest: string): (k: nat)
    ensures k <= |rest|
  {
    if HasTime(rest) then LeadingSpaces(rest) + 5 else 0
  }

  /** The `time` group, when there is one. */
  function TimeText(rest: string): (r: Option<string>)
    ensures r.Some? <==> HasTime(rest)
    ensures r.Some? ==> IsTimeText(r.value)
  {
    if HasTime(rest) then Some(rest[LeadingSpaces(rest)..LeadingSpaces(rest) + 5]) else None
  }

  /** Everything after `DD.MM.YYYY` on the date line: the optional `time`
      and the optional raw `location`, as the regex's backtracking settles
      them; `None` where no match exists. The location is a non-empty
      suffix of the line. */
  function DateLineTail(rest: string): (r: Option<(Option<string>, Option<string>)>)
    ensures r.Some? && r.value.0.Some? ==> IsTimeText(r.value.0.value)
    ensures r.Some? && r.value.1.Some? ==> |r.value.1.value| > 0 && EndsWith(r.value.1.value, rest)
  {
    var k := TimeEnd(rest);
    if LocationFits(rest[k..]) then
      LocationIsSuffix(rest, k);
      Some((TimeText(rest), RawLocation(rest[k..])))
    else None
  }

  /** A suffix of `s[k..]`, if any, is a suffix of `s`. */
  lemma EndsWithAfterDrop(s: string, k: nat, x: Option<string>)
    requires k <= |s| && (x.Some? ==> EndsWith(x.value, s[k..]))
    ensures x.Some? ==> EndsWith(x.value, s)
  {
    if x.Some? {
      DropEndsWith(s, k);
      EndsWithTrans(x.value, s[k..], s);
    }
  }

  lemma LocationIsSuffix(rest: string, k: nat)
    requires k <= |rest| && LocationFits(rest[k..])
    ensures var loc := RawLocation(rest[k..]);
            loc.Some? ==> |loc.value| > 0 && EndsWith(loc.value, rest)
  {
    var loc := RawLocation(rest[k..]);
    if loc.Some? {
      DropEndsWith(rest, k);
      EndsWithTrans(loc.value, rest[k..], rest);
    }
  }

  /** Index of the first `*` in `s`, if any. */
  function FindStar(s: string): (r: Option<nat>)
    ensures r.Some? ==> r.value < |s| && s[r.value] == '*' && '*' !in s[..r.value]
    ensures r.None? ==> '*' !in s
  {
    if |s| == 0 then None
    else if s[0] == '*' then Some(0)
    else match FindStar(s[1..])
      case None => None
      case Some(i) =>
        assert s[..i + 1] == [s[0]] + s[1..][..i];
        Some(i + 1)
  }

  function LeadingDigits(s: string): (n: nat)
    ensures n <= |s| && AllDigits(s[..n])
    ensures n < |s| ==> !IsDigit(s[n])
  {
    if |s| == 0 || !IsDigit(s[0]) then 0
    else
      var n := LeadingDigits(s[1..]);
      assert s[..n + 1] == [s[0]] + s[1..][..n];
      n + 1
  }

  /** The optional `\s+(\d+(?:\.\d{2})?)\s+(EUR|USD)` after `CHF`; both groups
      or neither. */
  function ForeignPart(tail: string): (r: (Option<string>, Option<string>))
    ensures r.0.Some? <==> r.1.Some?
    ensures r.0.Some? ==> IsForeignAmountText(r.0.value) && IsCurrency(r.1.value)
  {
    var w1 := LeadingSpaces(tail);
    var t1 := tail[w1..];
    var d := LeadingDigits(t1);
    if w1 == 0 || d == 0 then (None, None)
    else
      var f := if d + 3 <= |t1| && t1[d] == '.' && IsDigit(t1[d + 1]) && IsDigit(t1[d + 2]) then d + 3 else d;
      var t2 := t1[f..];
      var w2 := LeadingSpaces(t2);
      var t3 := t2[w2..];
      if w2 >= 1 && (IsPrefix("EUR", t3) || IsPrefix("USD", t3)) then
        assert IsForeignAmountText(t1[..f]) by {
          if f == d + 3 {
            assert t1[..f][..d] == t1[..d];
          }
        }
        (Some(t1[..f]), Some(t3[..3]))
      else (None, None)
  }

  /** The amount line `*amount*\s+CHF…`: the amount text and the foreign part. */
  function AmountLine(line: string): (r: Option<(string, (Option<string>, Option<string>))>)
    ensures r.Some? ==> IsAmountText(r.value.0) && (r.value.1.0.Some? <==> r.value.1.1.Some?)
    ensures r.Some? && r.value.1.0.Some? ==>
              IsForeignAmountText(r.value.1.0.value) && IsCurrency(r.value.1.1.value)
  {
    if |line| == 0 || line[0] != '*' then None
    else match FindStar(line[1..])
      case None => None
      case Some(k) =>
        var amount := line[1..k + 1];
        var after := line[k + 2..];
        var w := LeadingSpaces(after);
        if IsAmountText(amount) && w >= 1 && IsPrefix("CHF", after[w..]) then
          Some((amount, ForeignPart(after[w + 3..])))
        else None
  }

  /** `\*([^*]+)\*` filling the whole line: the merchant text. */
  function MerchantLine(line: string): (r: Option<string>)
    ensures r.Some? ==> |r.value| > 0 && '*' !in r.value
    ensures r.Some? ==> 3 <= |line| && r.value == line[1..|line| - 1]
  {
    if |line| < 3 || line[0] != '*' || line[|line| - 1] != '*' || '*' in line[1..|line| - 1] then None
    else Some(line[1..|line| - 1])
  }

  /** `DD.MM.YYYY[ HH:MM][ location]` filling the whole line. */
  function DateLine(line: string): (r: Option<(string, Option<string>, Option<string>)>)
    ensures r.Some? ==> IsDateText(r.value.0)
    ensures r.Some? && r.value.1.Some? ==> IsTimeText(r.value.1.value)
    ensures r.Some? && r.value.2.Some? ==> |r.value.2.value| > 0 && EndsWith(r.value.2.value, line)
  {
    if |line| < 10 || !IsDateText(line[..10]) then None
    else
      var tail := DateLineTail(line[10..]);
      if tail.None? then None
      else
        EndsWithAfterDrop(line, 10, tail.value.1);
        Some((line[..10], tail.value.0, tail.value.1))
  }

  lemma NotInSlice(c: char, s: string, i: nat, j: nat)
    requires i <= j <= |s| && c !in s
    ensures c !in s[i..j]
  {
  }

  /** One attempt of the block regex at the start of line `ls[0]`: five
      consecutive lines category, blank, merchant, date, amount. */
  function MatchBlock(ls: seq<string>): (r: Option<RawBlock>)
    requires |ls| == 5
    requires forall i :: 0 <= i < 5 ==> '\n' !in ls[i]
    ensures r.Some? ==> MatchedShape(r.value)
  {
    if |ls[0]| == 0 || '*' in ls[0] || ls[1] != "" then None
    else match (MerchantLine(ls[2]), DateLine(ls[3]), AmountLine(ls[4]))
      case (Some(merchant), Some((date, time, location)), Some((chf, (fa, fc)))) =>
        NotInSlice('\n', ls[2], 1, |ls[2]| - 1);
        assert location.Some? ==> '\n' !in location.value by {
          if location.Some? {
            NotInEnd('\n', location.value, ls[3]);
          }
        }
        Some(RawBlock(ls[0], merchant, date, time, location, chf, fa, fc))
      case _ => None
  }

  /** A block matches with the groups its three structured lines give. */
  lemma MatchBlockParts(ls: seq<string>, merchant: string, dl: (string, Option<string>, Option<string>),
                        al: (string, (Option<string>, Option<string>)))
    requires |ls| == 5 && forall i :: 0 <= i < 5 ==> '\n' !in ls[i]
    requires |ls[0]| > 0 && '*' !in ls[0] && ls[1] == ""
    requires MerchantLine(ls[2]) == Some(merchant) && DateLine(ls[3]) == Some(dl) && AmountLine(ls[4]) == Some(al)
    ensures MatchBlock(ls) == Some(RawBlock(ls[0], merchant, dl.0, dl.1, dl.2, al.0, al.1.0, al.1.1))
  {
  }

  // ------------------------------------------------------------ decoding

  datatype BlockError = BadNumber | BadDate | Rejected(reason: TransactionError)

  /** What every parsed transaction looks like. */
  predicate ParsedShape(t: Transaction) {
    && Valid(t)
    && Trimmed(t.category) && '*' !in t.category && '\n' !in t.category
    && Trimmed(t.merchant) && '*' !in t.merchant && '\n' !in t.merchant
    && (t.time.Some? ==> IsTimeText(t.time.value))
    && (t.location.Some? ==> Trimmed(t.location.value) && '\n' !in t.location.value)
    && (t.foreignAmount.Some? <==> t.foreignCurrency.Some?)
    && (t.foreignAmount.Some? ==> t.foreignAmount.value >= 0)
    && (t.foreignCurrency.Some? ==> IsCurrency(t.foreignCurrency.value))
  }

  lemma StripNotIn(c: char, s: string)
    ensures c !in s ==> c !in Strip(s)
  {
    StripSlice(s);
    var i, j :| 0 <= i <= j <= |s| && Strip(s) == s[i..j];
    if c !in s {
      NotInSlice(c, s, i, j);
    }
  }

  /** `float(foreignAmountStr) if foreignAmountStr else None`; `None` where
      `float` would raise. */
  function DecodeForeign(fa: Option<string>): (r: Option<Option<int>>)
    ensures fa.None? ==> r == Some(None)
    ensures fa.Some? && IsForeignAmountText(fa.value) ==> r.Some? && r.value.Some? && r.value.value >= 0
  {
    match fa
    case None => Some(None)
    case Some(x) =>
      assert IsForeignAmountText(x) ==> IsAmountText(x) && (|x| == 0 || x[0] != '-');
      match DecodeAmount(x)
      case None => None
      case Some(v) => Some(Some(v))
  }

  /** `_parseTransactionMatch`: trim category, merchant and location, convert
      the amounts, parse the date, then construct. */
  function DecodeBlock(b: RawBlock): (r: Result<Transaction, BlockError>)
    ensures r.Ok? ==> Valid(r.value)
  {
    match DecodeAmount(b.amountChf)
    case None => Err(BadNumber)
    case Some(amount) =>
      match DecodeDate(b.date)
      case None => Err(BadDate)
      case Some(date) =>
        match DecodeForeign(b.foreignAmount)
        case None => Err(BadNumber)
        case Some(foreign) =>
          var location := if b.location.Some? then Some(Strip(b.location.value)) else None;
          match NewTransaction(Strip(b.category), Strip(b.merchant), date, b.time, location,
                               amount, foreign, b.foreignCurrency)
          case Ok(t) => Ok(t)
          case Err(e) => Err(Rejected(e))
  }

  /** A match decodes exactly when its date is a calendar date and its
      amount is not zero. */
  lemma DecodeBlockAccepts(b: RawBlock)
    requires MatchedShape(b)
    ensures DecodeBlock(b).Ok? <==> DecodeDate(b.date).Some? && DecodeAmount(b.amountChf) != Some(0)
  {
    var foreign := DecodeForeign(b.foreignAmount);
    assert foreign.Some? && (foreign.value.Some? <==> b.foreignCurrency.Some?);
  }

  /** A decoded transaction holds the trimmed texts, the decoded numbers
      and the captured time and currency. */
  lemma DecodeBlockFields(b: RawBlock)
    requires DecodeBlock(b).Ok?
    ensures var t := DecodeBlock(b).value;
            && t.category == Strip(b.category) && t.merchant == Strip(b.merchant)
            && t.time == b.time && t.foreignCurrency == b.foreignCurrency
            && Some(t.amount) == DecodeAmount(b.amountChf)
            && Some(t.date) == DecodeDate(b.date)
            && Some(t.foreignAmount) == DecodeForeign(b.foreignAmount)
            && t.location == (if b.location.Some? then Some(Strip(b.location.value)) else None)
  {
    var amount := DecodeAmount(b.amountChf).value;
    var date := DecodeDate(b.date).value;
    var foreign := DecodeForeign(b.foreignAmount).value;
    var location := if b.location.Some? then Some(Strip(b.location.value)) else None;
    var r := NewTransaction(Strip(b.category), Strip(b.merchant), date, b.time, location,
                            amount, foreign, b.foreignCurrency);
    assert DecodeBlock(b) == Ok(r.value);
  }

  /** Every transaction decoded from a match has the parsed shape. */
  lemma DecodedShape(b: RawBlock)
    requires MatchedShape(b) && DecodeBlock(b).Ok?
    ensures ParsedShape(DecodeBlock(b).value)
  {
    DecodeBlockFields(b);
    StripNotIn('*', b.category);
    StripNotIn('\n', b.category);
    StripNotIn('*', b.merchant);
    StripNotIn('\n', b.merchant);
    if b.location.Some? {
      StripNotIn('\n', b.location.value);
    }
  }

  // ------------------------------------------------------------ the scan

  /** `TRANSACTION_PATTERN.finditer`: every match, in order of appearance. A
      match consumes its five lines; a failed attempt moves on one line. */
  function Matches(ls: seq<string>): (r: seq<RawBlock>)
    requires forall i :: 0 <= i < |ls| ==> '\n' !in ls[i]
    ensures forall i :: 0 <= i < |r| ==> MatchedShape(r[i])
    ensures 5 * |r| <= |ls|
    decreases |ls|
  {
    if |ls| < 5 then []
    else match MatchBlock(ls[..5])
      case Some(b) => [b] + Matches(ls[5..])
      case None => Matches(ls[1..])
  }

  /** The `try`/`except` loop of `parse`: a match whose decoding raises is
      dropped and the loop goes on with the next match. */
  function ParseMatches(ms: seq<RawBlock>): (r: seq<Transaction>)
    ensures |r| <= |ms|
  {
    CollectAtMostOne(Decoded, ms);
    Collect(Decoded, ms)
  }

  /** The outputs of `f` over `xs`, laid end to end. */
  function Collect<A, B>(f: A -> seq<B>, xs: seq<A>): seq<B> {
    if |xs| == 0 then [] else f(xs[0]) + Collect(f, xs[1..])
  }

  /** At most one output per element gives at most one per element overall. */
  lemma {:induction false} CollectAtMostOne<A, B>(f: A -> seq<B>, xs: seq<A>)
    requires forall x :: |f(x)| <= 1
    ensures |Collect(f, xs)| <= |xs|
  {
    if |xs| > 0 {
      CollectAtMostOne(f, xs[1..]);
    }
  }

  /** Collecting is per element: the outputs over two runs are the outputs
      over each run, in order. */
  lemma {:induction false} CollectAppend<A, B>(f: A -> seq<B>, a: seq<A>, b: seq<A>)
    ensures Collect(f, a + b) == Collect(f, a) + Collect(f, b)
  {
    if |a| == 0 {
      assert a + b == b;
    } else {
      assert (a + b)[0] == a[0];
      assert (a + b)[1..] == a[1..] + b;
      CollectAppend(f, a[1..], b);
    }
  }

  /** `f` yields exactly the same-index element of `ys` for each of `xs`. */
  ghost predicate Yields<A, B>(f: A -> seq<B>, xs: seq<A>, ys: seq<B>) {
    |xs| == |ys| && (|xs| > 0 ==> f(xs[0]) == [ys[0]] && Yields(f, xs[1..], ys[1..]))
  }

  /** One output per element collects to exactly those outputs. */
  lemma {:induction false} CollectSingles<A, B>(f: A -> seq<B>, xs: seq<A>, ys: seq<B>)
    requires Yields(f, xs, ys)
    ensures Collect(f, xs) == ys
  {
    if |xs| > 0 {
      CollectSingles(f, xs[1..], ys[1..]);
      assert ys == [ys[0]] + ys[1..];
    }
  }

  /** Every transaction the loop yields from matches has the parsed shape. */
  lemma {:induction false} ParseMatchesShape(ms: seq<RawBlock>)
    requires forall i :: 0 <= i < |ms| ==> MatchedShape(ms[i])
    ensures forall i :: 0 <= i < |ParseMatches(ms)| ==> ParsedShape(ParseMatches(ms)[i])
  {
    if |ms| > 0 {
      ParseMatchesShape(ms[1..]);
      if DecodeBlock(ms[0]).Ok? {
        DecodedShape(ms[0]);
      }
      ShapesAppend(Decoded(ms[0]), ParseMatches(ms[1..]));
    }
  }

  lemma ShapesAppend(a: seq<Transaction>, b: seq<Transaction>)
    requires forall i :: 0 <= i < |a| ==> ParsedShape(a[i])
    requires forall i :: 0 <= i < |b| ==> ParsedShape(b[i])
    ensures forall i :: 0 <= i < |a + b| ==> ParsedShape((a + b)[i])
  {
    assert forall i :: 0 <= i < |a + b| ==> (a + b)[i] == if i < |a| then a[i] else b[i - |a|];
  }

  /** The transaction a match yields, or nothing when decoding raises. */
  function Decoded(b: RawBlock): (r: seq<Transaction>)
    ensures |r| <= 1
  {
    match DecodeBlock(b) case Ok(t) => [t] case Err(_) => []
  }

  /** `TextParser.parse` over a whole document. */
  function Parse(text: string): (r: seq<Transaction>)
    ensures forall i :: 0 <= i < |r| ==> ParsedShape(r[i])
    ensures 5 * |r| <= |SplitLines(text)|
  {
    var ms := Matches(SplitLines(text));
    ParseMatchesShape(ms);
    ParseMatches(ms)
  }

  /** Decoding is per match: the transactions of two runs of matches are the
      transactions of each run, in order. */
  lemma ParseMatchesAppend(a: seq<RawBlock>, b: seq<RawBlock>)
    ensures ParseMatches(a + b) == ParseMatches(a) + ParseMatches(b)
  {
    CollectAppend(Decoded, a, b);
  }

  /** A match that fails to decode leaves no transaction and does not stop
      the ones after it. */
  lemma SkipFailedMatch(before: seq<RawBlock>, bad: RawBlock, after: seq<RawBlock>)
    requires DecodeBlock(bad).Err?
    ensures ParseMatches(before + [bad] + after) == ParseMatches(before) + ParseMatches(after)
  {
    assert Decoded(bad) == [];
    CollectSkip(Decoded, before, bad, after);
  }

  /** An element without output leaves the outputs around it as they are. */
  lemma CollectSkip<A, B>(f: A -> seq<B>, before: seq<A>, x: A, after: seq<A>)
    requires f(x) == []
    ensures Collect(f, before + [x] + after) == Collect(f, before) + Collect(f, after)
  {
    var one := [x];
    assert Collect(f, one) == [] by {
      assert one[1..] == [];
    }
    CollectAppend(f, before, one);
    CollectAppend(f, before + one, after);
  }

  /** A block dated the 31st of February is dropped, whatever else it holds. */
  lemma ImpossibleDateSkipped(b: RawBlock)
    requires b.date == "31.02.2025"
    ensures DecodeBlock(b).Err? && Decoded(b) == []
  {
    DateExampleImpossible();
  }

  /** A document with fewer than five lines, the empty one in particular,
      holds no transaction. */
  lemma ShortTextIsEmpty(text: string)
    requires |SplitLines(text)| < 5
    ensures Parse(text) == []
  {
  }

  lemma EmptyTextIsEmpty()
    ensures Parse("") == []
  {
  }

  /** Lines free of line breaks, as splitting produces them. */
  predicate LineFree(ls: seq<string>) {
    forall i :: 0 <= i < |ls| ==> '\n' !in ls[i]
  }

  /** Blocks of lines laid end to end. */
  function Concat(blocks: seq<seq<string>>): (r: seq<string>)
    ensures (forall k :: 0 <= k < |blocks| ==> |blocks[k]| == 5) ==> |r| == 5 * |blocks|
  {
    if |blocks| == 0 then [] else blocks[0] + Concat(blocks[1..])
  }

  /** Once a five-line block matches, the scan resumes right after it. */
  lemma MatchesCons(block: seq<string>, b: RawBlock, rest: seq<string>)
    requires |block| == 5 && LineFree(block) && LineFree(rest)
    requires MatchBlock(block) == Some(b)
    ensures LineFree(block + rest) && Matches(block + rest) == [b] + Matches(rest)
  {
    var ls := block + rest;
    assert ls[..5] == block && ls[5..] == rest;
  }

  /** Each block of `blocks` is five lines that match as the same-index
      element of `ms`. */
  predicate BlocksMatch(blocks: seq<seq<string>>, ms: seq<RawBlock>) {
    |blocks| == |ms|
    && (|blocks| > 0 ==>
          |blocks[0]| == 5 && LineFree(blocks[0]) && MatchBlock(blocks[0]) == Some(ms[0])
          && BlocksMatch(blocks[1..], ms[1..]))
  }

  lemma {:induction false} BlocksLineFree(blocks: seq<seq<string>>, ms: seq<RawBlock>)
    requires BlocksMatch(blocks, ms)
    ensures LineFree(Concat(blocks))
  {
    if |blocks| > 0 {
      BlocksLineFree(blocks[1..], ms[1..]);
      LineFreeAppend(blocks[0], Concat(blocks[1..]));
    }
  }

  lemma LineFreeAppend(a: seq<string>, b: seq<string>)
    requires LineFree(a) && LineFree(b)
    ensures LineFree(a + b)
  {
    assert forall i :: 0 <= i < |a + b| ==> (a + b)[i] == (if i < |a| then a[i] else b[i - |a|]);
  }

  lemma AppendAssoc<T>(a: seq<T>, b: seq<T>, c: seq<T>)
    ensures (a + b) + c == a + (b + c)
  {
  }

  /** Consecutive blocks that each match are found one after the other, and
      a tail too short for a block adds nothing. */
  lemma {:induction false} MatchesConcat(blocks: seq<seq<string>>, ms: seq<RawBlock>, tail: seq<string>)
    requires BlocksMatch(blocks, ms) && |tail| < 5 && LineFree(tail)
    ensures LineFree(Concat(blocks) + tail) && Matches(Concat(blocks) + tail) == ms
  {
    BlocksLineFree(blocks, ms);
    LineFreeAppend(Concat(blocks), tail);
    if |blocks| == 0 {
      assert Concat(blocks) + tail == tail;
    } else {
      var rest := Concat(blocks[1..]) + tail;
      MatchesConcat(blocks[1..], ms[1..], tail);
      assert Concat(blocks) == blocks[0] + Concat(blocks[1..]);
      AppendAssoc(blocks[0], Concat(blocks[1..]), tail);
      MatchesCons(blocks[0], ms[0], rest);
      assert ms == [ms[0]] + ms[1..];
    }
  }

  /** Each match of `ms` decodes to the same-index transaction of `ts`. */
  ghost predicate DecodesTo(ms: seq<RawBlock>, ts: seq<Transaction>) {
    Yields(Decoded, ms, ts)
  }

  /** Matches that all decode give exactly their transactions, in order. */
  lemma ParseDecodable(ms: seq<RawBlock>, ts: seq<Transaction>)
    requires DecodesTo(ms, ts)
    ensures ParseMatches(ms) == ts
  {
    CollectSingles(Decoded, ms, ts);
  }
}
