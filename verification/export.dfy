/** The card issuer's export text, written out from transactions, and the
    proof that the block parser reads every such rendering back: the
    five-line grammar, the field decoders and the skip-on-error scan agree
    with each other on every transaction the format can express. */
module ExportText {
  import opened Wrappers
  import opened Text
  import opened Calendar
  import opened Transactions
  import opened TextParser
  import opened Formats

  /** A time at the head of a location would be read as the time. */
  predicate LooksLikeTime(loc: string) {
    |loc| >= 5 && IsTimeText(loc[..5]) && LocationFits(loc[5..])
  }

  /** The transactions the export format can express: the parsed shape,
      a non-empty category and merchant, and a location that is not empty
      and, when there is no time, does not start like one. */
  predicate Renderable(t: Transaction) {
    && ParsedShape(t)
    && |t.category| > 0 && |t.merchant| > 0
    && (t.location.Some? ==> |t.location.value| > 0)
    && (t.location.Some? && t.time.None? ==> !LooksLikeTime(t.location.value))
  }

  function TimeSuffix(t: Transaction): string {
    if t.time.Some? then " " + t.time.value else ""
  }

  function LocationSuffix(t: Transaction): string {
    if t.location.Some? then " " + t.location.value else ""
  }

  /** `DD.MM.YYYY[ HH:MM][ location]` */
  function DateLineText(t: Transaction): string {
    FormatDateLong(t.date) + TimeSuffix(t) + LocationSuffix(t)
  }

  function ForeignSuffix(t: Transaction): string {
    if t.foreignAmount.Some? && t.foreignCurrency.Some? then
      " " + FormatCents(t.foreignAmount.value) + " " + t.foreignCurrency.value
    else ""
  }

  /** `*amount*  CHF[ foreignAmount CUR]` */
  function AmountLineText(t: Transaction): string {
    "*" + FormatCents(t.amount) + "*  CHF" + ForeignSuffix(t)
  }

  /** The five lines of one block. */
  function BlockLines(t: Transaction): (r: seq<string>)
    ensures |r| == 5
  {
    [t.category, "", "*" + t.merchant + "*", DateLineText(t), AmountLineText(t)]
  }

  /** The groups a match of `BlockLines(t)` captures. */
  function CapturedGroups(t: Transaction): RawBlock {
    RawBlock(t.category, t.merchant, FormatDateLong(t.date), t.time, t.location,
             FormatCents(t.amount),
             if t.foreignAmount.Some? then Some(FormatCents(t.foreignAmount.value)) else None,
             t.foreignCurrency)
  }

  function CapturedAll(ts: seq<Transaction>): (r: seq<RawBlock>)
    ensures |r| == |ts|
  {
    if |ts| == 0 then [] else [CapturedGroups(ts[0])] + CapturedAll(ts[1..])
  }

  function RenderBlocks(ts: seq<Transaction>): (r: seq<seq<string>>)
    ensures |r| == |ts|
  {
    if |ts| == 0 then [] else [BlockLines(ts[0])] + RenderBlocks(ts[1..])
  }

  /** A whole export: the blocks one after another, each line ended by a newline. */
  function Render(ts: seq<Transaction>): string {
    JoinLines(Concat(RenderBlocks(ts)) + [""])
  }

  // ------------------------------------------------------------ one line each

  lemma MerchantLineRoundTrip(m: string)
    requires |m| > 0 && '*' !in m
    ensures MerchantLine("*" + m + "*") == Some(m)
  {
    var line := "*" + m + "*";
    assert line[1..|line| - 1] == m;
  }

  lemma FormattedDateIsDateText(d: CalendarDate)
    ensures IsDateText(FormatDateLong(d))
  {
    var s := FormatDateLong(d);
    var dd, mm, yyyy := Fixed(d.day, 2), Fixed(d.month, 2), Fixed(d.year, 4);
    assert s[..2] == dd && s[3..5] == mm && s[6..10] == yyyy;
    assert forall i :: 0 <= i < 2 ==> s[i] == dd[i];
    assert forall i :: 3 <= i < 5 ==> s[i] == mm[i - 3];
    assert forall i :: 6 <= i < 10 ==> s[i] == yyyy[i - 6];
  }

  lemma SpaceNotDigit()
    ensures IsSpace(' ') && !IsDigit(' ')
  {
  }

  lemma SpaceThenText(l: string)
    requires |l| > 0 && !IsSpace(l[0])
    ensures LeadingSpaces(" " + l) == 1 && (" " + l)[1..] == l
  {
    assert (" " + l)[1..] == l;
  }

  lemma LocationAfterSpace(l: string)
    requires |l| > 0 && !IsSpace(l[0])
    ensures LocationFits(" " + l) && RawLocation(" " + l) == Some(l)
  {
    SpaceThenText(l);
  }

  function SpacedLocation(loc: Option<string>): string {
    if loc.Some? then " " + loc.value else ""
  }

  lemma RawSpacedLocation(loc: Option<string>)
    requires loc.Some? ==> |loc.value| > 0 && !IsSpace(loc.value[0])
    ensures LocationFits(SpacedLocation(loc)) && RawLocation(SpacedLocation(loc)) == loc
  {
    if loc.Some? {
      LocationAfterSpace(loc.value);
    }
  }

  /** With a time: ` HH:MM` and then the spaced location, if any. */
  lemma TailWithTime(time: string, loc: Option<string>)
    requires IsTimeText(time)
    requires loc.Some? ==> |loc.value| > 0 && !IsSpace(loc.value[0])
    ensures DateLineTail(" " + time + SpacedLocation(loc)) == Some((Some(time), loc))
  {
    var rest := " " + time + SpacedLocation(loc);
    assert rest == " " + (time + SpacedLocation(loc));
    SpaceThenText(time + SpacedLocation(loc));
    assert rest[1..6] == time && rest[6..] == SpacedLocation(loc);
    RawSpacedLocation(loc);
  }

  /** Without a time: the spaced location, which must not start like a time. */
  lemma TailWithoutTime(loc: Option<string>)
    requires loc.Some? ==> |loc.value| > 0 && !IsSpace(loc.value[0]) && !LooksLikeTime(loc.value)
    ensures DateLineTail(SpacedLocation(loc)) == Some((None, loc))
  {
    var rest := SpacedLocation(loc);
    RawSpacedLocation(loc);
    if loc.Some? {
      var l := loc.value;
      SpaceThenText(l);
      assert |rest| >= 6 ==> rest[1..6] == l[..5] && rest[6..] == l[5..];
    }
  }

  /** The tail after the date: one space before each present field. */
  lemma DateTailRoundTrip(t: Transaction)
    requires Renderable(t)
    ensures DateLineTail(TimeSuffix(t) + LocationSuffix(t)) == Some((t.time, t.location))
  {
    assert LocationSuffix(t) == SpacedLocation(t.location);
    if t.time.Some? {
      TailWithTime(t.time.value, t.location);
    } else {
      assert TimeSuffix(t) + LocationSuffix(t) == SpacedLocation(t.location);
      TailWithoutTime(t.location);
    }
  }

  lemma DateLineRoundTrip(t: Transaction)
    requires Renderable(t)
    ensures DateLine(DateLineText(t)) == Some((FormatDateLong(t.date), t.time, t.location))
  {
    var line := DateLineText(t);
    FormattedDateIsDateText(t.date);
    assert line[..10] == FormatDateLong(t.date);
    assert line[10..] == TimeSuffix(t) + LocationSuffix(t);
    DateTailRoundTrip(t);
  }

  lemma {:induction false} LeadingDigitsOfAmount(digits: string, rest: string)
    requires |digits| >= 1 && AllDigits(digits) && (|rest| == 0 || !IsDigit(rest[0]))
    ensures LeadingDigits(digits + rest) == |digits|
    decreases |digits|
  {
    if |digits| > 1 {
      assert (digits + rest)[1..] == digits[1..] + rest;
      LeadingDigitsOfAmount(digits[1..], rest);
    } else {
      assert (digits + rest)[1..] == rest;
    }
  }

  lemma ForeignAmountScan(digits: string, frac: string, rest: string)
    requires |digits| >= 1 && AllDigits(digits) && |frac| == 2 && AllDigits(frac)
    requires |rest| > 0 && rest[0] == ' '
    ensures var t1 := digits + "." + frac + rest;
            var d := |digits|;
            && LeadingDigits(t1) == d && d + 3 <= |t1|
            && t1[d] == '.' && IsDigit(t1[d + 1]) && IsDigit(t1[d + 2])
            && t1[..d + 3] == digits + "." + frac && t1[d + 3..] == rest
  {
    var t1 := digits + "." + frac + rest;
    assert t1 == digits + ("." + frac + rest);
    LeadingDigitsOfAmount(digits, "." + frac + rest);
  }

  lemma CurrencyScan(cur: string)
    requires IsCurrency(cur)
    ensures LeadingSpaces(" " + cur) == 1 && (" " + cur)[1..] == cur
    ensures IsPrefix("EUR", cur) || IsPrefix("USD", cur)
    ensures cur[..3] == cur
  {
    assert (" " + cur)[1..] == cur;
  }

  lemma ForeignPartOf(digits: string, frac: string, cur: string)
    requires |digits| >= 1 && AllDigits(digits) && |frac| == 2 && AllDigits(frac)
    requires IsCurrency(cur)
    ensures ForeignPart(" " + (digits + "." + frac) + " " + cur) == (Some(digits + "." + frac), Some(cur))
  {
    var tail := " " + (digits + "." + frac) + " " + cur;
    assert tail[1..] == digits + "." + frac + (" " + cur) && tail[0] == ' ';
    assert LeadingSpaces(tail) == 1 by {
      assert tail[1..][0] == digits[0];
    }
    ForeignAmountScan(digits, frac, " " + cur);
    CurrencyScan(cur);
  }

  /** ` x.xx CUR` after `CHF` is read as the foreign part. */
  lemma ForeignPartRoundTrip(fa: nat, cur: string)
    requires IsCurrency(cur)
    ensures ForeignPart(" " + FormatCents(fa) + " " + cur) == (Some(FormatCents(fa)), Some(cur))
  {
    ForeignPartOf(NatToDigits(fa / 100), Fixed(fa % 100, 2), cur);
  }

  lemma NoForeignPart()
    ensures ForeignPart("") == (None, None)
  {
  }

  /** `*a*  CHF` and the rest `f` of the line. */
  lemma AmountLineOf(a: string, f: string)
    requires IsAmountText(a) && '*' !in a
    ensures AmountLine("*" + a + "*  CHF" + f) == Some((a, ForeignPart(f)))
  {
    var line := "*" + a + "*  CHF" + f;
    assert line[1..] == a + "*" + ("  CHF" + f);
    assert FindStar(line[1..]) == Some(|a|) by {
      FindStarAfter(a, "  CHF" + f);
    }
    assert line[1..|a| + 1] == a;
    var after := line[|a| + 2..];
    assert after == "  CHF" + f;
    assert LeadingSpaces(after) == 2 by {
      assert after[1..][1..][0] == 'C';
    }
    assert after[2..] == "CHF" + f;
    assert IsPrefix("CHF", after[2..]) by {
      assert after[2..][..3] == "CHF";
    }
    assert after[5..] == f;
  }

  lemma AmountLineRoundTrip(t: Transaction)
    requires Renderable(t)
    ensures AmountLine(AmountLineText(t))
            == Some((FormatCents(t.amount), (CapturedGroups(t).foreignAmount, t.foreignCurrency)))
  {
    var f := ForeignSuffix(t);
    assert IsAmountText(FormatCents(t.amount)) by {
      AmountRoundTrip(t.amount);
    }
    AmountLineOf(FormatCents(t.amount), f);
    assert ForeignPart(f) == (CapturedGroups(t).foreignAmount, t.foreignCurrency) by {
      if t.foreignAmount.Some? {
        ForeignPartRoundTrip(t.foreignAmount.value, t.foreignCurrency.value);
      } else {
        NoForeignPart();
      }
    }
  }

  lemma FindStarAfter(a: string, rest: string)
    requires '*' !in a
    ensures FindStar(a + "*" + rest) == Some(|a|)
    decreases |a|
  {
    if |a| > 0 {
      assert (a + "*" + rest)[1..] == a[1..] + "*" + rest;
      FindStarAfter(a[1..], rest);
    }
  }

  // ------------------------------------------------------------ one block

  lemma DigitsNoNewline(s: string)
    requires AllDigits(s)
    ensures '\n' !in s
  {
    assert forall i :: 0 <= i < |s| ==> s[i] != '\n';
  }

  lemma DateLineNoNewline(t: Transaction)
    requires Renderable(t)
    ensures '\n' !in DateLineText(t)
  {
    DigitsNoNewline(Fixed(t.date.day, 2));
    DigitsNoNewline(Fixed(t.date.month, 2));
    DigitsNoNewline(Fixed(t.date.year, 4));
    if t.time.Some? {
      assert forall i :: 0 <= i < 5 ==> t.time.value[i] != '\n';
    }
  }

  lemma NoNewlineInBlock(t: Transaction)
    requires Renderable(t)
    ensures LineFree(BlockLines(t))
  {
    var ls := BlockLines(t);
    assert '\n' !in ls[2] by {
      assert ls[2] == "*" + t.merchant + "*";
    }
    assert '\n' !in ls[3] by {
      DateLineNoNewline(t);
    }
    assert '\n' !in ls[4] by {
      AmountLineNoNewline(t);
    }
    assert forall i :: 0 <= i < 5 ==> '\n' !in ls[i] by {
      assert ls[0] == t.category && ls[1] == "";
    }
  }

  lemma AmountLineNoNewline(t: Transaction)
    requires Renderable(t)
    ensures '\n' !in AmountLineText(t)
  {
    var f := ForeignSuffix(t);
    assert '\n' !in f by {
      if t.foreignAmount.Some? && t.foreignCurrency.Some? {
        var cur := t.foreignCurrency.value;
        assert cur == "EUR" || cur == "USD";
        assert '\n' !in cur;
        assert '\n' !in FormatCents(t.foreignAmount.value);
      }
    }
    assert '\n' !in FormatCents(t.amount);
  }

  /** The grammar matches the five rendered lines and captures the fields. */
  lemma MatchRendered(t: Transaction)
    requires Renderable(t)
    ensures LineFree(BlockLines(t)) && MatchBlock(BlockLines(t)) == Some(CapturedGroups(t))
  {
    var ls := BlockLines(t);
    var dl := (FormatDateLong(t.date), t.time, t.location);
    var al := (FormatCents(t.amount), (CapturedGroups(t).foreignAmount, t.foreignCurrency));
    assert LineFree(ls) && |ls[0]| > 0 && '*' !in ls[0] && ls[1] == "" by {
      NoNewlineInBlock(t);
    }
    assert MerchantLine(ls[2]) == Some(t.merchant) by {
      MerchantLineRoundTrip(t.merchant);
    }
    assert DateLine(ls[3]) == Some(dl) by {
      DateLineRoundTrip(t);
    }
    assert AmountLine(ls[4]) == Some(al) by {
      AmountLineRoundTrip(t);
    }
    MatchBlockParts(ls, t.merchant, dl, al);
  }

  /** Decoding the captured groups rebuilds the transaction. */
  lemma DecodeRendered(t: Transaction)
    requires Renderable(t)
    ensures DecodeBlock(CapturedGroups(t)) == Ok(t)
  {
    var b := CapturedGroups(t);
    AmountRoundTrip(t.amount);
    DateRoundTrip(t.date);
    StripTrimmed(t.category);
    StripTrimmed(t.merchant);
    if t.location.Some? {
      StripTrimmed(t.location.value);
    }
    if t.foreignAmount.Some? {
      AmountRoundTrip(t.foreignAmount.value);
      assert DecodeForeign(b.foreignAmount) == Some(t.foreignAmount);
    }
  }

  // ------------------------------------------------------------ whole exports

  lemma {:induction false} RenderedBlocksMatch(ts: seq<Transaction>)
    requires forall i :: 0 <= i < |ts| ==> Renderable(ts[i])
    ensures BlocksMatch(RenderBlocks(ts), CapturedAll(ts))
  {
    if |ts| > 0 {
      MatchRendered(ts[0]);
      RenderedBlocksMatch(ts[1..]);
    }
  }

  lemma {:induction false} RenderedDecodes(ts: seq<Transaction>)
    requires forall i :: 0 <= i < |ts| ==> Renderable(ts[i])
    ensures DecodesTo(CapturedAll(ts), ts)
  {
    if |ts| > 0 {
      DecodeRendered(ts[0]);
      RenderedDecodes(ts[1..]);
    }
  }

  /** Every sequence of expressible transactions, rendered as an export,
      is parsed back to exactly that sequence: one transaction per block, in
      order of appearance, with every field as it was. */
  lemma RenderParseRoundTrip(ts: seq<Transaction>)
    requires forall i :: 0 <= i < |ts| ==> Renderable(ts[i])
    ensures Parse(Render(ts)) == ts
  {
    var blocks := RenderBlocks(ts);
    RenderedBlocksMatch(ts);
    MatchesConcat(blocks, CapturedAll(ts), [""]);
    JoinSplit(Concat(blocks) + [""]);
    RenderedDecodes(ts);
    ParseDecodable(CapturedAll(ts), ts);
  }
}
