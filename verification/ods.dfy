/** The cell texts of the bookings spreadsheet: one header row of column
    names, then one row per booking entry with one cell per configured
    column. Building the ODF document itself is not part of this model. */
module Ods {
  import opened Wrappers
  import opened Calendar
  import opened Transactions
  import opened Config
  import opened Grouper
  import opened Mapper
  import opened Formats
  import TextParser

  /** `__addHeaderRow`: the column names, in configured order. */
  function Header(columns: seq<ColumnConfig>): (r: seq<string>)
    ensures |r| == |columns|
    ensures forall i :: 0 <= i < |columns| ==> r[i] == columns[i].name
  {
    seq(|columns|, i requires 0 <= i < |columns| => columns[i].name)
  }

  /** The date of an entry: the transaction's own, or the group's month end. */
  function EntryDate(e: BookingEntry): CalendarDate {
    match e
    case FromTxn(_, _, _, t) => t.date
    case FromGroup(_, _, _, g) => g.monthEndDate
  }

  /** The amount of an entry: the transaction's, or the group's total. */
  function EntryAmount(e: BookingEntry): int {
    match e
    case FromTxn(_, _, _, t) => t.amount
    case FromGroup(_, _, _, g) => g.totalAmount
  }

  /** `__formatDate`: a four-digit year only for the format `DD.MM.YYYY`. */
  function DateCell(e: BookingEntry, format: Option<string>): string {
    if format == Some("DD.MM.YYYY") then FormatDateLong(EntryDate(e)) else FormatDateShort(EntryDate(e))
  }

  /** `__formatAmount` */
  function AmountCell(e: BookingEntry): string {
    FormatCents(EntryAmount(e))
  }

  /** `__getRemarksValue`: currency and foreign amount of a transaction
      that has both, otherwise nothing. */
  function RemarksCell(e: BookingEntry): string {
    if e.FromTxn? && e.transaction.HasForeignCurrency() then
      e.transaction.foreignCurrency.value + " " + FormatCents(e.transaction.foreignAmount.value)
    else ""
  }

  /** `not column.type`: no type, or an empty one. */
  predicate Untyped(c: ColumnConfig) {
    c.columnType.None? || c.columnType.value == ""
  }

  /** `__getCellValue` */
  function CellValue(c: ColumnConfig, e: BookingEntry): string {
    if Untyped(c) then
      if c.name == "Bemerkungen" || c.name == "Bemerkung" then RemarksCell(e) else ""
    else
      match c.columnType.value
      case "date" => DateCell(e, c.format)
      case "description" => e.mappedDescription
      case "debitAccount" => e.debitAccount.GetOr("")
      case "creditAccount" => e.creditAccount
      case "amountChf" => AmountCell(e)
      case "remarks" => RemarksCell(e)
      case _ => ""
  }

  /** `__addDataRow`: one cell per configured column, in order. */
  function Row(columns: seq<ColumnConfig>, e: BookingEntry): (r: seq<string>)
    ensures |r| == |columns|
    ensures forall i :: 0 <= i < |columns| ==> r[i] == CellValue(columns[i], e)
  {
    seq(|columns|, i requires 0 <= i < |columns| => CellValue(columns[i], e))
  }

  /** `generate`: the header, then one row per entry. */
  function Sheet(columns: seq<ColumnConfig>, entries: seq<BookingEntry>): seq<seq<string>> {
    [Header(columns)] + Rows(columns, entries)
  }

  function Rows(columns: seq<ColumnConfig>, entries: seq<BookingEntry>): seq<seq<string>> {
    if |entries| == 0 then [] else [Row(columns, entries[0])] + Rows(columns, entries[1..])
  }

  /** The rows are the entries', one each and in entry order, and every row
      is as wide as the header. */
  lemma {:induction false} RowsLayout(columns: seq<ColumnConfig>, entries: seq<BookingEntry>)
    ensures |Rows(columns, entries)| == |entries|
    ensures forall i :: 0 <= i < |entries| ==> Rows(columns, entries)[i] == Row(columns, entries[i])
  {
    if |entries| > 0 {
      RowsLayout(columns, entries[1..]);
    }
  }

  /** The sheet is the header row followed by one row per entry, in order;
      every row has one cell per configured column. */
  lemma SheetLayout(columns: seq<ColumnConfig>, entries: seq<BookingEntry>)
    ensures |Sheet(columns, entries)| == |entries| + 1 && Sheet(columns, entries)[0] == Header(columns)
    ensures forall i :: 0 <= i < |entries| ==> Sheet(columns, entries)[i + 1] == Row(columns, entries[i])
    ensures forall i :: 0 <= i < |Sheet(columns, entries)| ==> |Sheet(columns, entries)[i]| == |columns|
  {
    var rs := Rows(columns, entries);
    var sh := Sheet(columns, entries);
    RowsLayout(columns, entries);
    assert forall i :: 0 <= i < |rs| ==> sh[i + 1] == rs[i];
    forall i | 0 <= i < |sh|
      ensures |sh[i]| == |columns|
    {
      if i > 0 {
        assert sh[i] == Row(columns, entries[i - 1]);
      }
    }
  }

  // ------------------------------------------------------------ what the cells hold

  /** The amount cell reads back as the entry's amount in cents. */
  lemma AmountCellReadsBack(e: BookingEntry)
    ensures TextParser.DecodeAmount(AmountCell(e)) == Some(EntryAmount(e))
  {
    AmountRoundTrip(EntryAmount(e));
  }

  /** With `DD.MM.YYYY` the date cell reads back as the entry's date; any
      other format, or none, drops the century. */
  lemma DateCellFormats(e: BookingEntry, format: Option<string>)
    ensures format == Some("DD.MM.YYYY") ==> TextParser.DecodeDate(DateCell(e, format)) == Some(EntryDate(e))
    ensures format != Some("DD.MM.YYYY") ==>
              DateCell(e, format) == FormatDateLong(EntryDate(e))[..6] + FormatDateLong(EntryDate(e))[8..]
  {
    DateRoundTrip(EntryDate(e));
    ShortDateDropsCentury(EntryDate(e));
  }

  /** A group's date cell shows the last day of its first member's month. */
  lemma GroupDateIsMonthEnd(e: BookingEntry)
    requires e.FromGroup? && |e.group.transactions| > 0
    requires e.group.monthEndDate == MonthEnd(e.group.transactions[0].date)
    ensures TextParser.DecodeDate(DateCell(e, Some("DD.MM.YYYY"))) == Some(MonthEnd(e.group.transactions[0].date))
    ensures !ValidDate(Date(EntryDate(e).year, EntryDate(e).month, EntryDate(e).day + 1))
  {
    DateRoundTrip(EntryDate(e));
  }

  /** The remarks cell is filled exactly for a transaction entry with both
      foreign fields; it then starts with the currency and a space, and its
      amount part reads back as the foreign amount. */
  lemma RemarksCellSpec(e: BookingEntry)
    ensures RemarksCell(e) != "" <==> e.FromTxn? && e.transaction.HasForeignCurrency()
    ensures e.FromGroup? ==> RemarksCell(e) == ""
    ensures e.FromTxn? && e.transaction.HasForeignCurrency() ==>
              var cur := e.transaction.foreignCurrency.value;
              && RemarksCell(e)[..|cur| + 1] == cur + " "
              && TextParser.DecodeAmount(RemarksCell(e)[|cur| + 1..]) == Some(e.transaction.foreignAmount.value)
  {
    if e.FromTxn? && e.transaction.HasForeignCurrency() {
      var cur, amount := e.transaction.foreignCurrency.value, FormatCents(e.transaction.foreignAmount.value);
      assert RemarksCell(e)[|cur| + 1..] == amount;
      assert RemarksCell(e)[..|cur| + 1] == cur + " ";
      AmountRoundTrip(e.transaction.foreignAmount.value);
    }
  }

  /** An untyped column shows the remarks when it is named `Bemerkungen`
      or `Bemerkung`, and nothing otherwise. */
  lemma UntypedCellSpec(c: ColumnConfig, e: BookingEntry)
    requires Untyped(c)
    ensures c.name != "Bemerkungen" && c.name != "Bemerkung" ==> CellValue(c, e) == ""
    ensures c.name == "Bemerkungen" || c.name == "Bemerkung" ==>
              CellValue(c, e) == RemarksCell(e)
  {
  }

  /** What each typed column shows for an entry; an unknown type shows
      nothing. */
  lemma TypedCellSpec(c: ColumnConfig, e: BookingEntry)
    requires !Untyped(c)
    ensures c.columnType == Some("debitAccount") ==> (CellValue(c, e) == "" <==> e.debitAccount.None? || e.debitAccount == Some(""))
    ensures c.columnType == Some("debitAccount") && e.debitAccount.Some? ==> CellValue(c, e) == e.debitAccount.value
    ensures c.columnType == Some("description") ==> CellValue(c, e) == e.mappedDescription
    ensures c.columnType == Some("creditAccount") ==> CellValue(c, e) == e.creditAccount
    ensures c.columnType == Some("amountChf") ==> TextParser.DecodeAmount(CellValue(c, e)) == Some(EntryAmount(e))
    ensures c.columnType == Some("date") ==> CellValue(c, e) == DateCell(e, c.format)
    ensures c.columnType == Some("date") && c.format == Some("DD.MM.YYYY") ==>
              TextParser.DecodeDate(CellValue(c, e)) == Some(EntryDate(e))
    ensures c.columnType == Some("remarks") ==> CellValue(c, e) == RemarksCell(e)
    ensures c.columnType.value !in ["date", "description", "debitAccount", "creditAccount", "amountChf", "remarks"] ==>
              CellValue(c, e) == ""
  {
    if c.columnType == Some("amountChf") {
      AmountCellReadsBack(e);
    } else if c.columnType == Some("date") {
      DateCellFormats(e, c.format);
    }
  }

  /** Example cell: a transaction date without a format. */
  lemma DateCellExample(t: Transaction)
    requires t.date == Date(2025, 7, 15)
    ensures DateCell(FromTxn("Coop", Some("4000"), "2000", t), None) == "15.07.25"
  {
    FormatDateShortExample();
  }

  /** Example cells: a group total of a payment, and the remarks of a
      transaction paid in euros. */
  lemma AmountCellExamples(t: Transaction, g: Group)
    requires t.foreignAmount == Some(430) && t.foreignCurrency == Some("EUR") && g.totalAmount == -15795
    ensures AmountCell(FromGroup("Fuel", None, "2000", g)) == "-157.95"
    ensures RemarksCell(FromTxn("Coop", Some("4000"), "2000", t)) == "EUR 4.30"
    ensures RemarksCell(FromGroup("Fuel", None, "2000", g)) == ""
  {
    FormatCentsNegativeExample();
    FormatCentsExample();
  }
}
