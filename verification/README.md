# oneCreditCard converter core in Dafny

This project models the decision logic of oneCreditCard. The converter reads a
credit-card export text, keeps the transactions of one month, and pools the
groupable ones into one group per category. It maps transactions and groups to
booking entries, then lays the entries out as spreadsheet cells. The model is
one pipeline of pure functions over immutable data:

text → `Transaction` → (individual list, `Group`s) → `BookingEntry` → cell strings.

| module (file) | models |
|---|---|
| `Transactions` (transaction.dfy) | the `Transaction` record, its constructor checks, `description` and `hasForeignCurrency` |
| `Calendar` (calendar.dfy) | Gregorian dates, the leap-year rule, `monthrange`'s last day of a month |
| `Patterns` (patterns.dfy) | `re.search(…, re.IGNORECASE)` and `re.compile`, given as an oracle value `Regex`; the grouper's substring fallback for patterns that do not compile |
| `Text` (text.dfy) | `str.strip`, `str.lower` (ASCII), digit strings, and splitting a text into lines |
| `TextParser` (text_parser.dfy) | the five-line `TRANSACTION_PATTERN` as a line recognizer, the field decoders (amounts in cents, `strptime` dates), and the `parse` loop that skips blocks whose construction raises |
| `Formats` (formats.dfy) | `f"{x:.2f}"` on cents and `strftime("%d.%m.%y")` / `("%d.%m.%Y")`, each with its inverse in the parser |
| `ExportText` (export.dfy) | a renderer of transactions into export text, and the round trip: parsing a rendering gives back the transactions |
| `Config` (config.dfy) | the JSON value, `__validateConfiguration` check by check, and the typed views `mappingRules`, `ignoreRules`, `columns`, core and optional columns |
| `Grouper` (grouper.dfy) | `__canGroup`, and `group` both as a specification and as the two-loop method |
| `Mapper` (mapper.dfy) | `BookingEntry` as a tagged union, the ignore rules, `__findMappingRule`, `mapTransactions`, `mapGroups` |
| `Ods` (ods.dfy) | the header row, the data rows and `__getCellValue` with its formatters |
| `Pipeline` (pipeline.dfy) | the month filter of `parseTransactions` and the order of `mapToBookingEntries` |

Amounts are integer cents throughout. A date is a `(year, month, day)` triple
that `ValidDate` accepts. Regular expressions are not interpreted. Every
operation that searches or compiles a pattern takes a `Regex` oracle
(`search`, `compiles`) as a parameter, so each property holds for any regex
engine. The grouper and the mapper are shown to agree relative to that oracle.

## Model

| member | source | states |
|---|---|---|
| Transactions.NewTransaction | src/parsers/transaction.py:17-21 | construction succeeds exactly when the amount is non-zero and a foreign amount comes with a currency; a zero amount is reported first; a constructed value keeps every field and satisfies the record invariant |
| Transactions.ForeignFlagOfValid | src/parsers/transaction.py:23-29 | on a constructed transaction `hasForeignCurrency` holds exactly when a foreign amount is present; `description` is the merchant |
| Transactions.ConstructionExamples | src/parsers/transaction.py:17-21 | a negative amount and a currency without an amount are accepted; an amount without a currency and a zero amount are refused with their own errors |
| Calendar.MonthEnd | src/transactionGrouper.py:85-87 | the month end lies in the same year and month, on or after the given day, and the following day does not exist |
| Calendar.DaysInMonth | src/transactionGrouper.py:85-87 | every month has between 28 and 31 days |
| Calendar.YearLength | src/transactionGrouper.py:85-87 | the month lengths add up to 366 days in a leap year and 365 otherwise |
| Calendar.MonthEndExamples | src/transactionGrouper.py:85-87 | February ends on the 29th in 2024 and 2000, on the 28th in 2025 and 1900; July 2025 ends on the 31st |
| Patterns.FallbackFindsVerbatim | src/transactionGrouper.py:78-83 | when a pattern does not compile, a merchant containing the pattern text is still matched, whatever the letter case |
| Text.StripSlice | src/parser/textParser.py:37-38 | `strip` removes whitespace only, and only at the two ends |
| Text.StripTrimmed | src/parser/textParser.py:37-38 | stripping a text that has no whitespace at either end leaves it unchanged |
| Text.Lower | src/accountMapper.py:72 | lowering keeps the length and lowers each character on its own |
| Text.SplitJoin | src/parser/textParser.py:26 | joining the lines of a text with newlines gives back the text |
| Text.JoinSplit | src/parser/textParser.py:26 | splitting newline-free lines joined by newlines gives back the lines |
| Text.SplitLines | src/parser/textParser.py:26 | a text has at least one line, and no line holds a newline |
| Text.NatToDigits | src/odsGenerator.py:106 | the decimal digits of a number denote that number, without a leading zero |
| TextParser.UnsignedCents | src/parser/textParser.py:42 | an unsigned amount decodes exactly when it has digit groups with `'` separators and an optional two-digit fraction |
| TextParser.DecodeAmount | src/parser/textParser.py:42 | an amount decodes exactly when it matches the amount grammar; the sign of the text is the sign of the value |
| TextParser.UnsignedValue | src/parser/textParser.py:42 | an unsigned amount is worth its digits read as one number of cents when it has a fractional part, and a hundred times that number otherwise |
| TextParser.AmountValue | src/parser/textParser.py:42 | every amount text decodes to its digits read as one number, times a hundred without a fractional part, negated after a leading minus: `float` of the text in cents |
| TextParser.NegativeAmountValue | src/parser/textParser.py:42 | an amount text with a leading minus decodes to minus its digits read as one number of cents, times a hundred without a fractional part |
| TextParser.PlainAmountValue | src/parser/textParser.py:42 | an amount text without a leading minus is not empty and decodes to its digits read as one number of cents, times a hundred without a fractional part |
| TextParser.SeparatorsIgnored | src/parser/textParser.py:42 | removing the `'` separators first, as the program does before `float`, leaves an amount text with the same value |
| TextParser.AmountExampleSeparator | src/parser/textParser.py:42 | `1'234.50` decodes to 123450 cents, with the separator removed |
| TextParser.AmountExampleNegative | src/parser/textParser.py:42 | `-157.95` decodes to -15795 cents |
| TextParser.AmountExamplePlain | src/parser/textParser.py:42 | `4.30` decodes to 430 cents |
| TextParser.AmountExampleMalformed | src/parser/textParser.py:42 | `12.5` and `1'23` do not decode |
| TextParser.DecodeDate | src/parser/textParser.py:45 | a date decodes exactly when the text has the `DD.MM.YYYY` shape and the day exists; the result is made of the three digit fields |
| TextParser.DateExampleLeapDay | src/parser/textParser.py:45 | `29.02.2024` decodes to the 29th of February 2024 |
| TextParser.DateExampleNoLeapDay | src/parser/textParser.py:45 | `29.02.2025` does not decode |
| TextParser.DateExampleValid | src/parser/textParser.py:45 | `31.07.2025` decodes to the 31st of July 2025 |
| TextParser.DateExampleImpossible | src/parser/textParser.py:45 | `31.02.2025` and year `0000` do not decode |
| TextParser.RawLocation | src/parser/textParser.py:17 | a location is captured exactly when text follows the date and time; it is non-empty, a suffix of the line, and strips to the same text as the rest of the line |
| TextParser.DateLineTail | src/parser/textParser.py:16-17 | a captured time has the `HH:MM` shape; a captured location is non-empty and a suffix of the line |
| TextParser.DateLine | src/parser/textParser.py:15-17 | the date field has the `DD.MM.YYYY` shape, a time has the `HH:MM` shape, and a location is a non-empty suffix of the line |
| TextParser.MerchantLine | src/parser/textParser.py:14 | the merchant is the non-empty, star-free text between the two stars that fill the line |
| TextParser.ForeignPart | src/parser/textParser.py:19-20 | the foreign amount and the currency are captured together or not at all; the amount has the foreign-amount shape and the currency is EUR or USD |
| TextParser.AmountLine | src/parser/textParser.py:18-20 | the CHF amount has the amount shape; the foreign fields come as a pair with their shapes |
| TextParser.MatchBlock | src/parser/textParser.py:13-20 | every match has a star-free category, a star-free merchant, and fields shaped as the grammar demands |
| TextParser.MatchBlockParts | src/parser/textParser.py:13-20 | five lines whose category line, blank line, merchant, date and amount lines each match produce the block of those captures |
| TextParser.DecodeForeign | src/parser/textParser.py:46 | no foreign amount gives none; a captured foreign amount decodes to a non-negative value |
| TextParser.DecodeBlock | src/parser/textParser.py:35-61 | every transaction a block constructs satisfies the record invariant |
| TextParser.DecodeBlockAccepts | src/parser/textParser.py:35-61 | a matched block constructs exactly when its date exists and its CHF amount is not zero |
| TextParser.DecodeBlockFields | src/parser/textParser.py:37-61 | category, merchant and location are stripped, time and currency are copied, and amount, date and foreign amount are the decoded captures |
| TextParser.DecodedShape | src/parser/textParser.py:37-50 | every constructed transaction is trimmed, star-free and newline-free where the grammar says so, with both foreign fields or neither, and the currency is EUR or USD |
| TextParser.Matches | src/parser/textParser.py:26 | every match has the grammar's shape, and each match uses five lines |
| TextParser.ParseMatches | src/parser/textParser.py:27-33 | at most one transaction comes from each match |
| TextParser.ParseMatchesShape | src/parser/textParser.py:27-33 | every transaction built from grammar-shaped matches has the parsed shape |
| TextParser.Parse | src/parser/textParser.py:24-33 | every parsed transaction has the shape of a constructed block, and there are at most a fifth as many as lines |
| TextParser.ParseMatchesAppend | src/parser/textParser.py:26-33 | parsing two runs of matches in sequence gives the two results in order |
| TextParser.SkipFailedMatch | src/parser/textParser.py:27-33 | a match whose construction raises leaves no transaction, and the scan goes on with the next match |
| TextParser.ImpossibleDateSkipped | src/parser/textParser.py:45 | a block dated `31.02.2025` raises and yields nothing |
| TextParser.ShortTextIsEmpty | src/parser/textParser.py:24-26 | a text of fewer than five lines holds no transaction |
| TextParser.EmptyTextIsEmpty | src/parser/textParser.py:24-26 | the empty text holds no transaction |
| TextParser.MatchesConcat | src/parser/textParser.py:26 | blocks that each match, laid end to end and followed by a short tail, are found as those matches in order |
| TextParser.ParseDecodable | src/parser/textParser.py:24-33 | when every match constructs, the result is exactly their transactions, in order |
| Formats.FormatCents | src/odsGenerator.py:106 | the amount text has a point before two final digits and a minus sign exactly for negative amounts |
| Formats.AmountRoundTrip | src/odsGenerator.py:98-106 | the parser's amount decoder reads every formatted amount back as the same cents |
| Formats.DateRoundTrip | src/odsGenerator.py:94-95 | `strptime("%d.%m.%Y")` reads every `%d.%m.%Y` rendering back as the same date |
| Formats.ShortDateDropsCentury | src/odsGenerator.py:92-96 | the `%d.%m.%y` text is the `%d.%m.%Y` text with the century digits left out |
| Formats.FormatCentsExample | src/odsGenerator.py:106 | 430 cents are shown as `4.30` |
| Formats.FormatCentsZeroExample | src/odsGenerator.py:106 | zero is shown as `0.00` |
| Formats.FormatCentsNegativeExample | src/odsGenerator.py:106 | -15795 cents are shown as `-157.95` |
| Formats.FormatDateShortExample | src/odsGenerator.py:93 | the 15th of July 2025 is shown as `15.07.25` |
| ExportText.MerchantLineRoundTrip | src/parser/textParser.py:14 | a merchant between two stars is read back unchanged |
| ExportText.DateLineRoundTrip | src/parser/textParser.py:15-17 | a rendered date line is read back as its date text, time and location |
| ExportText.AmountLineRoundTrip | src/parser/textParser.py:18-20 | a rendered amount line is read back as its amount text and foreign part |
| ExportText.ForeignPartRoundTrip | src/parser/textParser.py:19-20 | a rendered foreign amount and currency are captured as written |
| ExportText.MatchRendered | src/parser/textParser.py:13-20 | the five rendered lines of a transaction match the grammar and capture its fields |
| ExportText.DecodeRendered | src/parser/textParser.py:35-61 | decoding the captures of a rendered transaction constructs that same transaction |
| ExportText.RenderedBlocksMatch | src/parser/textParser.py:13-20 | the rendered blocks of a list of transactions match as the list's captures, in order |
| ExportText.RenderedDecodes | src/parser/textParser.py:35-61 | the captures of a list of rendered transactions decode to that list, in order |
| ExportText.RenderParseRoundTrip | src/parser/textParser.py:24-61 | parsing the rendering of a list of transactions gives back the list, in order |
| Config.FirstAbsent | src/configuration.py:47-50 | the first required field that is not `in` the value; all fields before it are present |
| Config.CheckRequired | src/configuration.py:47-50 | the check passes exactly when no required field is absent, and otherwise reports the first absent one (`TypeError` when `in` cannot be applied) |
| Config.RequiredPresent | src/configuration.py:47-50 | on an object, the required-field check passes exactly when `creditAccount`, `mapping` and `columns` are all keys |
| Config.MissingFieldOrder | src/configuration.py:47-50 | the fields are checked in the order `creditAccount`, `mapping`, `columns`, and the first missing one is reported |
| Config.KindCheckOrder | src/configuration.py:52-67 | a non-string credit account, a non-object mapping and a non-array `columns` are reported in that order |
| Config.CheckRule | src/configuration.py:58-64 | a rule passes exactly when it is an object with a description, a debit account and, if it has a pattern, a compiling string; a non-object is reported as such |
| Config.FirstFailingRule | src/configuration.py:58-64 | the first rule, in file order, that fails its check; all rules before it pass |
| Config.CheckRules | src/configuration.py:58-64 | the loop passes exactly when no rule fails, and otherwise reports the first failing rule's error |
| Config.CheckRulesOk | src/configuration.py:58-64 | the rule loop passes exactly when every rule is well formed |
| Config.CheckPatterns | src/configuration.py:71-72 | the ignore loop passes exactly when every pattern is a compiling string |
| Config.CheckIgnore | src/configuration.py:69-72 | the ignore check passes exactly on the ignore sections `IgnoreOk` describes |
| Config.ValidateAccepts | src/configuration.py:46-72 | validation passes exactly on the configurations `Accepted` describes field by field |
| Config.RuleFor | src/accountMapper.py:105-107 | a rule is found exactly when the category is a key, and the found rule is stored under that key |
| Mapper.RuleForUnique | src/accountMapper.py:105-107 | when a key occurs once among the rules, the lookup finds that key's rule |
| Config.MappingRulesInOrder | src/configuration.py:93-102 | `mappingRules` has one rule per key of `mapping`, in file order, built from that key's object |
| Config.RuleOf | src/configuration.py:97-101 | a rule without a `pattern` has no pattern |
| Config.ColumnsInOrder | src/configuration.py:104-113 | `columns` has one column per configured element, in file order |
| Config.NoIgnoreSection | src/configuration.py:85-91 | without an `ignore` section both ignore lists are empty |
| Config.ValidatedPatternsCompile | src/configuration.py:58-79 | after validation every rule pattern and every ignore pattern compiles |
| Config.RulePatternsCompile | src/configuration.py:63-64 | well-formed rules yield mapping rules whose patterns compile |
| Config.IgnorePatternsCompile | src/configuration.py:69-72 | an accepted ignore section yields ignore patterns that compile |
| Config.CoreColumns | src/configuration.py:115-117 | every core column has a type |
| Config.OptionalColumns | src/configuration.py:119-121 | no optional column has a type |
| Config.ColumnsPartition | src/configuration.py:115-121 | the columns are an interleaving of the core and the optional columns, each in order; together they hold every column once |
| Config.ColumnsMembership | src/configuration.py:115-121 | a typed column is among the core columns and an untyped one among the optional columns |
| Grouper.AnyPatternMatches | src/transactionGrouper.py:72-76 | true exactly when some rule has a pattern that matches the merchant |
| Grouper.CategoryRuleHasPrecedence | src/transactionGrouper.py:65-69 | when the category's own rule has a pattern that does not match, the transaction is not groupable, even if another rule's pattern matches |
| Grouper.NoCategoryKey | src/transactionGrouper.py:72-76 | without a category key, a transaction is groupable exactly when some rule's pattern matches the merchant |
| Grouper.CategoriesHaveMembers | src/transactionGrouper.py:30-35 | a category is a group key exactly when some eligible transaction has it |
| Grouper.CategoriesDistinct | src/transactionGrouper.py:33-35 | the group keys are distinct |
| Grouper.MembersAreEligible | src/transactionGrouper.py:31-35 | a category's members are exactly the eligible input transactions of that category |
| Grouper.IndividualsAreIneligible | src/transactionGrouper.py:38-39 | the individual list holds exactly the input transactions that are not eligible |
| Grouper.GroupingConserves | src/transactionGrouper.py:30-41 | the individual list and the group members together are the input, as a multiset |
| Grouper.GroupingKeepsTotal | src/transactionGrouper.py:30-45 | the individual amounts and the group members' amounts add up to the input total |
| Grouper.GroupsForTally | src/transactionGrouper.py:44-55 | the groups' totals, members and counts are those of the pooled members of their categories |
| Grouper.GroupsConserve | src/transactionGrouper.py:27-59 | the individual count plus the group counts is the input length; the members and amounts are conserved as well |
| Grouper.GroupsForShape | src/transactionGrouper.py:44-55 | group `k` is built from the members of category `k` |
| Grouper.GroupsShape | src/transactionGrouper.py:44-55 | one group per category in first-occurrence order, with distinct categories; each group holds its members in input order, counts them (at least one), sums them, and is dated at its first member's month end |
| Grouper.GroupTransactions | src/transactionGrouper.py:27-59 | the two loops return exactly the specified individual list and groups |
| Grouper.EmptyInput | src/transactionGrouper.py:27-59 | no input gives no individual transaction and no group |
| Mapper.IgnoredCategory | src/accountMapper.py:70-74 | a category is ignored exactly when it equals a listed category after lowering both |
| Mapper.IgnoredCategoryExamples | src/accountMapper.py:70-74 | the comparison ignores case but is exact: a listed prefix does not match |
| Mapper.IgnoredMerchant | src/accountMapper.py:76-80 | a merchant is ignored exactly when some ignore pattern is found in it |
| Mapper.FirstMatchingRule | src/accountMapper.py:99-103 | without a category key, the first rule in declared order whose pattern matches wins; no rule is found exactly when no pattern matches |
| Mapper.CategoryKeyBlocksFallback | src/accountMapper.py:86-93 | when the category's own rule has a pattern that does not match, no mapping is found, even if another rule's pattern matches |
| Mapper.CategoryKeyWithoutPattern | src/accountMapper.py:94-96 | a category key whose rule has no pattern maps to that rule |
| Mapper.GroupingAgreesWithMapping | src/accountMapper.py:82-103 | when all patterns compile, a transaction can be grouped exactly when a mapping rule is found for it |
| Mapper.TransactionEntry | src/accountMapper.py:29-45 | the entry carries the transaction and the configured credit account, and it has a debit account exactly when a rule is found |
| Mapper.Kept | src/accountMapper.py:25-27 | the kept transactions are exactly the input transactions that are not ignored |
| Mapper.MapTransactionsSpec | src/accountMapper.py:23-45 | one entry per kept transaction, in order, with the rule's description and debit account, or the merchant and no debit account |
| Mapper.MapTransactionsOfKept | src/accountMapper.py:25-45 | entry `i` is the entry of the `i`-th kept transaction |
| Mapper.NoIgnoredEntry | src/accountMapper.py:25-27 | no entry is built from an ignored transaction, and each entry carries an input transaction |
| Mapper.GroupEntry | src/accountMapper.py:50-65 | the entry carries the group and the configured credit account; when the category is a rule key it books that rule's description and debit account, and otherwise the category as description and no debit account |
| Mapper.MapGroups | src/accountMapper.py:47-65 | exactly one entry per group, in order, each the group's own entry |
| Mapper.FallbackGrouped | src/transactionGrouper.py:72-76 | a transaction mapped through the pattern scan is grouped under its own category |
| Mapper.FallbackGroupUnmapped | src/accountMapper.py:58-65 | such a transaction gets a debit account on its own, but its group, under a category that is no rule key, gets none |
| Ods.Header | src/odsGenerator.py:41-47 | one header cell per column, holding the column's name, in order |
| Ods.Row | src/odsGenerator.py:49-59 | one cell per column, in order, each the cell value for that column |
| Ods.RowsLayout | src/odsGenerator.py:28-29 | one row per entry, in entry order |
| Ods.SheetLayout | src/odsGenerator.py:26-29 | the header row comes first, then one row per entry in order, and every row is as wide as the column list |
| Ods.AmountCellReadsBack | src/odsGenerator.py:98-106 | the amount cell reads back as the transaction amount or the group total |
| Ods.DateCellFormats | src/odsGenerator.py:83-96 | with `DD.MM.YYYY` the date cell reads back as the entry's date; any other format, or none, drops the century |
| Ods.GroupDateIsMonthEnd | src/odsGenerator.py:84-87 | a group's date cell shows the last day of its first member's month |
| Ods.RemarksCellSpec | src/odsGenerator.py:108-111 | the remarks are filled exactly for a transaction with both foreign fields, as the currency, a space and the amount read back; groups get none |
| Ods.UntypedCellSpec | src/odsGenerator.py:62-66 | an untyped column named `Bemerkungen` or `Bemerkung` shows the remarks cell, and any other untyped column shows nothing |
| Ods.TypedCellSpec | src/odsGenerator.py:68-81 | a date column shows the date cell in the column's format, which reads back as the entry's date with `DD.MM.YYYY`; the debit cell is blank exactly when there is no debit account or it is empty; description and credit cells copy the entry; the amount cell reads back; a remarks column shows the remarks cell; an unknown type shows nothing |
| Ods.DateCellExample | src/odsGenerator.py:92-96 | a transaction of the 15th of July 2025 shows `15.07.25` without a format |
| Ods.AmountCellExamples | src/odsGenerator.py:98-111 | a group total of -15795 cents shows `-157.95`; a euro transaction shows `EUR 4.30` as remarks; a group shows no remarks |
| Pipeline.InMonth | src/main.py:103-106 | the kept transactions are exactly those dated in the target year and month |
| Pipeline.BookingsOrder | src/main.py:114-118 | all transaction entries come first, then exactly one entry per group, in group order |
| Pipeline.BookingsInMonth | src/main.py:139-141 | every booked transaction, on its own or in a group, is dated in the target month |
| Pipeline.IgnoredButGrouped | src/main.py:139-141 | an ignored transaction that can be grouped is still booked, inside its group's entry |

## Left out

- Regular expressions: `re.search` and `re.compile` are the `Regex` oracle's two fields. The model does not interpret patterns.
- Mapper: the mapper's `__matchesPattern` would raise `re.error` on a pattern that does not compile. The model reads the oracle's `search` for every pattern, because validation (`Config.ValidatedPatternsCompile`) guarantees that every loaded pattern compiles.
- Text.Lower: only ASCII letters are lowered. Python's `str.lower` also lowers other letters, and some of them become two characters.
- TextParser.DateLineTail: `\s` here matches Python's whitespace other than the newline. In the source, `\s+` before the time, the location, `CHF` or the foreign amount could run into the next line. The model keeps each field on its line.
- TextParser.DecodeAmount: `\d` is an ASCII digit here. Python's `\d` on a `str` pattern, `float()` and `strptime` also accept other Unicode decimal digits, so a block written in such digits is parsed by the program and skipped by the model.
- TextParser.MerchantLine: the merchant `[^*]+` is kept on one line. In the source it may span several lines, up to the next star.
- TextParser.Matches: the search runs over the text split into lines, trying each line start in turn. A match consumes its five lines even when its decoding raises, as `finditer` does. A text that ends with `\r\n` is not given special treatment.
- Floats: amounts are integer cents. Python's float sum of group totals and the rounding of `:.2f` are not modelled bit for bit, and values that only a float can hold (more than two decimals) do not arise.
- Config: JSON numbers are integers. An object is a list of key/value pairs, so a repeated key stays repeated. Lookups read its first occurrence, and validation checks every occurrence of a repeated `mapping` key. `json.load` keeps only the last value, so both reading and validating such a file differ from the program. Reading and decoding the file (`__loadConfiguration`) is not modelled.
- Config.Load: the typed views require `Shaped`: strings as rule descriptions, debit accounts, column names, types and formats, an object as `ignore`, and lists of strings as its ignore lists. Configurations outside that shape are not modelled. The program treats them in two different ways. It accepts some of them. Validation only checks that `description` and `debitAccount` are present, so a number or a boolean there is printed as its `str()`, and a falsy debit account such as `0` is printed blank. A column name that is not a string is printed as its `str()` in the header row. Other configurations pass validation and then raise while the document is built. A column entry without a `name`, or one that is not an object, raises when the columns are read (src/configuration.py:107-109). An `ignore` value that is a list raises when the ignore rules are read (src/configuration.py:87-90). An ignore category that is not a string raises when it is lower-cased (src/accountMapper.py:71-72).
- Ods.CellValue: a column type that is falsy but not a string, such as `0` or `false`, is not modelled. The program treats such a column as optional when it fills cells (src/odsGenerator.py:62-66), so a `Bemerkungen` column with it shows the remarks. The same column is a core column, because its type is not `None` (src/configuration.py:117).
- Ods: `__formatDate` and `__formatAmount` return `""` for an entry that has neither a transaction nor a group. The tagged union `BookingEntry` makes that case impossible. Building, styling and saving the ODF document is not modelled.
- Calendar.DaysInMonth: the contract only bounds the month length; `Calendar.YearLength` and `Calendar.MonthEndExamples` pin the exact values.
- Ods.DateCell: no example pins the four-digit year text. `Formats.DateRoundTrip` states it for every date instead.
- `Transaction.__repr__`, `Configuration.__repr__` and `fromDirectory` are debug strings and file lookups.
- The directory parsers, argument parsing, logging, the current date and the exit codes of `main` are input/output. The model takes the target year and month as parameters.
- `CATEGORY_PATTERN` is never used by the parser.
- `src/parser/` and `src/parsers/` are treated as one package with one `Transaction` type.
