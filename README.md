# Robinhood Wrapped: the CSV parser, modelled in Dafny

`parseCSV` (`src/utils/csvParser.ts`) turns the text of a Robinhood account
export into the summary of a trading year shown by the app's slides. It works
in three passes:

- **Tokenizer.** A hand-written CSV tokenizer reads the text one character at a
  time with one character of lookahead. Quoted fields may span lines, `""`
  inside quotes is a literal quote, and CRLF counts as one line break. Every
  field is trimmed, and a blank line ended by a line break is dropped.
- **Aggregation.** The first row is the header and fixes where `Trans Code`,
  `Amount`/`Total Cost` and `Instrument` are. Every later row at least as wide
  as the header is then classified by its code:
  - Cash-flow codes `ACH RTP XENT GDBP` add their amount to deposits or
    withdrawals. The amount is read by an accounting-style `parseAmount`.
  - Trade codes `Buy Sell BTO STC STO BTC OEXP` count as trades. Every trade
    except an expiry also counts one for its instrument.
- **Summary.** The pass derives:
  - the most traded instrument;
  - the net profit against the current account value;
  - the profit as a percentage of the deposits, rounded to two decimals;
  - the trader archetype.

The project is made of these modules:

| file | module | flavour |
|---|---|---|
| `wrappers.dfy` | `Wrappers` | `Option` and `Result` |
| `js_string.dfy` | `JsString` | `String.prototype.trim` over the JavaScript white-space set |
| `js_number.dfy` | `JsNumber` | `parseFloat` as a longest-decimal-prefix reader, with exact reals and `None` for NaN |
| `amount.dfy` | `Amount` | `parseAmount` (pure) |
| `tokenizer.dfy` | `Tokenizer` | the scan as a function `Run`/`Tokenize`, and the source's loop as the method `TokenizeText`, proved equal to it |
| `tokenizer_properties.dfy` | `TokenizerProperties` | the shape of the tokenizer's output; a CSV writer `Encode` that the tokenizer inverts |
| `aggregator.dfy` | `Aggregator` | column lookup, code classification, the fold over data rows, and the source's loop as the methods `AggregateRows`/`RecordRow`, proved equal to the fold |
| `aggregator_properties.dfy` | `AggregatorProperties` | the fold against independent per-row definitions: the number of trade rows, the rows that pick an instrument, the sums of positive and negative cash flows, and the order of first picks |
| `summary.dfy` | `Summary` | a stable descending sort and the top ticker; profit, percentage, `toFixed(2)` rounding, the archetype and the summary record |
| `csv_parser.dfy` | `CsvParser` | `ParseCSV` as a method that follows the source's body, the function `ParseCsv` it computes, and the end-to-end properties with a worked year |

Behaviour of the code worth spelling out:

- **No row at all.** A text that yields no row makes `rows[0]` undefined, and
  `headers.indexOf` throws (csvParser.ts:51-52). That covers the empty text, a
  text of only line breaks, and a line of blanks ended by a line break, which
  is dropped as a blank row. The model returns `Failure` for such a text
  (`ParseCsvFails`, `EmptyFileFails`, `BlankLineFails`).
- **Spaces with no line break.** A non-empty text of spaces and nothing else
  does not fail. The final flush at lines 45-47 keeps the pending field, so the
  tokenizer gives one row holding one empty field. That row is read as a
  header with no known column, and the summary is all zero (`BlankTokens`,
  `BlankTextSucceeds`).
- **Header only.** A header-only file is `Diamond Hands`, because 0 trades is
  fewer than 20 (`HeaderOnlySummary`).
- **Amount column.** The amount column is the first header named either
  `Amount` or `Total Cost` (line 53). Neither name takes priority over the
  other.
- **Codes.** The cash-flow codes are exactly `ACH`, `RTP`, `XENT` and `GDBP`
  (line 83). The Day Trader threshold is more than 1000 trades (line 119).
- **No amount column.** When the header has no amount column, the amount reads
  as `"0"` (line 77), which is 0, so no row moves any money (`AbsentAmount`,
  `NoAmountHeader`).
- **Empty parentheses.** A parenthesised amount has no `|| 0` fallback, so
  `"()"` is NaN, and NaN moves neither total (`AmountNaN`,
  `AmountNaNExample`).
- **Top instrument.** The top instrument is the one picked most often. A tie
  goes to the instrument picked first, because the record keeps its keys in the
  order of first picks and the sort is stable (`KeyOrder`, `ParseCsvTopStock`).

## Model

| member | source | states |
|---|---|---|
| JsString.Trim | src/utils/csvParser.ts:27 | the trimmed field is a slice of the field with only white space cut off on either side, and it neither starts nor ends with white space |
| JsString.TrimStart | src/utils/csvParser.ts:27 | the leading half of `trim`: the result is no longer than the field; its properties are stated by `TrimStartSpec` |
| JsString.TrimEnd | src/utils/csvParser.ts:27 | the trailing half of `trim`: the result is no longer than the field; its properties are stated by `TrimEndSpec` |
| JsString.TrimStartSpec | src/utils/csvParser.ts:27 | the leading white space removed is all white space, what is kept is a suffix, and it does not start with white space |
| JsString.TrimEndSpec | src/utils/csvParser.ts:27 | the trailing white space removed is all white space, what is kept is a prefix, and it does not end with white space |
| JsString.TrimTrimmed | src/utils/csvParser.ts:27 | trimming a field that is already trimmed changes nothing |
| JsString.TrimAllSpace | src/utils/csvParser.ts:27 | a field of only white space trims to the empty string |
| Tokenizer.TokenizeText | src/utils/csvParser.ts:7-48 | the source's character loop, with its skips over the second quote of `""` and over the CR of CRLF, returns exactly the rows of the functional scan `Tokenize` |
| Tokenizer.EndField | src/utils/csvParser.ts:25-28 | an unquoted comma: the trimmed field joins the row and the field restarts empty; stated by `RunComma` |
| Tokenizer.EndRow | src/utils/csvParser.ts:29-39 | an unquoted line break: the trimmed field closes the row, kept unless it is one empty field; stated by `RunLF` and `RunCR` |
| Tokenizer.Finish | src/utils/csvParser.ts:44-48 | the flush at the end of the text keeps a pending field or row; stated by `FinishWellShaped` and `LoneField` |
| Tokenizer.Step | src/utils/csvParser.ts:13-42 | one iteration of the loop body consumes one character, or two for an escaped quote, and never more than remain |
| Tokenizer.Run | src/utils/csvParser.ts:12-48 | the loop and the flush as a function of the unread text and the scan state; stated by `RunWellShaped` and `RunLines` |
| Tokenizer.Tokenize | src/utils/csvParser.ts:7-48 | the rows of a text; stated by `TokenizeWellShaped`, `TokenizeEncode` and `BareTable`, and computed by `TokenizeText` |
| Tokenizer.IsBlankRow | src/utils/csvParser.ts:35 | the test for a row of one empty field, which a line break drops; stated by `RunLF`, `RunCR` and `TokenizeWellShaped` |
| TokenizerProperties.TokenizeWellShaped | src/utils/csvParser.ts:27-48 | every row has at least one field, every field is trimmed, and no row but the last is a blank one-empty-field row |
| TokenizerProperties.StepKeepsGood | src/utils/csvParser.ts:12-43 | one move of the scan keeps the pending row trimmed and every completed row non-blank |
| TokenizerProperties.RunWellShaped | src/utils/csvParser.ts:12-48 | from any state satisfying the scan invariant, the rows produced are well shaped |
| TokenizerProperties.FinishWellShaped | src/utils/csvParser.ts:44-48 | the final flush keeps the rows well shaped; only the flushed last row may be blank |
| TokenizerProperties.UnterminatedQuote | src/utils/csvParser.ts:16-24 | inside an unclosed quote, the rest of the text without a quote is taken into the final field verbatim, commas and line breaks included |
| TokenizerProperties.RunEscapedQuote | src/utils/csvParser.ts:17-20 | inside quotes, `""` adds one `"` to the field and consumes both characters |
| TokenizerProperties.RunLoneQuote | src/utils/csvParser.ts:21-24 | any other quote toggles the quoted state and adds nothing to the field |
| TokenizerProperties.RunComma | src/utils/csvParser.ts:25-28 | outside quotes, a comma closes the trimmed field into the row |
| TokenizerProperties.RunLF | src/utils/csvParser.ts:29-39 | outside quotes, a line feed closes the row, which is kept unless it is one empty field |
| TokenizerProperties.RunCR | src/utils/csvParser.ts:29-39 | outside quotes, a carriage return followed by a line feed is skipped; a lone one closes the row like a line feed |
| TokenizerProperties.RunCRLF | src/utils/csvParser.ts:32-39 | CRLF closes the row exactly once |
| TokenizerProperties.RunChar | src/utils/csvParser.ts:40-42 | an ordinary character, or any character but a quote inside quotes, is appended to the field |
| TokenizerProperties.RunPlain | src/utils/csvParser.ts:40-42 | a run of ordinary characters outside quotes is appended to the field as it is |
| TokenizerProperties.RunEscaped | src/utils/csvParser.ts:16-24 | inside quotes, the quote-doubled form of a text adds exactly that text to the field |
| TokenizerProperties.RunCell | src/utils/csvParser.ts:16-42 | a bare or quoted cell as a CSV writer emits it becomes the pending field, with its value restored |
| TokenizerProperties.RunCells | src/utils/csvParser.ts:25-28 | the comma-joined cells of a line become the row's fields in order, the last one still pending |
| TokenizerProperties.RunLines | src/utils/csvParser.ts:12-48 | the encoded lines, after the rows already read, produce exactly one row per line, holding the cells' values |
| TokenizerProperties.TokenizeEncode | src/utils/csvParser.ts:12-48 | round trip: for lines of trimmed, non-blank cells, whether bare or quoted, ended by LF, CRLF or CR, or by nothing on the last line, tokenizing the written text gives back the table of values |
| TokenizerProperties.BareTable | src/utils/csvParser.ts:12-48 | a table of trimmed fields without quotes, commas or line breaks, no row blank, written one row per line, tokenizes back to itself |
| JsNumber.DigitRunSpec | src/utils/csvParser.ts:67-69 | the digit run read by `parseFloat` is all digits and maximal |
| JsNumber.ParseFloat | src/utils/csvParser.ts:67-69 | `parseFloat`: leading white space, one sign, then the longest decimal prefix, or NaN; stated by `ParseFloatNaN`, `ParseFloatSpace`, `ParseFloatMinus`, `ParseFloatInteger` and `ParseFloatDecimal` |
| JsNumber.FracValue | src/utils/csvParser.ts:67-69 | the digits after the point are worth at least 0 and less than 1 |
| JsNumber.DigitsValue | src/utils/csvParser.ts:67-69 | the value of `n` digits is less than 10^n |
| JsNumber.ParseFloatNaN | src/utils/csvParser.ts:67-69 | `parseFloat` is NaN exactly when, after leading white space and one sign, the text starts with neither a digit nor a point followed by a digit |
| JsNumber.UnsignedNaN | src/utils/csvParser.ts:67-69 | an unsigned number is read exactly when the text starts with a digit or a point and a digit |
| JsNumber.ParseFloatSpace | src/utils/csvParser.ts:67-69 | leading white space does not change what `parseFloat` reads |
| JsNumber.ParseFloatMinus | src/utils/csvParser.ts:67-69 | a leading minus negates the number read, and NaN stays NaN |
| JsNumber.ParseFloatInteger | src/utils/csvParser.ts:67-69 | digits followed by anything that cannot continue a number read as their decimal value, and the rest is ignored |
| JsNumber.ParseFloatDecimal | src/utils/csvParser.ts:67-69 | `digits.digits` followed by anything but a digit or an exponent reads as whole part plus fraction |
| JsNumber.DecimalWhole | src/utils/csvParser.ts:67-69 | a number without a fraction is worth its whole part |
| JsNumber.ParseFloatDecimalExample | src/utils/csvParser.ts:62 | `parseFloat("1234.56")` is 1234.56 |
| JsNumber.ParseFloatDollarsExample | src/utils/csvParser.ts:69 | `parseFloat("500.00")` is 500 |
| JsNumber.ParseFloatPrefixExample | src/utils/csvParser.ts:69 | `parseFloat("12 shares")` is 12: only the numeric prefix counts |
| JsNumber.ParseFloatNaNExample | src/utils/csvParser.ts:69 | `parseFloat("N/A")` is NaN |
| JsNumber.ParseFloatBarePointExample | src/utils/csvParser.ts:67-69 | `parseFloat("-.")` is NaN |
| Amount.ParseAmount | src/utils/csvParser.ts:63-70 | NaN can only come from the parenthesised branch |
| Amount.StripCurrency | src/utils/csvParser.ts:65 | `replace(/[$,]/g, '')` never lengthens the text; stated by `StripClean`, `StripConcat` and `StripIdempotent` |
| Amount.IsParenthesised | src/utils/csvParser.ts:66 | the two parenthesis tests; stated by `InnerOf` and `AmountNaN` |
| Amount.Inner | src/utils/csvParser.ts:67 | `slice(1, -1)`: with at least two characters, the text is its first character, the result, then its last character |
| Amount.OrZero | src/utils/csvParser.ts:69 | the fallback to 0 after `parseFloat`: NaN reads as 0; stated by `AmountPlain` and `AmountFallbackExample` |
| Amount.StripConcat | src/utils/csvParser.ts:65 | removing `$` and `,` distributes over concatenation |
| Amount.StripNone | src/utils/csvParser.ts:65 | a text without `$` or `,` is left unchanged |
| Amount.StripClean | src/utils/csvParser.ts:65 | no `$` or `,` survives, and every other character keeps its number of occurrences |
| Amount.StripIdempotent | src/utils/csvParser.ts:65 | stripping twice is stripping once |
| Amount.AmountStripped | src/utils/csvParser.ts:64-65 | `$` and `,` make no difference to the amount read |
| Amount.AmountNaN | src/utils/csvParser.ts:64-69 | the amount is NaN exactly when the text is non-empty, its stripped form is parenthesised, and its inside is no number |
| Amount.AmountPlain | src/utils/csvParser.ts:64-69 | without parentheses the amount is what `parseFloat` reads, and 0 when that is NaN |
| Amount.AmountParenthesised | src/utils/csvParser.ts:66-67 | `(x)` is the negation of what `parseFloat` reads from the stripped `x`, with no fallback for NaN |
| Amount.AmountNegated | src/utils/csvParser.ts:66-67 | whenever the stripped text is `(m)`, the amount is the negation of `parseFloat(m)` |
| Amount.AmountDecimal | src/utils/csvParser.ts:65-69 | a dollar amount whose stripped form is `digits.digits` reads as its decimal value |
| Amount.InnerOf | src/utils/csvParser.ts:66-67 | `(m)` passes both parenthesis tests, and `slice(1, -1)` gives back `m` |
| Amount.AmountAccountingExample | src/utils/csvParser.ts:62-67 | parentheses, a dollar sign and a thousands separator together: `"($1,2)"` is -12 |
| Amount.AmountDollarExample | src/utils/csvParser.ts:65-69 | `"$5.5"` is 5.5 |
| Amount.AmountNaNExample | src/utils/csvParser.ts:66-67 | `"()"` is NaN |
| Amount.AmountFallbackExample | src/utils/csvParser.ts:69 | `"N/A"` is 0 |
| Aggregator.FindIndex | src/utils/csvParser.ts:53 | the result is the first position whose name matches, or -1 exactly when none matches |
| Aggregator.IsAmountHeader | src/utils/csvParser.ts:53 | the predicate given to `findIndex`: a header named `Amount` or `Total Cost`; the first such position is stated by `FindIndex` |
| Aggregator.IndexOf | src/utils/csvParser.ts:52-54 | the result is the first position holding the name, or -1 exactly when the name is absent |
| Aggregator.ResolveColumns | src/utils/csvParser.ts:51-54 | every column index is -1 or a position of the header |
| Aggregator.CodesDisjoint | src/utils/csvParser.ts:83-90 | no code is both a cash-flow code and a trade code |
| Aggregator.IsCashFlow | src/utils/csvParser.ts:83 | membership in the cash-flow codes `ACH`, `RTP`, `XENT`, `GDBP`; what such a row does is stated by `ApplyMoney` and `Credit` |
| Aggregator.IsTrade | src/utils/csvParser.ts:90-95 | membership in the trade codes `Buy`, `Sell`, `BTO`, `STC`, `STO`, `BTC`, `OEXP`, of which `OEXP` is the expiry that counts as a trade but picks no instrument; stated by `ApplyTrades` and `ApplyCounts` |
| Aggregator.FieldOr | src/utils/csvParser.ts:76-79 | `idx > -1 ? cols[idx] : absent`, the read of one field of a row |
| Aggregator.CodeOf | src/utils/csvParser.ts:76 | the transaction code of a row, `""` without that column; used by `IsTradeRow`, `Picks` and `CashAmount` |
| Aggregator.AmountOf | src/utils/csvParser.ts:77-78 | the amount of a row, read from `"0"` without an amount column; stated by `AbsentAmount` and `AmountNaN` |
| Aggregator.InstrumentOf | src/utils/csvParser.ts:79 | the instrument of a row, `""` without that column; stated by `ApplyCounts` |
| Aggregator.BumpSpec | src/utils/csvParser.ts:96 | incrementing an instrument adds one to its count and changes no other count; a new instrument becomes the last key, and an existing one keeps its place |
| Aggregator.Bump | src/utils/csvParser.ts:96 | one more count for an instrument; stated by `BumpSpec` and `BumpKeepsGood` |
| Aggregator.Lookup | src/utils/csvParser.ts:96 | the count of an instrument, 0 for one that is not a key; stated by `BumpSpec`, `LookupKey` and `LookupAt` |
| Aggregator.Tickers | src/utils/csvParser.ts:101 | the keys of the record in the order `Object.entries` lists them; stated by `BumpSpec` and `KeyOrder` |
| Aggregator.Credit | src/utils/csvParser.ts:83-86 | the cash-flow branch never lowers either total, touches neither the trades nor the counts, changes deposits minus withdrawals by exactly the amount, and does nothing for NaN |
| Aggregator.CountTrade | src/utils/csvParser.ts:90-98 | the trade branch moves no money, adds one trade exactly for a trade code, and leaves the counts alone for a blank instrument or an expiry |
| Aggregator.Record | src/utils/csvParser.ts:81-98 | the classification of one row; stated by `ApplyMoney`, `ApplyTrades` and `ApplyCounts` |
| Aggregator.Apply | src/utils/csvParser.ts:73-98 | one iteration of the loop, skipping a row narrower than the header; stated by `ApplyMoney`, `ApplyTrades`, `ApplyCounts`, `ApplyIgnored` and `ApplyTickers` |
| Aggregator.Fold | src/utils/csvParser.ts:72-99 | the loop over the data rows; stated by `FoldTrades`, `FoldMoney`, `FoldCounts`, `FoldAppend` and `KeyOrder` |
| Aggregator.Aggregate | src/utils/csvParser.ts:51-99 | the totals of a table; stated by `AggregateSpec` and computed by `AggregateRows` |
| Aggregator.RecordRow | src/utils/csvParser.ts:81-98 | the two branches of the loop body update the four accumulators as the one-row function `Record` does |
| Aggregator.AggregateRows | src/utils/csvParser.ts:51-99 | the source's loop over the data rows, skipping rows narrower than the header, computes the totals `Aggregate` of the table |
| AggregatorProperties.Inflow | src/utils/csvParser.ts:83-84 | the deposits, the sum of positive cash-flow amounts, are never negative |
| AggregatorProperties.Outflow | src/utils/csvParser.ts:83-85 | the withdrawals, the sum of the magnitudes of negative cash-flow amounts, are never negative |
| AggregatorProperties.ApplyMoney | src/utils/csvParser.ts:83-86 | one row adds its positive cash-flow amount to deposits and its negative one, negated, to withdrawals |
| AggregatorProperties.ApplyTrades | src/utils/csvParser.ts:90-91 | one row adds one trade exactly when it is a counted trade row |
| AggregatorProperties.ApplyCounts | src/utils/csvParser.ts:95-97 | one row adds one to an instrument's count exactly when it is a non-expiry trade of that non-empty instrument |
| AggregatorProperties.ApplyIgnored | src/utils/csvParser.ts:74-90 | a row narrower than the header, or with an unknown code, changes no total |
| AggregatorProperties.FoldTrades | src/utils/csvParser.ts:72-99 | the pass adds the number of trade rows to the trade total |
| AggregatorProperties.FoldMoney | src/utils/csvParser.ts:72-99 | the pass adds the inflow to the deposits and the outflow to the withdrawals |
| AggregatorProperties.FoldCounts | src/utils/csvParser.ts:72-99 | the pass adds to each instrument's count the number of rows that pick it |
| AggregatorProperties.InOutNet | src/utils/csvParser.ts:84-85 | deposits minus withdrawals is the plain sum of the cash-flow amounts |
| AggregatorProperties.FoldAppend | src/utils/csvParser.ts:72-99 | the pass over two blocks of rows is the pass over the second block, started from the totals of the first |
| AggregatorProperties.FoldIgnored | src/utils/csvParser.ts:74 | inserting a skipped or unrecognised row anywhere changes nothing |
| AggregatorProperties.LookupKey | src/utils/csvParser.ts:96 | in a table of distinct keys with positive counts, an instrument has a positive count exactly when it is a key |
| AggregatorProperties.BumpKeepsGood | src/utils/csvParser.ts:96 | incrementing keeps the keys distinct and the counts positive |
| AggregatorProperties.ApplyKeepsGood | src/utils/csvParser.ts:95-97 | one row keeps the frequency table's keys distinct and counts positive |
| AggregatorProperties.FoldKeepsGood | src/utils/csvParser.ts:72-99 | the whole pass keeps the frequency table's keys distinct and counts positive |
| AggregatorProperties.LookupAt | src/utils/csvParser.ts:96 | with distinct keys, looking up an entry's key finds that entry's count |
| AggregatorProperties.LookupAbsent | src/utils/csvParser.ts:96 | an instrument that is not a key has count 0 |
| AggregatorProperties.FirstPick | src/utils/csvParser.ts:72-98 | the position of the first data row that picks an instrument is at most the number of rows |
| AggregatorProperties.FirstPickSpec | src/utils/csvParser.ts:72-98 | that position holds a row picking the instrument and no earlier row picks it, and it is a real row exactly when some row picks the instrument |
| AggregatorProperties.FirstPickAppend | src/utils/csvParser.ts:72-98 | one more row keeps an existing first pick, and otherwise is the first pick exactly when it picks the instrument |
| AggregatorProperties.ApplyTickers | src/utils/csvParser.ts:95-97 | a row that picks a new instrument adds it as the last key; a row that picks a known one, or none, leaves the keys alone |
| AggregatorProperties.KeyOrder | src/utils/csvParser.ts:72-98 | the keys of the record are exactly the picked instruments, in the order of their first picks |
| AggregatorProperties.AbsentAmount | src/utils/csvParser.ts:77-78 | without an amount column the amount of every row is 0 |
| AggregatorProperties.NoAmountColumn | src/utils/csvParser.ts:77-86 | without an amount column the inflow and the outflow are 0 |
| AggregatorProperties.AggregateSpec | src/utils/csvParser.ts:51-99 | the totals of a table: the trade total is the number of trade rows; deposits and withdrawals are the non-negative inflow and outflow, and their difference is the net cash flow; each instrument's count is the number of rows that pick it; the keys are distinct; and an instrument is a key exactly when some row picks it |
| AggregatorProperties.HeaderOnly | src/utils/csvParser.ts:57-60 | a table with only a header gives all-zero totals and no instruments |
| AggregatorProperties.NoAmountHeader | src/utils/csvParser.ts:53-86 | a header with neither `Amount` nor `Total Cost` gives zero deposits and zero withdrawals |
| Summary.Insert | src/utils/csvParser.ts:101 | inserting adds exactly that entry, as a multiset |
| Summary.SortByCount | src/utils/csvParser.ts:101 | the sorted table is a permutation of the frequency table |
| Summary.InsertDescending | src/utils/csvParser.ts:101 | inserting into a descending table keeps it descending |
| Summary.SortDescending | src/utils/csvParser.ts:101 | the sort leaves the table in descending order of count |
| Summary.FirstMax | src/utils/csvParser.ts:101-102 | the position found holds the largest count, and every earlier entry has a strictly smaller count |
| Summary.SortHead | src/utils/csvParser.ts:101-102 | the head of the stable sort is the first entry with the largest count |
| Summary.TopTickerSpec | src/utils/csvParser.ts:101-102 | no instrument gives `"N/A"`; otherwise the top ticker is an instrument with the largest count, and ties go to the one counted first |
| Summary.TopTickerTieExample | src/utils/csvParser.ts:101-102 | among AAPL 2, TSLA 3 and NVDA 3, TSLA wins: the stable sort keeps the earlier of a tie |
| Summary.TopTickerNamedNA | src/utils/csvParser.ts:102 | an instrument literally named `N/A` gives the same top ticker as no instrument |
| Summary.TopTicker | src/utils/csvParser.ts:101-102 | the first of the sorted entries, or `"N/A"`; stated by `TopTickerSpec` |
| Summary.NetPnL | src/utils/csvParser.ts:107 | the profit; stated by `NetPnLBalance` |
| Summary.PnlPercentage | src/utils/csvParser.ts:108 | the percentage; stated by `PnlPercentageSpec` |
| Summary.Round2 | src/utils/csvParser.ts:127 | `parseFloat(x.toFixed(2))`; stated by `Round2Close`, `Round2Hundredths`, `Round2Idempotent` and `Round2Odd` |
| Summary.ArchetypeOf | src/utils/csvParser.ts:118-121 | the archetype of a trade count; stated by `ArchetypeRanges`, `ArchetypeBoundaries` and `ArchetypeMonotone` |
| Summary.LabelInjective | src/data/mockData.ts:17 | the four archetypes have four different labels, those of the record's string union |
| Summary.TopStock | src/utils/csvParser.ts:110-116 | the placeholder stock of a ticker; stated by `Summarize` |
| Summary.NetPnLBalance | src/utils/csvParser.ts:107 | net money put in plus the profit is the current value, and the profit is positive exactly when the value exceeds the net money put in |
| Summary.PnlPercentageSpec | src/utils/csvParser.ts:108 | with deposits, the percentage times the deposits is 100 times the profit, and it has the profit's sign; without deposits it is 0 |
| Summary.Round2Close | src/utils/csvParser.ts:127 | the rounded percentage is within 0.005 of the exact one |
| Summary.Round2Hundredths | src/utils/csvParser.ts:127 | below `1e21` the rounded value is a whole number of hundredths |
| Summary.Round2Idempotent | src/utils/csvParser.ts:127 | rounding a rounded value changes nothing |
| Summary.Round2Odd | src/utils/csvParser.ts:127 | rounding is symmetric about zero: the rounding of `-x` is minus the rounding of `x` |
| Summary.Round2Example | src/utils/csvParser.ts:127 | 12.345 rounds to 12.35, and -0.004 to 0 |
| Summary.ArchetypeRanges | src/utils/csvParser.ts:118-121 | Diamond Hands is below 20 trades, Value Investor 20 to 200, FOMO Buyer 201 to 1000 and Day Trader above 1000, each an if-and-only-if |
| Summary.ArchetypeBoundaries | src/utils/csvParser.ts:118-121 | 19/20, 200/201 and 1000/1001 fall on either side of a boundary |
| Summary.ArchetypeMonotone | src/utils/csvParser.ts:118-121 | more trades never give a less active archetype |
| Summary.Summarize | src/utils/csvParser.ts:104-132 | the record copies the totals; deposits minus withdrawals plus the profit is the current value; the percentage is 0 with nothing deposited and otherwise within 0.005 of the profit per hundred deposited; the top and worst stock are the same placeholder for the top ticker, named by its symbol with no gain; the archetype is that of the trade count |
| CsvParser.ParseCSV | src/utils/csvParser.ts:3-133 | the source's body computes `ParseCsv`, and it fails exactly when the text yields no row |
| CsvParser.ParseCsv | src/utils/csvParser.ts:3-133 | `parseCSV` as a function; stated by `ParseCsvSpec`, `ParseCsvTopStock` and `ParseCsvFails`, and computed by `ParseCSV` |
| CsvParser.ParseCsvSpec | src/utils/csvParser.ts:51-132 | for a text with a header row, the summary holds the number of trade rows, the inflow and the outflow, the profit against the net cash flow, the archetype of the trade count, and a percentage that is 0 with no inflow and otherwise within 0.005 of the profit per hundred of inflow; the top symbol is `"N/A"` when no row picks an instrument, and otherwise it is an instrument some row picks at least as often as any other |
| CsvParser.ParseCsvTopStock | src/utils/csvParser.ts:72-102 | the top symbol is `"N/A"` when no row picks an instrument; otherwise some row picks it, no instrument is picked more often, and any other instrument picked as often is first picked later |
| CsvParser.AggregateTop | src/utils/csvParser.ts:72-102 | the same statement on the rows of a table |
| CsvParser.FoldTop | src/utils/csvParser.ts:72-102 | the same statement for the pass over any data rows under any columns |
| CsvParser.TopEntry | src/utils/csvParser.ts:96-102 | with distinct keys, the top ticker is the key of the first largest entry, each entry's count is what a lookup finds, and no lookup finds more than the top's count |
| CsvParser.ParseCsvFails | src/utils/csvParser.ts:51-52 | parsing fails exactly when the tokenizer yields no row |
| CsvParser.EmptyFileFails | src/utils/csvParser.ts:51-52 | the empty text fails, because there is no header row |
| CsvParser.BlankLineFails | src/utils/csvParser.ts:29-52 | a line of one space ended by a line feed is dropped as blank, so there is no header and parsing fails |
| CsvParser.LoneField | src/utils/csvParser.ts:44-48 | a pending field at the end of the text becomes a last row of one trimmed field |
| CsvParser.RunSpaces | src/utils/csvParser.ts:40-42 | spaces outside quotes only lengthen the pending field |
| CsvParser.BlankTokens | src/utils/csvParser.ts:44-48 | a text of spaces yields one row of one empty field |
| CsvParser.BlankTextSucceeds | src/utils/csvParser.ts:44-52 | so a text of spaces does not fail |
| CsvParser.HeaderOnlySummary | src/utils/csvParser.ts:57-132 | a text with one row gives zero totals, the current value as profit, 0 percent, `"N/A"` and Diamond Hands |
| CsvParser.DepositAmount | src/utils/csvParser.ts:63-70 | `"$1000"` reads as 1000 |
| CsvParser.YearColumns | src/utils/csvParser.ts:51-54 | the worked year's header puts code, amount and instrument at 0, 1 and 2 |
| CsvParser.AaplTrades | src/utils/csvParser.ts:88-98 | rows that buy or sell AAPL count one trade and one AAPL pick each, and move no money |
| CsvParser.DepositRow | src/utils/csvParser.ts:83-86 | an ACH row of 1000 adds 1000 to the inflow and nothing else |
| CsvParser.YearTotals | src/utils/csvParser.ts:72-99 | the worked year has 8 trade rows, 8 AAPL picks and no other, an inflow of 1000 and no outflow |
| CsvParser.SoleTicker | src/utils/csvParser.ts:101-102 | when only one instrument is a key, it is the top ticker |
| CsvParser.SoleInstrument | src/utils/csvParser.ts:101-102 | when the rows pick only one instrument, it is the top ticker |
| CsvParser.YearAggregate | src/utils/csvParser.ts:72-102 | the worked year's totals are 1000 in, 0 out, 8 trades, with AAPL on top |
| CsvParser.YearRecord | src/utils/csvParser.ts:104-132 | those totals with a current value of 1200 make a profit of 200, which is 20 percent, and Diamond Hands |
| CsvParser.YearSummary | src/utils/csvParser.ts:51-132 | the rows of the worked year, one deposit and five buys and three sells of AAPL, aggregate and summarise to 1000 in, 0 out, 8 trades, a profit of 200, 20 percent, AAPL on top and Diamond Hands |
| CsvParser.BareWords | src/utils/csvParser.ts:12-48 | the header and the codes and ticker of the worked year can be written as bare fields |
| CsvParser.YearBare | src/utils/csvParser.ts:12-48 | every row of the worked year can be written with bare fields when its deposit and price can |
| CsvParser.YearText | src/utils/csvParser.ts:3-133 | end to end: parsing the text of the worked year, one row per line, gives 1000 in, 0 out, 8 trades, a profit of 200, 20 percent, AAPL on top and Diamond Hands |

## Left out

- Reading the file (`await file.text()`, line 4) is left out. The model starts from the text, and the
  promise is not modelled.
- Thrown exceptions are not modelled as such. The `TypeError` that `rows[0]` being `undefined`
  causes is modelled as a `Failure` value.
- Text is a sequence of characters. UTF-16 code units, surrogate pairs and
  the file's encoding are not modelled.
- Numbers are exact reals. IEEE-754 rounding of sums, products and quotients, overflow to
  `Infinity`, and `-0` are not modelled.
- JsNumber.ParseFloat: the words `Infinity`, `+Infinity` and `-Infinity` read as NaN in the
  model, where JavaScript reads them as infinities. So the amount `Infinity` reads as 0 in the
  model instead of infinity, and `(Infinity)` reads as NaN instead of minus infinity. The
  decimal value is exact, and the binary rounding of the literal is not modelled.
- Summary.Round2: `parseFloat(x.toFixed(2))` is modelled on exact reals. A value in binary
  floating point just below a half may round down in the source where the model rounds up.
  The `-0` that `(-0.004).toFixed(2)` reads back as is the model's `0`.
- Object keys are modelled in insertion order. The record `stockCounts` is a sequence of
  entries in the order keys were first added. JavaScript lists integer-like keys such as
  `"123"` first and in ascending order. Keys such as `__proto__`, which clash with
  `Object.prototype`, behave differently in the source.
- `Array.prototype.sort` is modelled as the stable insertion sort it must be since ES2019. The
  comparator is `b[1] - a[1]`.
- CsvParser.YearText: the worked year is stated for every deposit text that reads as 1000 and
  every price text, both written as bare fields. `DepositAmount` shows one such deposit text,
  `"$1000"`. No file with literal deposit and price texts is worked through.
- The React components that call `parseCSV` are not part of this model. They pass the current
  portfolio value in and show the result. So is the `Stock`/`TradingYear` interface file beyond
  the fields the parser fills.
