# SMS expense tracker: a Dafny model

`SBAK.py` is a Streamlit page that loads a CSV of bank SMS messages or expenses and
shows where the money went. This project models the logic behind the page:

- **Amount extractor** (`extract_amount`). Reads the first `₹` figure of a message:
  the regular expression `₹\s?([\d,]+\.?\d*)`, then commas removed, then `float`.
- **Keyword categoriser** (`fallback_categorize`). Lower-cases the message and
  applies an ordered list of substring rules. The first rule that fires names the
  category.
- **Normaliser** (lines 47-57 of `app()`). Strips and lower-cases the column names,
  converts the `date` column, and derives `amount` and `category` from `message`
  when the file lacks them. The frame `df` changes in place.
- **Filters** (lines 61-81). Applies an inclusive date range, then up to three
  `isin` selections, each rebinding `filtered`.
- **Summary** (lines 83-96). Computes the total, the count, the sums per category
  and the sums per day, or the "no records" warning.

Modules:

| module | file | contents |
|---|---|---|
| `Outcome` | outcome.dfy | `Result`, `Option` and the exceptions the script can raise |
| `Text` | text.dfy | ASCII `\d`, `\s`, `str.lower()`, `str.strip()` and `in` on strings |
| `Amount` | amount.dfy | a hand-written scanner for the pattern, plus `float` on what it matches |
| `Categorise` | categorise.dfy | the five labels and the ordered keyword rules |
| `Frame` | frame.dfy | cells and tables, the normaliser as functions, and the `DataFrame` class whose methods change the frame in place |
| `Filter` | filter.dfy | the row masks, the `Filter` method that rebinds `filtered`, and the choices a multiselect offers |
| `Aggregate` | aggregate.dfy | the folds behind the metrics and the two `groupby` sums |
| `Pipeline` | pipeline.dfy | facts about normalise, then filter, then summarise |

Behaviours of the code that the model keeps, although a reader of the page might
expect otherwise:

- **A digitless figure raises.** A figure with no digit (`"₹,"`, `"₹,."`) matches
  the pattern, and `float` then raises (line 25). When amounts are derived, such a
  message stops the script.
- **A missing `date` column raises.** Line 51 raises a `KeyError` when the file has
  no `date` column.
- **An empty filtered table shows a warning.** Line 103 shows the warning and no
  summary, not a summary with a total of 0.
- **The end day is cut at midnight.** The range of line 63 ends at midnight at the
  start of the end day, so transactions later on that day are dropped.

## Model

| member | source | states |
|---|---|---|
| Text.Lower | SBAK.py:28 | `str.lower()` keeps the length and lower-cases each character on its own |
| Text.LowerIdempotent | SBAK.py:28 | lower-casing twice gives the same text as lower-casing once |
| Text.LowerAppend | SBAK.py:28 | lower-casing a concatenation gives the concatenation of the lower-cased parts |
| Text.Contains | SBAK.py:29-32 | `t in s` holds exactly when `t` occurs in `s` at some index |
| Text.OccursPastFirst | SBAK.py:29-32 | when `t` does not start `s`, it occurs in `s` exactly when it occurs in `s` without its first character |
| Text.ContainsExtended | SBAK.py:29-32 | an occurrence stays an occurrence when text is added on either side |
| Text.FirstCharAbsent | SBAK.py:29-32 | a keyword whose first letter is not in the text does not occur in it |
| Text.Trim | SBAK.py:47 | `str.strip()`: the result is a slice of the name with only whitespace around it, and it neither starts nor ends with whitespace |
| Amount.RunEnd | SBAK.py:24 | a greedy repetition stops at the end of the text or at the first character outside its class |
| Amount.RunEndAllIn | SBAK.py:24 | every character a greedy repetition takes belongs to its class |
| Amount.FindMatch | SBAK.py:24 | `re.search` reports the first position where the pattern matches, and no match when there is none |
| Amount.MatchesAt | SBAK.py:24 | where `re.search` can start a match: a `₹`, then a `[\d,]` character right after it or after one whitespace character. `FindMatch` and `ExtractAmountSpec` state how the leftmost such position is used |
| Amount.NumeralAt | SBAK.py:24 | group 1 starts after the sign and the one optional whitespace character, has at least one `[\d,]` character, and has a point exactly when a `.` follows the digits and commas |
| Amount.NumeralRuns | SBAK.py:24 | both parts of group 1 are the greedy runs of `[\d,]` and of `\d` |
| Amount.WholeText | SBAK.py:24 | the part of group 1 before the point is nonempty and made only of digits and commas |
| Amount.FracText | SBAK.py:24 | the part of group 1 after the point is made only of digits |
| Amount.MatchedText | SBAK.py:24 | `match.group(1)`, the span `NumeralAt` reports. `MatchedParts` states that it is the whole part, then the point and the fraction when there is a point |
| Amount.StripCommas | SBAK.py:25 | `replace(',', '')` leaves no comma and turns a run of digits and commas into digits |
| Amount.StripCommasAppend | SBAK.py:25 | removing commas distributes over concatenation |
| Amount.StripCommasWithoutCommas | SBAK.py:25 | text without commas is left unchanged |
| Amount.StripCommasKeepsDigits | SBAK.py:25 | removing commas keeps whether the text has a digit |
| Amount.HasDigitAppend | SBAK.py:25 | a concatenation has a digit exactly when one of its parts has |
| Amount.DigitsValue | SBAK.py:25 | the value of `n` digits is below 10 to the power `n` |
| Amount.DecimalValueBounds | SBAK.py:25 | the digits after the point add less than 1 to the whole part |
| Amount.DotIndex | SBAK.py:25 | finds the first point, or the end of the text when there is none |
| Amount.ParseFloat | SBAK.py:25 | `float` on digits with at most one point raises exactly when there is no digit; otherwise the value is not negative |
| Amount.DecimalTextOfParts | SBAK.py:25 | digits, then optionally a point and more digits, form text whose first point sits right after the whole digits |
| Amount.ParseFloatOfParts | SBAK.py:25 | `float` of whole digits, a point and fraction digits is their decimal value |
| Amount.MatchedParts | SBAK.py:24 | group 1 is its whole part, followed by the point and the fraction when it has a point |
| Amount.NoPointNoFraction | SBAK.py:24 | a group 1 without a point has an empty fraction |
| Amount.StrippedMatchText | SBAK.py:25 | group 1 without commas is the whole part without commas, followed by the point and the fraction |
| Amount.MatchedDigits | SBAK.py:24-25 | group 1 has a digit exactly when its whole part or its fraction has one |
| Amount.StrippedMatch | SBAK.py:24-25 | what `float` receives is decimal text. It has a digit exactly when group 1 has one, and then it reads as the value of the match |
| Amount.MatchValue | SBAK.py:25 | the number `float` makes of group 1 without its commas. `StrippedMatch` states that it is what `float` returns when group 1 has a digit, and `ExtractAmountSpec` that `extract_amount` returns it |
| Amount.ExtractAmount | SBAK.py:23-25 | `extract_amount` never returns a negative amount |
| Amount.ExtractAmountSpec | SBAK.py:23-25 | no match gives 0. Otherwise the leftmost match gives its value, or the `ValueError` of `float` when group 1 has no digit |
| Amount.ExtractAt | SBAK.py:23-25 | the result of `extract_amount` when the leftmost match is at a given position |
| Amount.ExtractAmountFailsOnlyInFloat | SBAK.py:25 | `extract_amount` can fail only with the `ValueError` of `float` |
| Amount.RunEndAt | SBAK.py:24 | a run that ends where its class first fails is the greedy run |
| Amount.RunEndShift | SBAK.py:24 | text in front moves a greedy run without changing it |
| Amount.MatchesAtShift | SBAK.py:24 | whether a match starts at a position depends only on the text from that position on |
| Amount.NumeralShift | SBAK.py:24 | text in front moves group 1 by its own length |
| Amount.HasPointShift | SBAK.py:24 | text in front does not change whether group 1 has a point |
| Amount.MatchedTextShift | SBAK.py:24 | a shifted match reads the same group 1 |
| Amount.WholeTextShift | SBAK.py:24 | a shifted match reads the same whole part |
| Amount.FracTextShift | SBAK.py:24 | a shifted match reads the same fraction |
| Amount.MatchShift | SBAK.py:24 | text in front moves each match without changing what it reads |
| Amount.PrefixWithoutRupee | SBAK.py:23-25 | text without a `₹` sign in front of a message does not change its amount |
| Amount.Figure | SBAK.py:24 | a written figure starts with the sign and has the length of its sign, gap, digits, and optional point and fraction |
| Amount.FigureLayout | SBAK.py:24 | in the text a figure heads, the sign, the gap, the digits, the point and the fraction sit where the figure puts them, and the rest of the text follows |
| Amount.FigureMatch | SBAK.py:24 | a figure, with or without one whitespace character after the sign and with or without a point, followed by text that does not continue it, matches at the sign; group 1 starts after the gap and ends where the figure ends |
| Amount.FigureTexts | SBAK.py:24 | the match of a figure reads the figure's own whole part and fraction |
| Amount.ExtractFigure | SBAK.py:23-25 | a figure with a digit (such as `₹500`, `₹ 500` or `₹1,234.50`) is read back as its value, without its commas |
| Amount.ExtractFigureAfter | SBAK.py:23-25 | the same holds after any text that has no `₹` sign |
| Amount.StripThousands | SBAK.py:25 | "1,234" without its commas is "1234" |
| Amount.ValueOfThousands | SBAK.py:25 | "1234" with fraction "50" is 1234.5 |
| Amount.PaidToAmazon | SBAK.py:23-25 | "Paid ₹1,234.50 to Amazon" gives 1234.5 |
| Amount.ValueOfOnePointTwo | SBAK.py:25 | "1" with fraction "2" is 1.2 |
| Amount.SecondPointEndsTheFigure | SBAK.py:23-25 | "₹1.2.3" gives 1.2 |
| Amount.ValueOfFiveHundred | SBAK.py:25 | "500" without commas reads as 500 |
| Amount.SpaceAfterSign | SBAK.py:23-25 | "Spent ₹ 500 at Zomato" gives 500: `\s?` takes the one space after the sign |
| Amount.TwoSpacesAfterSign | SBAK.py:23-25 | "₹  5" (two spaces) gives 0 |
| Amount.NoSign | SBAK.py:23-25 | "Swiggy order" gives 0 |
| Amount.CommaOnlyMatch | SBAK.py:24 | in "₹," the leftmost match is at the sign, and group 1 is "," |
| Amount.CommaOnly | SBAK.py:23-25 | "₹," raises the `ValueError` of `float('')` |
| Amount.CommaAndPointMatch | SBAK.py:24 | in "₹,." the leftmost match is at the sign, and group 1 is ",." |
| Amount.CommaAndPoint | SBAK.py:23-25 | "₹,." raises the `ValueError` of `float('.')` |
| Categorise.Name | SBAK.py:29-33 | every label writes a nonempty name |
| Categorise.NameInjective | SBAK.py:29-33 | different labels write different names |
| Categorise.Categorize | SBAK.py:27-33 | the category is triggered by one of its keywords in the lower-cased message, or is Others when no keyword occurs. No label of higher priority is triggered |
| Categorise.FirstTriggered | SBAK.py:27-33 | conversely, the triggered label that no higher-priority label precedes is the category |
| Categorise.OthersWithoutKeywords | SBAK.py:28-33 | Others is returned exactly when none of the seven keywords occurs in the lower-cased message |
| Categorise.CaseInsensitive | SBAK.py:28 | lower-casing the message first does not change its category |
| Categorise.SameUpToCase | SBAK.py:28 | messages that agree up to case get the same category |
| Categorise.TriggersExtended | SBAK.py:28-32 | a keyword keeps occurring when text is added around the message |
| Categorise.ExtendingKeepsPriority | SBAK.py:28-33 | adding text around a message never moves it to a lower-priority category |
| Categorise.BillingIsUtilities | SBAK.py:32 | "billing" is Utilities |
| Categorise.SwiggyIsFood | SBAK.py:30 | "Swiggy order" is Food |
| Categorise.AmazonIsShopping | SBAK.py:29 | "Paid ₹1,234.50 to Amazon" is Shopping |
| Categorise.FuelBeforeBill | SBAK.py:31-32 | "Fuel bill" is Fuel: the fuel rule comes before the bill rule |
| Frame.IndexFrom | SBAK.py:49-57 | finds the first column of a name at or after a position, and nothing when there is none |
| Frame.ColumnIndex | SBAK.py:49-57 | `df[n]` uses the first column called `n`. Nothing is found exactly when there is no such column |
| Frame.AddColumn | SBAK.py:53-57 | assigning a new column appends the name, keeps the rows' old cells, and appends the new cell to each row |
| Frame.NormaliseNameLower | SBAK.py:47 | a normalised name has no upper-case letter |
| Frame.NormaliseName | SBAK.py:47 | one column name stripped, then lower-cased. `NormaliseNameLower` states that the result has no upper-case letter, and `Text.Trim` what the strip leaves |
| Frame.NormaliseNames | SBAK.py:47 | each name is stripped and lower-cased on its own |
| Frame.RenameDate | SBAK.py:50 | every column called "Date" becomes "date", and other names are kept |
| Frame.Renamed | SBAK.py:47-50 | renaming keeps the rows and the number of columns |
| Frame.RenameIsDead | SBAK.py:47-50 | after line 47 no column is called "Date", so the rename never fires |
| Frame.ToDatetime | SBAK.py:51 | `errors='coerce'` turns a cell the parser reads into its timestamp, and a cell it cannot read, or a missing cell, into NaT |
| Frame.ConvertColumn | SBAK.py:51 | only the date cell of each row is converted |
| Frame.WithDates | SBAK.py:51 | the conversion fails with the `KeyError` for `date` exactly when there is no `date` column. Otherwise it keeps the names and the number of rows |
| Frame.AmountCell | SBAK.py:54 | an amount written into the column is a number that is not negative |
| Frame.MessageText | SBAK.py:24-28 | `str(msg)` in both helpers (lines 24 and 28): a text message is itself, and any other cell reads as `"nan"`. `NonTextMessage` states what that gives |
| Frame.NonTextMessage | SBAK.py:24-33 | a message cell that is not text gets the amount 0 and the category Others, since `"nan"` has no `₹` and no keyword |
| Frame.Applied | SBAK.py:54 | `apply` gives the helper's result for every cell, or the error of the first cell on which the helper raises |
| Frame.AppliedAllOk | SBAK.py:54 | `apply` succeeds when the helper succeeds on every cell |
| Frame.AppliedFirstFailure | SBAK.py:54 | the first failing cell decides the error of `apply` |
| Frame.Apply | SBAK.py:54 | the loop behind `apply` computes `Applied` |
| Frame.WithAmount | SBAK.py:53-54 | the `amount` column is added only when `amount` is absent and `message` is present. Every existing cell is kept |
| Frame.CategoryCells | SBAK.py:57 | each cell holds the category name of its message |
| Frame.WithCategory | SBAK.py:56-57 | the `category` column is added only when `category` is absent and `message` is present. Every existing cell is kept |
| Frame.Normalised | SBAK.py:47-57 | a successful normalisation gives a well-formed table with the same number of rows. `NormalisedKeepsCells` states which cells stay the same |
| Frame.NormalisedSteps | SBAK.py:47-57 | with a `date` column, normalisation goes on to derive the amounts and then the categories |
| Frame.NormalisedOk | SBAK.py:47-57 | a successful normalisation found a `date` column, derived the amounts, and then derived the categories |
| Frame.DatedCells | SBAK.py:51 | the date column is converted, and every other cell is the file's own |
| Frame.DatesKeepColumn | SBAK.py:51 | converting the dates leaves every other column as it was |
| Frame.DatedMessages | SBAK.py:51 | the messages after the conversion are the file's own |
| Frame.NormalisedKeepsCells | SBAK.py:47-57 | after normalisation, every cell of the file is kept, apart from the converted date |
| Frame.ColumnIndexAfter | SBAK.py:53-57 | a newly added column is found where it was appended |
| Frame.ColumnIndexAppend | SBAK.py:53-57 | appending columns does not move an existing column |
| Frame.AmountKeepsMessages | SBAK.py:53-54 | deriving amounts adds no `category` column and leaves the messages where they were |
| Frame.NormalisedNames | SBAK.py:47-57 | the columns are the normalised names, then `amount` and `category` where they had to be derived |
| Frame.AmountErrorIsNotANumber | SBAK.py:54 | deriving amounts can fail only with the `ValueError` of `float` |
| Frame.MissingDateFails | SBAK.py:51 | normalisation fails with the `KeyError` for `date` exactly when the file has no `date` column |
| Frame.DerivedAmountFailure | SBAK.py:53-54 | a file with messages and no amounts fails exactly when one of its messages does, with the first such error |
| Frame.AmountsOfMessages | SBAK.py:54 | the derived amount of each row is what `extract_amount` gives for its message |
| Frame.DerivedAmounts | SBAK.py:47-57 | after normalisation, the derived `amount` column follows the file's columns. Each cell is what `extract_amount` gives for that row's message |
| Frame.CategoriesOfMessages | SBAK.py:57 | the derived category of each row is the category of its message |
| Frame.DerivedCategories | SBAK.py:47-57 | after normalisation, the derived `category` column is the last column. Each cell is the category of that row's message |
| Frame.DataFrame.constructor | SBAK.py:46 | the frame holds the table as loaded |
| Frame.DataFrame.NormaliseColumns | SBAK.py:47-50 | the names are normalised in place, as `Renamed` describes |
| Frame.DataFrame.ConvertDates | SBAK.py:51 | the dates are converted in place, or the `KeyError` is returned and the frame is left as it was |
| Frame.DataFrame.AddAmounts | SBAK.py:53-54 | the frame becomes `WithAmount` of itself, or the error is returned and the frame is left as it was |
| Frame.DataFrame.AddCategories | SBAK.py:56-57 | the frame becomes `WithCategory` of itself |
| Frame.DataFrame.Normalise | SBAK.py:47-57 | the frame becomes the normalised table. On failure the error is returned, and the frame holds the steps done before the failing one |
| Filter.Select | SBAK.py:63-81 | boolean-mask indexing keeps exactly the rows the mask accepts, each as many times as it occurs, and never more rows than it had |
| Filter.SelectSubseq | SBAK.py:63-81 | mask indexing keeps rows in their original order |
| Filter.SelectMonotone | SBAK.py:63-81 | a stricter mask keeps a subsequence of what a looser mask keeps |
| Filter.SelectTwice | SBAK.py:63-81 | masking twice is masking once with both conditions |
| Filter.SelectNone | SBAK.py:63-81 | a mask that rejects every row keeps nothing |
| Filter.SelectSame | SBAK.py:63-81 | masks that agree on every row keep the same rows |
| Filter.Keeps | SBAK.py:63-81 | a row meets the date range and every selection that applies. `Filtered` states that the kept rows are exactly these |
| Filter.Mask | SBAK.py:63-81 | the boolean mask of lines 63-81 as a whole, `Keeps` on each row. `Filtered` states what indexing with it keeps |
| Filter.Filtered | SBAK.py:63-81 | the filtered table keeps the columns, and keeps exactly the rows that meet the date range and every active selection, each as many times as it occurs in the table |
| Filter.NarrowStep | SBAK.py:68-81 | one `isin` step adds its condition to those already applied |
| Filter.Narrow | SBAK.py:68-81 | one `isin` rebinding of `filtered`. It changes nothing when the column is absent or nothing is selected. `NarrowStep` states that it adds its condition to those before it, and `Filter.Filter` that the rebindings together give `Filtered` |
| Filter.Filter | SBAK.py:63-81 | rebinding `filtered` through the date range and the three selections gives `Filtered` |
| Filter.FilteredIsSubsequence | SBAK.py:63-81 | the filtered rows are rows of the table, in their original order |
| Filter.KeptRowsInRange | SBAK.py:63 | every kept row has a known date between midnight of the start day and midnight of the end day |
| Filter.UnknownDateExcluded | SBAK.py:63 | a row whose date is NaT is never kept |
| Filter.EndDayAfterMidnightExcluded | SBAK.py:63 | a transaction later than midnight at the start of the end day is not kept |
| Filter.EmptyRangeKeepsNothing | SBAK.py:63 | a range that ends before it starts keeps nothing |
| Filter.EmptySelectionsOnlyRange | SBAK.py:63-81 | with no selection, the date range is the only condition |
| Filter.AbsentColumnIgnored | SBAK.py:71-75 | a location selection has no effect on a table without a `location` column |
| Filter.NarrowerKeepsFewer | SBAK.py:63-81 | a narrower range or narrower selections keep a subsequence of the rows, and never more rows |
| Filter.OneDayRange | SBAK.py:63 | from rows dated day `d`, day `d+1` and NaT, the range `[d, d]` keeps the first row only |
| Filter.OnlyDateColumn | SBAK.py:63-81 | in a table whose only column is `date`, a row is kept exactly when its date is in range |
| Filter.KeepsFirstOfThree | SBAK.py:63 | of three rows of such a table, when only the first is dated in range, only the first is kept |
| Filter.Unique | SBAK.py:65-81 | `dropna().unique()` gives each present value once, and never NA |
| Filter.Choices | SBAK.py:65-81 | a multiselect offers exactly the values of the column that are not NA |
| Filter.MissingCategoryExcluded | SBAK.py:65-69 | with a category selection drawn from the choices, a row without a category is not kept |
| Aggregate.AddToFacts | SBAK.py:91 | adding an amount to a category changes that category's sum and no other. It adds the key and raises the total by the amount, and the keys stay distinct |
| Aggregate.SumOfAbsent | SBAK.py:89-96 | a key without a group has sum 0 |
| Aggregate.InsertDayKeys | SBAK.py:95 | adding a day's amount adds the day to the keys and raises the total by the amount |
| Aggregate.InsertDayAscending | SBAK.py:95 | adding a day's amount keeps the days ascending |
| Aggregate.InsertDaySums | SBAK.py:95 | adding a day's amount changes that day's sum and no other |
| Aggregate.FirstNonNumeric | SBAK.py:86 | finds the first amount that is neither a number nor missing, and nothing when there is none |
| Aggregate.Sum | SBAK.py:86 | `filtered['amount'].sum()`, with missing values skipped. `SummaryFigures` states that the total shown is this sum, and `ByCategoryFacts` and `ByDayFacts` how the groups add up to it |
| Aggregate.ByCategoryFacts | SBAK.py:91 | there is one group per category present, each with the sum of its rows. Together with the rows without a category they make up the whole sum |
| Aggregate.ByCategory | SBAK.py:90-91 | `groupby("category")["amount"].sum()`. `ByCategoryFacts` states that there is one group per category present, each with the sum of its rows, and that rows without a category are left out |
| Aggregate.ByDayFacts | SBAK.py:95 | the days are ascending and are exactly the days of the dated rows. Each day shows the sum of its rows, and the days add up to the amounts of the dated rows |
| Aggregate.DayOf | SBAK.py:95 | `.dt.date`: the day a timestamp falls on, counted from the epoch, and no day for NaT. `ByDayFacts` uses it for the day of each row |
| Aggregate.ByDay | SBAK.py:95 | `groupby(date.dt.date)["amount"].sum()`. `ByDayFacts` states that the days are ascending and are exactly the days of the dated rows, each with the sum of its rows |
| Aggregate.AllDated | SBAK.py:95 | when every row is dated, the dated amounts are the whole sum |
| Aggregate.NoMissingKey | SBAK.py:91 | when no row lacks a category, nothing is left out of the category groups |
| Aggregate.Summarise | SBAK.py:83-96 | the warning is shown exactly when no row is left. The count is the number of rows, and the category breakdown appears exactly when there is a `category` column |
| Aggregate.SummariseFailures | SBAK.py:86-95 | the script fails first on a missing `amount` column, then on the first non-numeric amount, and only then on a missing `date` column |
| Aggregate.SummaryFigures | SBAK.py:86-95 | the total is the sum of the amounts. The days shown are exactly the days of the dated rows, in ascending order; each day shows the sum of its rows, and the days add up to the dated amounts |
| Aggregate.SummaryCategories | SBAK.py:91 | the categories shown are exactly those present, each once, and each shows the sum of its rows. The categories and the rows without one add up to the total |
| Aggregate.NoMissingCategoryAddsUp | SBAK.py:91 | when every row has a category, the categories add up to the total |
| Aggregate.FilteredDaysAddUp | SBAK.py:63-96 | after the date filter every row is dated, so the days add up to the total |
| Pipeline.AmountColumnOfNormalised | SBAK.py:53-54 | a derived `amount` column comes right after the file's columns |
| Pipeline.AmountCellsOfNormalised | SBAK.py:53-54 | every derived amount is a number |
| Pipeline.CategoryColumnOfNormalised | SBAK.py:56-57 | a derived `category` column is the last column |
| Pipeline.CategoryCellsOfNormalised | SBAK.py:56-57 | every derived category is a text |
| Pipeline.DerivedAmountsAlwaysSummarised | SBAK.py:83-96 | when the amounts were derived, the summary step (lines 83-96) shows the warning or a summary for every filter and never fails |
| Pipeline.DerivedCategoriesAddUp | SBAK.py:56-91 | when the categories were derived, the category sums add up to the total |

## Left out

- The login form and its hard-coded users (lines 9-20 and 108-109) are not modelled. They are widget input and credentials, not logic.
- The page layout, titles, metrics, warnings and info messages (lines 7, 40-45, 84-103) are not modelled. `Aggregate.View` records which outcome the page shows.
- File I/O is not modelled: reading the CSV from its fixed path (line 46), `convert_df`, and the download button (lines 35-36 and 101). The model starts from the loaded table, which is `Frame.DataFrame.constructor`.
- The Plotly pie chart and the line chart (lines 92 and 96) are not modelled. The model computes the data they are given.
- `pd.to_datetime` is not re-implemented. It is the parameter `parse`, which gives a timestamp in seconds or nothing; a missing result becomes NaT.
- The sidebar widgets are left out (lines 61-62, 67, 73 and 79). Their choices are the `Query` parameter. The default range is the earliest and latest date, and is not modelled.
- Floating point is not modelled. Amounts and sums are exact reals, so `float` rounding and the `:,.2f` display format are left out.
- `\d`, `\s`, `str.lower()` and `str.strip()` are restricted to ASCII, whereas Python's versions are Unicode-wide.
- A column name can appear more than once in a table. The model then uses the first such column, where pandas would return every column of that name.
- A message cell that is not text (NaN, or a number) is read as `"nan"`. It holds no `₹` sign and no keyword, as its `str()` would not.
- The category groups and the multiselect options keep their keys in order of first appearance. pandas sorts the `groupby` keys and keeps `unique` in order of appearance. Only sums and membership are stated, not the order of the category groups.
- Frame.DataFrame.Normalise: when a step raises, the frame holds the steps done before it. This matches pandas, where the assignment of the failing step never happens.
- Aggregate.Summarise: an `amount` column holding text is reported as the error `NonNumericAmount`. pandas might concatenate the strings and fail only in the `,.2f` format, and the model does not distinguish the two.
- Aggregate.DayOf: a date cell that is neither a timestamp nor NaT has no day, like NaT. After line 51 a `date` column holds only timestamps and NaT.
- Aggregate.Value: missing amounts count as 0 in the sums, as `sum()` skips them. NaN handling beyond that is not modelled.
