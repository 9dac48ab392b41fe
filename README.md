# Business Operations Bot — a Dafny model of its analysis core

Business Operations Bot is a chat bot that answers questions about a weekly
KPI report of car-service shops. The report is a spreadsheet with one row
per shop and week. This project models its two core pieces.

- **Cleaning and analysis** (`scripts/analyzes.py`).
  - `clean_and_process_kpi` coerces the week-ending dates and masks out rows
    whose raw daily sales are missing, zero or blank. It strips currency
    characters from daily sales and parses them, masks rows whose prior-year
    CPD or repeat-customer ratio is zero, and drops five known columns. It
    parses the year-over-year growth percentage when that column exists.
  - Four aggregators each group the table by `Shop`, average one column,
    round to two decimals and sort. They cover revenue (highest first),
    bay time (lowest first), cars per day (highest first) and growth
    (highest first, printed as a `%` label).
  - `count_top` and `build_leaderboard` count, for each shop, how many
    rankings have it in their first 1, 3 and 5 rows. They then sort by those
    three counts.
- **The bot** (`bot/app.py`).
  - `load_data` picks a reader by the file's suffix. It turns every failure
    into `None`.
  - `respond` lower-cases and strips the message and tests six phrase lists
    in a fixed order. It answers from the first list the message mentions,
    or with an overview. It then appends the user's turn and the bot's turn
    to the chat history.

Modules, one per file:

| module | file | models |
|---|---|---|
| `Wrappers` | wrappers.dfy | `Option`, `Result` |
| `Sequences` | sequences.dfy | sorting by a total preorder, de-duplication, counting, `head(n)` |
| `Text` | text.dfy | `str.isspace`, ASCII `lower`, `strip`, `endswith`, regex character-class deletion, `in` on strings |
| `Numbers` | numbers.dfy | the plain decimal forms `pd.to_numeric` accepts, `round(2)`, and Python's `str` of a two-decimal float |
| `Table` | table.dfy | the DataFrame: columns, rows as maps, cells (missing, number, text, date), boolean masks, the escaping exceptions |
| `Cleaning` | cleaning.dfy | `clean_and_process_kpi`, as a specification function `CleanKpi` and as a procedure on a mutable `Frame` |
| `Metrics` | metrics.dfy | the four aggregators |
| `Leaderboard` | leaderboard.dfy | `count_top`, `build_leaderboard` |
| `App` | app.dfy | `load_data`, `respond`, the chat history |

The model makes these choices:

- An exception the source lets escape is an `Err`; no precondition hides
  it. The exceptions are a `KeyError` on an absent column, a `TypeError`
  from `mean` over text and an `IndexError` from `iloc[0]` on an empty
  ranking.
- The empty frame `pd.DataFrame()` returned by a guarded aggregator is
  `Unavailable` (`NoGrowth` for growth).
- The file readers and the date parser are parameters (`Disk`, `toDate`).
- A reply is a `Reply` value that names what the text shows: the shop,
  its value, the rows shown, the counts. The four fixed wordings are
  stated verbatim in `App.Wording`'s contract.

## Model

| member | source | states |
|---|---|---|
| Cleaning.CleanKpi | scripts/analyzes.py:11-43 | An absent `WeekEndingCY`, `Sales / Day`, `CPD - PY` or `Customers Repeat % - CY` is a `KeyError` naming the first absent one, in the order the code touches them. Otherwise it succeeds. Its columns are the input's in their order, each kept name as often as in the input, and no known name. With no repeated name, none is repeated and exactly the known names present are lost, which fixes the column count the overview reports. |
| Cleaning.CleanAndProcess | scripts/analyzes.py:11-43 | Step by step on a mutable frame it computes exactly `CleanKpi`, with the same error, into a fresh frame. The caller's frame gets the coerced dates (line 16) and nothing else, and is untouched when the date column is absent. |
| Cleaning.CleanDated | scripts/analyzes.py:18-43 | On a dated frame it fails exactly when a required column is absent, naming the first. Otherwise a fresh frame holds the kept columns and the filtered, parsed, trimmed rows. |
| Cleaning.Frame.constructor | scripts/analyzes.py:19-21 | A new frame (`df = df[mask]`) holds the given columns and rows. |
| Cleaning.DateRows | scripts/analyzes.py:16 | Every row's week-ending cell becomes a date or missing; the number of rows is kept. |
| Cleaning.SalesPresent | scripts/analyzes.py:19-21 | A raw daily-sales cell passes the three masks when it is a non-zero number, non-empty text (so the text `0` passes) or a date; a missing cell never passes. |
| Cleaning.RatiosNonZero | scripts/analyzes.py:28 | A row passes exactly when neither the prior-year CPD nor the repeat ratio is the number zero; the repeated CPD test adds nothing, and missing or text cells pass. |
| Cleaning.ToNumericMissing | scripts/analyzes.py:24-25 | Text becomes missing exactly when its cleaned text is not an optional sign before a decimal: the `errors='coerce'` path. |
| Cleaning.ToNumeric | scripts/analyzes.py:24-25 | A number stays itself. Missing and dates become missing (their text is not numeric). Text loses the class characters and parses, or becomes missing. The result is always a number or missing. |
| Cleaning.PresentDrops | scripts/analyzes.py:31-39 | None of the dropped names is a column the pipeline reads, so the growth test at line 39 sees the same columns as before the drop. Its first clause, the known columns the table has, only names the set the body builds. |
| Cleaning.KeepColumns | scripts/analyzes.py:36 | Exactly the names not dropped, in their order (a subsequence), each as often as in the input; never more columns than before. |
| Cleaning.KeepColumnsDistinct | scripts/analyzes.py:36 | A column list without repeats stays without repeats. |
| Cleaning.KeepColumnsCount | scripts/analyzes.py:36 | Without repeats, the number of columns drops by the number of dropped names the list had. |
| Cleaning.DroppedColumns | scripts/analyzes.py:31-36 | The same facts for the five known names: order kept, kept names as often as before, none of the known names, and the count down by the known names present. |
| Cleaning.CleanKeepsRows | scripts/analyzes.py:19-28 | The cleaned rows are exactly the raw rows that pass the three sales masks and the ratio mask, in their order, each transformed by `Processed`. |
| Cleaning.ProcessedCells | scripts/analyzes.py:16-41 | Cell by cell, a kept row has its date coerced, its sales parsed, the present known columns removed and its growth parsed when that column exists. Every other cell is unchanged. |
| Cleaning.CleanedShape | scripts/analyzes.py:11-43 | A cleaned table has no known column but all required ones. Its dates are dates or missing, its sales and growth are numbers or missing, and its ratios are never zero. |
| Cleaning.CleanIdempotentIff | scripts/analyzes.py:19-25 | With a date parser stable on dates, cleaning a cleaned table gives it back if and only if every row's daily sales are a non-zero number. |
| Cleaning.ZeroTextSurvivesOnce | scripts/analyzes.py:20-25 | The raw text `$0` passes the zero mask (it is not the number 0), becomes 0 and is dropped by a second pass, so cleaning is not idempotent on it. |
| Cleaning.SecondPassKeepsAll | scripts/analyzes.py:19-43 | A cleaned table whose sales are all non-zero numbers is a fixed point of cleaning. |
| Cleaning.SecondPassDrops | scripts/analyzes.py:19-25 | A cleaned table with one row whose sales are not a non-zero number is not a fixed point. |
| Cleaning.CleanSingleRow | scripts/analyzes.py:11-43 | A one-row table whose row survives cleans to that row, processed. |
| Cleaning.CurrencyCleanupExample | scripts/analyzes.py:24-25 | `$1,234.50` cleans to 1234.5. |
| Cleaning.PercentCleanupExample | scripts/analyzes.py:40-41 | `12.5 %` cleans to 12.5. |
| Numbers.ParseNumber | scripts/analyzes.py:25 | The empty text is not a number. |
| Numbers.ParseUnsignedAccepts | scripts/analyzes.py:25 | An unsigned text parses if and only if it has only digits and dots, at most one dot and at least one digit. |
| Numbers.ParseNumberAccepts | scripts/analyzes.py:25 | A text parses if and only if it is such a decimal, optionally after one `-` or `+`; everything else is missing. |
| Numbers.LetterNotNumber | scripts/analyzes.py:25 | In the modelled decimal grammar, text with an ASCII letter in it (either case) is missing. |
| Numbers.FracText | scripts/analyzes.py:105 | The fraction digits have the hundredths' value. There is one digit exactly when the hundredths end in zero, and never a trailing zero. |
| Numbers.ReprExamples | scripts/analyzes.py:105 | 12.5 prints as `12.5` and 7.25 as `7.25`. |
| Numbers.ParseDecimal | scripts/analyzes.py:25 | Digits, a dot and digits parse as whole part plus fraction over a power of ten; either side may be empty, not both. |
| Numbers.ParseWhole | scripts/analyzes.py:24-25 | A digit string without a dot, such as `1234` from `$1,234`, parses to the integer it spells. |
| Numbers.SignParse | scripts/analyzes.py:25 | A leading `+` gives the unsigned parse unchanged; a leading `-` succeeds exactly when the unsigned parse does and negates it. |
| Numbers.WholeExample | scripts/analyzes.py:24-25 | `1234` parses to 1234. |
| Numbers.DotExamples | scripts/analyzes.py:25 | `.5` parses to 0.5 and `1.` to 1. |
| Numbers.PlusExample | scripts/analyzes.py:25 | `+7.25` parses to 7.25. |
| Numbers.MinusExample | scripts/analyzes.py:25 | `-3` parses to -3. |
| Numbers.RoundCents | scripts/analyzes.py:52 | `round(2)` picks the nearest number of cents, within half a cent. |
| Numbers.RoundIdempotent | scripts/analyzes.py:52 | Rounding a rounded value changes nothing. |
| Numbers.PyReprRoundTrip | scripts/analyzes.py:105 | The text `str` gives a two-decimal value parses back to that value, negative values included. |
| Numbers.PyRepr | scripts/analyzes.py:105 | The text is non-empty; it starts with `-` exactly for a negative value, and otherwise with a digit, with a digit after the sign. Its value is fixed by Numbers.PyReprRoundTrip and its digits by Numbers.FracText. |
| Metrics.Aggregate | scripts/analyzes.py:45-104 | It is `Unavailable` exactly when guarded and the column is absent. An absent `Shop` or unguarded column is a `KeyError`, and text in the column is a `TypeError`; it succeeds in no other case. A ranking is sorted by value in the given direction, NaN last, and is a permutation of the per-shop rounded means. |
| Metrics.Shops | scripts/analyzes.py:50 | The group keys: every non-missing shop of the table, once. |
| Metrics.Mean | scripts/analyzes.py:51 | The mean times the count is the sum. |
| Metrics.ValuesFound | scripts/analyzes.py:50-51 | The numbers averaged for a shop come from that shop's rows in the column, and every number in those rows is among them; there are none exactly when no row of the shop has a number there. |
| Metrics.ValuesAppend | scripts/analyzes.py:50-51 | Collecting works row by row: two row lists give the first's numbers followed by the second's. With Metrics.ValuesOne this fixes the collected list, so each of the shop's numbers is averaged once. |
| Metrics.ValuesOne | scripts/analyzes.py:50-51 | One row gives its number exactly when it is the shop's and holds a number in the column, and nothing otherwise. |
| Metrics.GroupValueMeaning | scripts/analyzes.py:50-52 | A shop's value is NaN exactly when its rows have no number in the column, and otherwise within half a cent of their mean. |
| Metrics.RankedEntries | scripts/analyzes.py:49-56 | A ranking has one entry per non-missing shop and no other, each carrying its shop's rounded mean, with every pair of entries in order. |
| Metrics.RankedOrder | scripts/analyzes.py:55 | A NaN is never followed by a number. Descending values do not increase and ascending ones do not decrease. |
| Metrics.AnalyzeRevenue | scripts/analyzes.py:45-57 | With no guard, it succeeds, always as a ranking, exactly when `Shop` and `Sales / Day` exist and the sales are numeric. |
| Metrics.AnalyzeBayTime | scripts/analyzes.py:59-73 | It is the empty result exactly when `BayTime` is absent. |
| Metrics.AnalyzeCpd | scripts/analyzes.py:75-89 | It is the empty result exactly when `CPD` is absent. |
| Metrics.AnalyzeGrowth | scripts/analyzes.py:91-106 | It is the empty result exactly when the growth column is absent, and it fails exactly when the aggregate fails. |
| Metrics.LabelRows | scripts/analyzes.py:105-106 | Each entry becomes its shop and its label, in order. |
| Metrics.Label | scripts/analyzes.py:105 | Every label ends in `%`. The text before it is pinned by Numbers.FracText (no trailing zero), Metrics.LabelExamples and Metrics.LabelRoundTrip. |
| Metrics.LabelExamples | scripts/analyzes.py:105 | The labels of 12.5 and 7.25 are `12.5%` and `7.25%`. |
| Metrics.FirstLeads | scripts/analyzes.py:49-56 | The first shop of a non-empty descending ranking is a shop of the table whose mean is at least every other shop's. |
| Metrics.LabelRoundTrip | scripts/analyzes.py:105 | The label of a two-decimal value, without its `%`, parses back to the value. |
| Metrics.GrowthLabels | scripts/analyzes.py:97-106 | Every growth label is exactly `Label` of that shop's rounded mean growth: `nan%` for a shop without values, otherwise a text that parses back to the value, followed by `%`. |
| Metrics.CleanRevenueRanked | scripts/analyzes.py:24-25 | On any cleaned table that has `Shop`, the revenue ranking exists: cleaning leaves only numbers or missing in daily sales. |
| Metrics.CleanGrowthLabelled | scripts/analyzes.py:38-41 | On any cleaned table with `Shop` and the growth column, the growth labels exist. |
| Metrics.RevenueExample | scripts/analyzes.py:45-57 | Shop A at 100 and 120 and shop B at 50 rank as A at 110, then B at 50. |
| Leaderboard.CountTop | scripts/analyzes.py:108-112 | It fails with a `KeyError` on `Shop` exactly for the empty frame. Otherwise it gives a prefix of the shop column, of length `min(n, rows)`. |
| Leaderboard.PoolsAreCountTops | scripts/analyzes.py:108-137 | The pools are the four `count_top` results concatenated in order, and the leaderboard fails exactly when one of those calls fails. |
| Leaderboard.PoolMembers | scripts/analyzes.py:118-137 | The concatenated pool holds exactly the shops found in some ranking's first `n` rows. |
| Leaderboard.Hits | scripts/analyzes.py:118-143 | The number of rankings whose first `n` rows hold a shop is at most the number of rankings. |
| Leaderboard.HitsExtremes | scripts/analyzes.py:118-143 | It is zero exactly when no such window holds the shop, and all of them exactly when every window does. |
| Leaderboard.Keys | scripts/analyzes.py:139-142 | The outer join's keys: every non-missing shop of the top-five pool, once. |
| Leaderboard.Standings | scripts/analyzes.py:118-143 | When no ranking repeats a shop, each key's Top1, Top3 and Top5 is the number of rankings whose first 1, 3 or 5 rows hold the shop (the reference count Hits), zero when none does. Its first clause, the appearance counts in the pools, only names what the body computes; the Hits clause carries the meaning. |
| Leaderboard.Board | scripts/analyzes.py:139-145 | Sorted by (Top1, Top3, Top5) descending, and a permutation of the standings. |
| Leaderboard.BuildLeaderboard | scripts/analyzes.py:114-146 | It fails with a `KeyError` on `Shop` exactly when any of the four metrics is the empty frame, and is otherwise the board of their four shop columns. |
| Leaderboard.TierBounds | scripts/analyzes.py:118-143 | Every row has Top1 ≤ Top3 ≤ Top5. When no ranking repeats a shop, each count is the number of rankings whose window holds the shop, at most four. |
| Leaderboard.BoardRows | scripts/analyzes.py:132-145 | The board has one row per non-missing shop found in the first five rows of some ranking, no other row and no repeat. Every pair of rows is in tier order. |
| Leaderboard.SumTop1NonEmpty | scripts/analyzes.py:118-140 | When no ranking lists a missing shop, the Top1 column adds up to the number of non-empty rankings. |
| Leaderboard.SumTop1Permutation | scripts/analyzes.py:144 | Reordering rows does not change the Top1 sum. |
| Leaderboard.RankingShopsClean | scripts/analyzes.py:49-56 | An available ranking's shop column has no repeat and no missing shop. |
| Leaderboard.GrowthShopsClean | scripts/analyzes.py:105-106 | The growth result lists the shops of its ranking, in the same order. |
| Leaderboard.SoleLeader | scripts/analyzes.py:114-146 | A shop first in four one-shop rankings is the only row, with counts (4, 4, 4). |
| App.KindOf | bot/app.py:31-36 | `.csv` (any case) is CSV. The suffix is unsupported exactly when it is none of `.csv`, `.xlsx`, `.xls`. |
| App.KindIgnoresCase | bot/app.py:31-33 | The suffix test does not see letter case. |
| App.LoadData | bot/app.py:28-39 | An unsupported suffix is `None`; otherwise it is what the chosen reader gives, `None` when the reader fails. |
| App.DataFileIsExcel | bot/app.py:24-34 | `KPI_Report.xlsx` is read by the spreadsheet reader. |
| App.Normalize | bot/app.py:60 | The result is no longer than the message. It has no upper-case ASCII letter and neither starts nor ends with a single quote. |
| App.NormalizeKeeps | bot/app.py:60 | A lower-case message with no surrounding blanks or quotes is unchanged. |
| Text.Lower | bot/app.py:60 | Same length, each character lower-cased, ASCII upper case mapped 32 code points down and every other character kept. |
| Text.Strip | bot/app.py:60 | The result is a contiguous slice of the input. Everything cut off before and after it is junk, its ends are not junk, and all-junk text strips to empty. |
| Text.RemoveAll | scripts/analyzes.py:24 | No junk character remains, the text never grows, and text without junk is unchanged. |
| Text.RemoveAllKeeps | scripts/analyzes.py:24 | The result is a subsequence of the text holding every non-junk character as often as the text does; with RemoveAll's no-junk clause, it is exactly the text's non-junk characters in their order. |
| Text.ContainsAt | bot/app.py:131 | `phrase in text` holds exactly when the phrase occurs at some offset of the text. |
| App.MentionsAt | bot/app.py:131-165 | A message mentions a phrase list exactly when one of its phrases occurs in the message at some offset. |
| App.SelectIntent | bot/app.py:131-176 | The chosen intent is mentioned, and no intent tested before it is; `Fallback` means none is mentioned. |
| App.SelectFirstMatch | bot/app.py:131-176 | The converse: the first intent mentioned is the one chosen. |
| App.TopSalesMeansRevenue | bot/app.py:73-82 | A message with `top sales` and no show-rows phrase asks for revenue, whatever else it contains. |
| App.TopSalesGrowthExample | bot/app.py:96-104 | `top sales growth` is answered as revenue, not growth. |
| App.Wording | bot/app.py:127-163 | Exactly the load failure and the three "not available" replies have fixed wording, and the contract gives each text. |
| App.Top | bot/app.py:136 | `iloc[0]`: there is a first row exactly when the ranking is available and non-empty, and it is the ranking's first entry. |
| App.Dispatch | bot/app.py:131-176 | The fallback is the overview with the cleaned table's row and column counts. The show-rows reply carries the first five rows. |
| App.RevenueReply | bot/app.py:134-137 | An empty ranking raises `IndexError`. Otherwise the reply names the first shop, whose mean is at least every other shop's. |
| App.BayTimeReply | bot/app.py:139-146 | "Not available" exactly when the ranking is empty or absent. Otherwise the reply names the first shop, whose mean is at most every other shop's. |
| App.CpdReply | bot/app.py:148-155 | "Not available" exactly when empty or absent. Otherwise the first shop, whose mean is at least every other's. |
| App.GrowthReply | bot/app.py:157-163 | "Not available" exactly when empty or absent. Otherwise the first row's shop and label, and that shop has the highest mean growth of all shops. |
| App.LeaderboardReply | bot/app.py:165-173 | When the four aggregates exist, it fails exactly when `BayTime`, `CPD` or the growth column is absent. Otherwise it shows the first five standings. |
| App.Answer | bot/app.py:126-176 | With no data the reply is the load failure, whatever the message. A cleaning error escapes. Otherwise the first-matching branch runs on the cleaned table. |
| App.Process | bot/app.py:129-176 | Cleaning the loaded frame in place and then dispatching gives `Answer`'s result. |
| App.Respond | bot/app.py:56-181 | A missing history becomes a new empty one. The outcome is `Answer` on what `load_data` gave. After a reply, exactly the original message and then the reply are appended to the history, and nothing else changes. When an exception escapes, nothing is appended. |
| App.ChatLog.constructor | bot/app.py:57-58 | A new history is empty. |

## Left out

- The file readers (`pd.read_csv`, `pd.read_excel`) and `pd.to_datetime` are parameters. Their behaviour on real files and real date strings is not modelled.
- The `print` in `load_data`'s error path is left out (console output).
- `save_chat_history`, `load_chat_history` and the greeting they supply are left out (file I/O). So is the Gradio interface.
- `scripts/analyzes.py`'s own `load_data` (lines 4-9) and its `__main__` demo are left out. They are not used by the bot.
- Text.Lower: `str.lower` is modelled on ASCII letters only; Unicode case mapping is not modelled.
- Numbers.ParseNumber: only the plain signed decimal forms are modelled. The exponent (`1e5`), `inf`, `nan` and surrounding-blank forms that `pd.to_numeric` also reads parse to missing here, so Numbers.LetterNotNumber holds in this grammar only.
- Cleaning.ToNumeric: the exponent, `inf`, `nan` and surrounding-blank forms that `pd.to_numeric` also accepts are not modelled; the plain signed decimal forms are.
- Numbers.RoundCents: values are exact reals, so `mean` and `round(2)` carry no binary floating-point error. Rounding is exact half-to-even.
- Numbers.PyRepr: it prints the exact cents. That is Python's text only where the value has at most 15 significant digits (magnitudes below 1e13); there every two-decimal value is told apart by its nearest double. Above that bound, `round(x, 2)` gives the nearest double, whose text can differ: near 1e15 doubles are 0.125 apart. Python's `-0.0` is not produced: a value that rounds to zero prints as `0.0` here.
- App.Dispatch: the reply text (`:,.2f`, `to_string`, the emoji framing) is not modelled. A reply is a value naming the shop, the value, the rows or the counts it shows.
- Metrics.Aggregate: the order among entries that tie on their value is unspecified, as in pandas' default sort; the contract gives sortedness and a permutation, not one tie order.
- Leaderboard.Board: the program lists shops tied on all three counts in ascending shop order, because the outer joins at scripts/analyzes.py:140-142 leave the shop index sorted and the multi-key sort at line 144 is stable. The model keeps the pool's first-appearance order of shops before sorting and its contract leaves the order among such ties unspecified; it gives sortedness by the three counts and a permutation only.
- Metrics.Numeric: a parsed date in an averaged column is treated like text (a `TypeError`), not as a timestamp mean.
- App.Respond: it takes the data file's name as a parameter defaulting to `KPI_Report.xlsx`, so the caller can name another file. The source always uses the default.
- Cleaning is not idempotent. Daily sales given as text such as `$0` pass the `!= 0` test on the raw cell (scripts/analyzes.py:20), become 0 at line 25 and are dropped by a second pass; see Cleaning.CleanIdempotentIff and Cleaning.ZeroTextSurvivesOnce.
- Table: duplicate column names are not modelled. pandas keeps a repeated name as separate columns, and `df[name]` then gives a frame; here a row maps each name to one cell. Cleaning.KeepColumnsCount and Cleaning.CleanKpi state the column count for lists without repeats.
- Concurrent calls of `respond` on one history are not modelled.
