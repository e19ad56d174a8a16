# Text file analyzer: metrics, word frequencies and the text report

This project models the analysis core of a small text-file analyzer:

- `TextAnalyzer` takes the content of one text. It computes the line count (Python's `splitlines`), the word count and the distinct-word count of the normalised tokens, the raw character count, and the average token length.
- `WordFrequency` builds a frequency table of the same tokens and caches it in `df`. The table has one row per distinct word, ranked by count, highest first. `WordFrequency` also answers top-ten and filter queries from that table.
- `Report` composes the text report from the metrics and the top ten: a fixed header with the statistics and two per-line ratios, then one ranked line per word. `Report` also decides whether there is anything to chart.

The files, one module each:

- `chars.dfy` (`Chars`): the character classes behind `\w`, `\s` and the `splitlines` boundaries, and lower-casing.
- `lines.dfy` (`Lines`): `splitlines` and its inverse, joining lines that each end in `"\n"`.
- `tokens.dfy` (`Tokens`): the normalisation. It strips characters that are neither word characters nor whitespace, lower-cases, and splits on whitespace.
- `text_analyzer.dfy` (`Analysis`): `TextAnalyzer` as a datatype. The object only stores its text, so every metric is a function of that text.
- `frequency.dfy` (`Frequency`): the frequency table as a specification (`FrequencyTable`), with its properties. It also holds the counting pass (`Tally`, `CountOccurrences`), which is a loop proved against that specification.
- `word_frequency.dfy` (`WordFreq`): the `WordFrequency` class. Its `df` field starts as `None` and is filled by the first query.
- `decimal.dfy` (`Decimal`): how an integer is printed in the report.
- `report.dfy` (`Reporting`): the `Report` class, the report text and the ranking loop.
- `optional.dfy` (`Optional`): the `Option` type, which stands for a missing content.

The analyzer stores the text cleaned first and lower-cased second. `WordFrequency` lower-cases first and cleans second. With the case mapping modelled here, `Tokens.SameTokens` proves that the two orders give the same tokens. The report's word counts and the table therefore describe the same words.

## Model

| member | source | states |
|---|---|---|
| Analysis.TextAnalyzer.CleanText | PS1/frequency_analyzer.py:15-19 | the cleaned text is no longer than the text, holds only word characters and whitespace and no upper-case letter, and equals what lower-casing first and cleaning second gives |
| Analysis.TextAnalyzer.CountLines | PS1/frequency_analyzer.py:21-25 | the line count is the number of line boundaries ("\r\n" counted once), plus one when text follows the last boundary; it is 0 exactly when the text is empty |
| Analysis.TextAnalyzer.CountWords | PS1/frequency_analyzer.py:27-31 | the word count is the number of normalised tokens, which is the number of maximal runs of non-whitespace in the cleaned text; it is 0 exactly when the text holds no word character, and it never exceeds the character count |
| Analysis.TextAnalyzer.CountCharacters | PS1/frequency_analyzer.py:33-35 | the raw length counts punctuation, whitespace and case, so it bounds the total length of the tokens |
| Analysis.TextAnalyzer.CountUniqueWords | PS1/frequency_analyzer.py:37-42 | the count is the size of the set of tokens; it is at most the word count, and 0 exactly when the word count is 0 |
| Analysis.TextAnalyzer.AvgWordLength | PS1/frequency_analyzer.py:44-50 | 0 without tokens; otherwise total token length over token count, a mean of at least 1 whose numerator is at most the character count |
| Analysis.NoContentGivesZeros | PS1/frequency_analyzer.py:9-10 | a missing or empty text gives 0 lines, words, characters, unique words and average length |
| Analysis.Analyze | PS1/frequency_analyzer.py:9-13 | a missing content is analysed as the empty text and a given one as itself; `NoContentGivesZeros` shows every metric of the missing content is 0 |
| Lines.SplitLines | PS1/frequency_analyzer.py:25 | the specification of `splitlines`; `SplitLinesCount`, `SplitLinesHaveNoBreaks`, `SplitJoinLines` and `SplitLinesAppend` state its properties |
| Lines.SplitLinesCount | PS1/frequency_analyzer.py:25 | `splitlines` gives one line per boundary and one more only for non-empty trailing text, with no empty last line made up |
| Lines.SplitLinesHaveNoBreaks | PS1/frequency_analyzer.py:25 | no line returned by `splitlines` contains a boundary character |
| Lines.SplitJoinLines | PS1/analyzer_main.py:57-60 | lines without boundaries, each written with "\n", are split back into exactly those lines |
| Lines.SplitLinesAppend | PS1/analyzer_main.py:40-60 | text that ends in "\n" splits independently of what is appended after it |
| Tokens.Clean | PS1/frequency_analyzer.py:18 | the substitution never lengthens the text and leaves only word characters and whitespace |
| Tokens.CleanMembers | PS1/frequency_analyzer.py:18 | a character survives the substitution exactly when it occurs in the text and is a word character or whitespace; clean text is unchanged |
| Tokens.CleanAppend | PS1/frequency_analyzer.py:18 | the substitution works character by character: it distributes over concatenation, and one character is kept exactly when it is a word character or whitespace |
| Tokens.Lower | PS1/frequency_analyzer.py:19 | lower-casing keeps the length and maps each character on its own |
| Tokens.SplitWords | PS1/frequency_analyzer.py:31 | `split()` gives non-empty tokens without whitespace, made of characters of the text; there are none exactly when the text is all whitespace; together they are no longer than the text; `SplitWordsCases` fixes where every token starts and ends |
| Tokens.SplitWordsAreRuns | PS1/frequency_analyzer.py:31 | the tokens of `split()`, written one after another, are the text with its whitespace removed, and there are as many tokens as positions that start a run of non-whitespace |
| Tokens.SplitWordsCases | PS1/frequency_analyzer.py:31 | `split()` by its two defining cases: whitespace alone gives no token, and whitespace, then a maximal run `w` of non-whitespace, then text that is empty or starts with whitespace give the token `w` followed by the tokens of that text; these two cases define `split()` independently of its body and fix where each token starts and ends |
| Tokens.ElementsBound | PS1/frequency_analyzer.py:41-42 | a list has at most as many distinct words as entries, and at least one when it is non-empty |
| Tokens.CleanLowerCommute | PS1/frequency_analyzer.py:65 | cleaning then lower-casing equals lower-casing then cleaning |
| Tokens.SameTokens | PS1/frequency_analyzer.py:62-66 | `WordFrequency` tokenises a text exactly as `TextAnalyzer` does |
| Tokens.FrequencyTokens | PS1/frequency_analyzer.py:65-66 | the word list of `WordFrequency`; `SameTokens` proves it equal to the analyzer's tokens |
| Tokens.AnalyzerTokensShape | PS1/frequency_analyzer.py:15-19 | every token is non-empty, lower-case and made of word characters only: punctuation never survives into a token |
| Tokens.NoTokensIffNoWordChar | PS1/frequency_analyzer.py:27-31 | there are no tokens exactly when the text holds no word character |
| WordFreq.WordFrequency.constructor | PS1/frequency_analyzer.py:57-60 | a missing text is stored as the empty text, the tokens are those of the text, and there is no table yet |
| WordFreq.WordFrequency.ProcessText | PS1/frequency_analyzer.py:62-66 | the token list equals the analyzer's tokens and every entry is a well-formed token |
| WordFreq.WordFrequency.GetFrequencyDist | PS1/frequency_analyzer.py:68-77 | returns the ranked frequency table of the tokens (empty for no tokens), stores it in `df`, and keeps the object consistent |
| WordFreq.WordFrequency.GetTop10 | PS1/frequency_analyzer.py:79-83 | returns the first min(10, rows) rows of the table; a table already in `df` is reused unchanged |
| WordFreq.WordFrequency.FilterWords | PS1/frequency_analyzer.py:85-93 | returns exactly the table rows whose word satisfies the predicate; an empty table is returned as it is; a table already in `df` is reused unchanged |
| Frequency.Tally | PS1/frequency_analyzer.py:74 | the counting pass has a key for each word read and no other, maps it to the word's number of occurrences, and records keys in first-insertion order |
| Frequency.TalliedCounts | PS1/frequency_analyzer.py:74 | the dictionary built word by word has exactly the words read as keys, each mapped to its number of occurrences |
| Frequency.CountOccurrences | PS1/frequency_analyzer.py:74-75 | the items of the counter are one row per distinct word, in first-occurrence order, each with that word's count |
| Frequency.Counted | PS1/frequency_analyzer.py:74-75 | the specification of the counter's items; `FirstOccurrencesOrder` and `CountedTotal` state its order and total, and `CountOccurrences` computes it |
| Frequency.FirstOccurrencesSnoc | PS1/frequency_analyzer.py:74 | reading a further word appends it to the distinct words exactly when it has not been seen |
| Frequency.FirstOccurrencesOrder | PS1/frequency_analyzer.py:74-75 | the distinct words are listed in the order in which they first occur |
| Frequency.CountedTotal | PS1/frequency_analyzer.py:74-75 | the counts of the counter's items add up to the number of tokens |
| Frequency.Insert | PS1/frequency_analyzer.py:76 | one insertion step of the ranking: the rows afterwards are those before plus `r`, one more of them |
| Frequency.InsertSorted | PS1/frequency_analyzer.py:76 | inserting into a ranked table leaves it ranked by count, highest first |
| Frequency.InsertTotal | PS1/frequency_analyzer.py:76 | inserting adds the new row's count to the total |
| Frequency.InsertDistinct | PS1/frequency_analyzer.py:76 | inserting a row whose word is new keeps the words distinct |
| Frequency.InsertTies | PS1/frequency_analyzer.py:76 | inserting a row whose word occurs before all others keeps ties in first-occurrence order |
| Frequency.SortByCount | PS1/frequency_analyzer.py:76 | the ranked table is a permutation of the rows; `SortByCountSorted`, `SortByCountTies`, `SortByCountTotal` and `SortByCountDistinct` state its order, stability, total and distinctness |
| Frequency.SortByCountSorted | PS1/frequency_analyzer.py:76 | after sorting, counts never increase down the table |
| Frequency.SortByCountTies | PS1/frequency_analyzer.py:76 | sorting is stable: rows with equal counts keep the first-occurrence order of their words |
| Frequency.SortByCountTotal | PS1/frequency_analyzer.py:76 | sorting keeps the total of the counts |
| Frequency.SortByCountDistinct | PS1/frequency_analyzer.py:76 | sorting rows with distinct words leaves the words distinct |
| Frequency.FrequencyTable | PS1/frequency_analyzer.py:68-77 | the specification of `get_frequency_dist`; `FrequencyTableRows`, `FrequencyTableTotals` and `FrequencyTableOrder` state its rows, totals and order |
| Frequency.FrequencyTableRows | PS1/frequency_analyzer.py:68-77 | the table has one row per distinct token and none for anything else; each count is that token's number of occurrences, at least 1; it is empty exactly when there are no tokens |
| Frequency.FrequencyTableTotals | PS1/frequency_analyzer.py:68-77 | there are as many rows as distinct tokens, and the counts add up to the number of tokens |
| Frequency.FrequencyTableOrder | PS1/frequency_analyzer.py:76 | the table is ranked by count, highest first, and ties are in first-occurrence order |
| Frequency.Head | PS1/frequency_analyzer.py:83 | `head(n)` is the prefix of the table of length min(n, rows) |
| Frequency.TopTenAreMostFrequent | PS1/frequency_analyzer.py:83 | the top ten are the first min(10, rows) rows, still ranked, and no row left out has a higher count than a row kept |
| Frequency.FilterRows | PS1/frequency_analyzer.py:93 | a row is kept exactly when it is in the table and its word satisfies the predicate |
| Frequency.FilterRowsInOrder | PS1/frequency_analyzer.py:93 | the kept rows appear in table order |
| Frequency.FilterRowsSorted | PS1/frequency_analyzer.py:93 | filtering a ranked table leaves it ranked |
| Frequency.FilterRowsDistinct | PS1/frequency_analyzer.py:93 | filtering leaves the words of the rows distinct |
| Frequency.FirstOccurrencesPrefixExample | PS1/frequency_analyzer.py:74 | for distinct words a and b, the distinct words of `b a a b` are b, a, in that order |
| Frequency.FirstOccurrencesExample | PS1/frequency_analyzer.py:74 | for distinct words a, b and c, the distinct words of `b a a b c` are b, a, c, in that order |
| Frequency.CountedExample | PS1/frequency_analyzer.py:74-75 | counting `b a a b c` gives b: 2, a: 2, c: 1, in first-occurrence order |
| Frequency.RankingExample | PS1/frequency_analyzer.py:68-77 | ranking `b a a b c` gives b: 2, a: 2, c: 1; the tie between b and a keeps first-occurrence order |
| Decimal.NatToString | PS1/analyzer_main.py:44-47 | an integer prints as a non-empty string of decimal digits, with no leading zero except for 0 itself |
| Decimal.NatToStringRoundTrip | PS1/analyzer_main.py:44-47 | reading the printed digits back gives the integer |
| Reporting.Basename | PS1/analyzer_main.py:41 | the printed file name is the part of the path after its last '/': a suffix of the path with no '/' in it |
| Reporting.PerLine | PS1/analyzer_main.py:36-38 | a per-line ratio; `RatiosOfAnalyzer` shows it is the integer 0 exactly when there are no lines, and otherwise the amount over the line count |
| Reporting.Render | PS1/analyzer_main.py:44-53 | how a metric is printed: an integer in decimal (see `NatToString`), a quotient through the rounding formatter |
| Reporting.StatisticsOf | PS1/analyzer_main.py:34-48 | the metrics the report reads from the analyzer; `GenerateTextReport` builds its header from them |
| Reporting.HeaderLines | PS1/analyzer_main.py:40-56 | the sixteen header lines of the report, the statistics and ratios printed in them; `ReportLines` and `GenerateTextReport` place them before the ranked lines |
| Reporting.RankText | PS1/analyzer_main.py:59 | one ranked line; `RankTextHasNoBreak` shows it holds no line boundary when its word holds none |
| Reporting.RankTexts | PS1/analyzer_main.py:57-60 | one ranked line per row; `AppendRankedLines` computes them and `ReportLines` shows they split back into one line per row |
| Reporting.ReportText | PS1/analyzer_main.py:40-60 | the whole report text; `ReportLines` shows its ranked section splits into one line per top row, in table order |
| Reporting.RatiosOfAnalyzer | PS1/analyzer_main.py:34-38 | each per-line ratio is the integer 0 exactly when the text is empty, otherwise the amount over the line count; words never exceed characters |
| Reporting.RankTextHasNoBreak | PS1/analyzer_main.py:59 | a ranked line holds no line boundary when its word holds none |
| Reporting.TableWordsHaveNoBreak | PS1/frequency_analyzer.py:62-77 | every word in the table is a well-formed token, so no ranked line breaks inside a word |
| Reporting.ReportLines | PS1/analyzer_main.py:40-60 | the report is the header's lines, then one line per top row in table order, with ranks counting up from 1 |
| Reporting.GeneratedReportLines | PS1/analyzer_main.py:31-60 | the report built from a text's top ten reads back as the header's lines followed by exactly one ranked line per top row, in table order |
| Reporting.AppendRankedLines | PS1/analyzer_main.py:57-60 | the loop appends `<rank>. <word> - <count> occurrences` and a newline per row, in table order, the rank starting at 1 and going up by one |
| Reporting.Report.constructor | PS1/analyzer_main.py:24-27 | the report keeps the file name, the analyzer and the word-frequency object it was given |
| Reporting.Report.GenerateTextReport | PS1/analyzer_main.py:29-60 | the text is the header built from the analyzer's metrics and ratios, followed by the ranked lines of the top ten of the frequency table, and it reads back as the header's lines then one line per top row; the table is built and cached if it was not already |
| Reporting.Report.GenerateChart | PS1/analyzer_main.py:79-84 | there is nothing to plot exactly when there are no tokens; otherwise the bars are the top ten rows |

## Left out

- Writing files is not modelled: the report file, the CSV export (`save_frequency_csv`) and the chart image. The console messages and the `except` branches that print write errors are not modelled either. The report is returned as a string, and the chart as the rows it would draw.
- Drawing the chart (matplotlib figure, labels, rotation, layout) is not modelled. Only the empty guard and the data are.
- The `analysis_logger` decorator, the `main` entry point (reading the path from input, checking that the file exists, timing) and `PS1/text_class.py` (reading the file) are not part of this model. The content arrives as an `Option<string>`.
- Analysis.TextAnalyzer.AvgWordLength: returns the exact quotient. `round(..., 1)` is not modelled, because floating-point rounding is outside this model. The same applies to the two per-line ratios in `Reporting.PerLine`. The report prints these through a `formatQuotient` parameter that stands for `str(round(num / den, 1))`.
- `\w` is modelled as ASCII letters, digits and underscore, and `lower()` as ASCII case mapping. Python also treats non-ASCII letters and digits as word characters and lower-cases them. With full Unicode case mapping, lower-casing can produce characters that the cleaning then removes (for example, 'İ' lowers to 'i' plus a combining dot). There, cleaning first and lower-casing first can give different tokens. `Tokens.SameTokens` holds for the ASCII model only.
- `\s` and the `splitlines` boundaries follow Python's fixed character lists exactly.
- Frequency.SortByCount: `sort_values` uses pandas' default quicksort, which is not stable. Among words with equal counts, its row order is not guaranteed. The model ranks with a stable sort, so ties keep first-occurrence order.
- WordFreq.WordFrequency.FilterWords: the predicate is a total, pure function. A predicate that raises, or depends on state, is not modelled.
- The DataFrames returned by `get_top_10` and `filter_words` are views and copies of `df`, and the model returns values. Sharing between them and `df` is not modelled.
- `content if content else ""` treats every falsy argument as the empty text. The model distinguishes only a missing content (`None`) from a string.
- Reporting.Basename: models POSIX paths only. On Windows, `os.path.basename` also splits at a backslash and after a drive letter's colon.
- Reporting.ReportLines: states how the ranked section splits into lines. It does not state that the header splits into exactly its sixteen lines, which would fail for a file name containing a line break.
