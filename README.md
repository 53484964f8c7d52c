# TextProcessor, modelled in Dafny

A model of the `TextProcessor` class of main.py, a small text utility with
four operations:

- `validate_string_length` checks that a text's length lies within inclusive bounds.
- `count_unique_characters` builds a character-frequency dictionary and remembers the text in `last_processed`.
- `extract_numbers` finds the numeric tokens matched by `-?\d*\.?\d+`.
- `sanitize_text` keeps letters, and optionally digits, whitespace and listed special characters.

Each operation is stated in Dafny and proved against the promises the source
and its tests make.

Files (one module each):

- `values.dfy` (`Values`): the shared values.
  - The dynamically typed argument is `Input = Str(s) | NotStr`.
  - The raised `ValueError("Input must be a string")` is a `Result` failure.
  - Python's Unicode character classes are supplied as `CharTables`.
- `char_count.dfy` (`CharCount`): the dictionary the counting loop builds (`Counts`) and its sum (`Total`), with what they mean.
- `number_scan.dfy` (`NumberScan`): the pattern `-?\d*\.?\d+` and the scan for its matches.
  - `IsMatch` states the pattern by cutting a range of the text into its four parts.
  - `FindAll` states what `re.findall` reports for it.
  - The scanner (`MatchEnd`, `Scan`) returns exactly what `FindAll` describes, proved in both directions.
- `sanitize.dfy` (`Sanitize`): the keep test of the filter loop (`Keep`) and the filtered text (`Filtered`), with what they mean.
- `processor.dfy` (`Processor`): the operations themselves.
  - `ValidateStringLength` and `ExtractNumbers` are functions; they read no state and contain no loop.
  - `class TextProcessor` holds the field `lastProcessed`. Its two looping operations, `CountUniqueCharacters` and `SanitizeText`, are methods whose loops are proved against `Counts` and `Filtered`.
- `source_tests.dfy` (`SourceTests`): the expectations of test.py, stated against the model.

Python's `len` counts code points, and a Dafny `char` is a Unicode scalar
value, so `|s|` is the source's length for every string without lone
surrogates (see "## Left out").

## Model

| member | source | states |
|---|---|---|
| Processor.TextProcessor.constructor | main.py:7-8 | A new processor has no last processed text. |
| Processor.ValidateStringLength | main.py:10-25 | True exactly when the argument is a string whose number of code points lies within `[min_length, max_length]`; any non-string gives false, never an error. |
| Processor.ValidateWiderBounds | main.py:22-25 | A text accepted between two bounds is accepted between any wider ones; with `min_length > max_length` nothing is accepted. |
| Processor.TextProcessor.CountUniqueCharacters | main.py:27-45 | A non-string gives `ValueError("Input must be a string")` and leaves `last_processed` as it was. For a string, the loop's dictionary is `Counts(text)` and `last_processed` becomes the text. |
| CharCount.Counts | main.py:40-42 | The dictionary the loop builds, one `get(c, 0) + 1` step per character in text order; every count lies between 1 and the length of the text. |
| CharCount.CountsAreOccurrences | main.py:40-42 | A character is a key of the dictionary exactly when it occurs in the text. Its value is its number of occurrences, so at least 1. |
| CharCount.CountsKeys | main.py:40-42 | The key set is the set of characters of the text, so the empty text gives the empty dictionary. |
| CharCount.TotalIncrement | main.py:42 | One `char_count[c] = char_count.get(c, 0) + 1` step adds exactly one to the sum of the counts. |
| CharCount.CountsTotal | main.py:40-42 | The counts add up to the length of the text. |
| Processor.ExtractNumbers | main.py:47-62 | Fails exactly for a non-string, with `ValueError("Input must be a string")`. |
| NumberScan.DigitRunEndIsRun | main.py:60 | The `\d` run found from a position is maximal: all digits up to its end, and no digit at its end. |
| NumberScan.MatchEnd | main.py:60 | One attempt of `-?\d*\.?\d+` at a position: its end lies between that position and the end of the text (the position itself when nothing matches). |
| NumberScan.Scan | main.py:61 | The left-to-right search of `re.findall`: every span lies in the text from the starting position on, is non-empty, and the spans are ordered and do not overlap. |
| NumberScan.MatchEndIsLongest | main.py:60-61 | The scanner's match at a position is the longest match of the pattern starting there, and it reports none exactly when no match starts there. |
| NumberScan.ScanSkips | main.py:61 | A stretch with no minus sign, no decimal point and no digit produces no match. |
| NumberScan.ScanIsFindAll | main.py:61 | The scan's spans are what `findall` reports. Nothing matches before a span, each span is the longest match at its start, and the search resumes at its end. |
| NumberScan.FindAllIsScan | main.py:61 | Any list of spans that satisfies the `findall` description is the scan's list, so the description determines the result. |
| NumberScan.Texts | main.py:61 | There is one token per span, and token k is the text between span k's bounds. |
| NumberScan.MatchIsToken | main.py:60-61 | A match inside the text, taken out on its own, matches the whole pattern. |
| NumberScan.TokenShape | main.py:60 | A token of the pattern is non-empty and ends with a digit. It holds at most one `.`, and a `-` only in front. |
| Processor.ExtractNumbersIsFindAll | main.py:57-61 | For the spans `findall` reports, the tokens are the texts of those spans, in order. The spans are non-empty, lie in the text and do not overlap. |
| Processor.FindAllSpanMatches | main.py:61 | Every span `findall` reports matches the pattern. |
| Processor.ExtractedTokenShape | main.py:57-61 | Each returned token matches `-?\d*\.?\d+` on its own. It ends with a digit, has at most one `.`, and has a `-` only in front. |
| Processor.ExtractNumbersNoDigits | main.py:57-61 | A text without any decimal digit yields no tokens. |
| Processor.TextProcessor.SanitizeText | main.py:64-107 | A non-string gives `ValueError("Input must be a string")`. For a string, the loop (with its `continue` branches) builds `Filtered(text, options)`. No state changes. |
| Sanitize.Keep | main.py:88-105 | The four tests of the loop body, as a disjunction: a letter; a digit when `allow_numbers`; whitespace when `allow_spaces`; a character of a non-empty `allowed_special_chars`. |
| Sanitize.Filtered | main.py:84-107 | The joined `result` list, grown at its end by each character that passes `Keep`; it is no longer than the text, and each of its characters passes `Keep`. |
| Sanitize.FilteredOccurrences | main.py:87-105 | Every occurrence of a character that passes one of the four tests is kept, and every occurrence of any other character is dropped. |
| Sanitize.FilteredAllKept | main.py:87-105 | Every character of the result passes one of the four tests. |
| Sanitize.FilteredIsSubsequence | main.py:84-107 | The result is a subsequence of the input, in its order, so it is no longer than the input. |
| Sanitize.LettersKept | main.py:88-91 | Letters are never removed, whatever the options. |
| Sanitize.FilteredUnchanged | main.py:87-105 | A text whose every character passes comes back unchanged. |
| Sanitize.FilteredNothingKept | main.py:87-105 | A text none of whose characters passes comes back empty. |
| Sanitize.FilteredAppend | main.py:87-105 | Filtering a concatenation gives the concatenation of the filtered parts. |
| Sanitize.FilteredIdempotent | main.py:87-105 | Sanitizing twice with the same options is the same as sanitizing once. |
| SourceTests.SanitizeListedDigitExample | main.py:104 | The `allowed_special_chars` test applies to every character: `"a1"` keeps its `1` with `allow_numbers=False, allowed_special_chars="1"` and loses it without that list. |
| SourceTests.ValidateExamples | test.py:8-31 | `"Hello"` is accepted. `""`, a non-string and `"a" * 1001` are rejected. The non-ASCII texts (Chinese, Arabic, emoji) are accepted, both as stored in the file and as intended. |
| SourceTests.CountHelloExample | test.py:33-35 | `"hello"` counts as `{h: 1, e: 1, l: 2, o: 1}`. |
| SourceTests.CountUnicodeExample | test.py:37-41 | In the intended text "你好你世界", 你 occurs twice and 好 once. |
| SourceTests.ProcessorScenario | test.py:43-47 | On one processor, counting `"hello"` and then a non-string: the second count gives `ValueError("Input must be a string")` and `last_processed` stays `"hello"`; extracting from a non-string (test.py:62-64) also gives that `ValueError`. |
| SourceTests.ExtractPriceExample | test.py:49-51 | `"The price is 23.50 and quantity is 5"` yields the tokens `"23.50"` and `"5"`. |
| SourceTests.ExtractNegativeExample | test.py:53-56 | The stored temperature text yields the single token `"-15.5"`. |
| SourceTests.ExtractLargeExample | test.py:58-60 | `"Distance is 1234567.89 light years"` yields the single token `"1234567.89"`. |
| SourceTests.SanitizeBasicExample | test.py:66-68 | `"Hello123!"` with the default options becomes `"Hello123"`. |
| SourceTests.SanitizeUnicodeExample | test.py:70-76 | The intended text `"你好123 World!"` with `!` allowed comes back unchanged. |
| SourceTests.SanitizeUnicodeAsWritten | test.py:70-76 | The stored text comes back changed: its leading per mille sign is dropped. |
| SourceTests.SanitizeLongExample | test.py:78-82 | `"A" * 10000 + "123" + "!" * 100` becomes `"A" * 10000 + "123"`. |
| SourceTests.SanitizeSpecialExample | test.py:84-88 | `"Hello@#$%^&*()"` with `@#$` allowed becomes `"Hello@#$"`. |

## Left out

- Processor.ExtractNumbers: returns the matched token strings, not floats. `float(num)` at main.py:62 is floating-point parsing, outside this model. The examples compare tokens (`"23.50"`), not the values the tests compare (`23.50`).
- The `re` engine is not modelled. `re.findall` at main.py:61 is replaced by the explicit scanner, which reports the longest match at the leftmost position. Python's backtracking gives the same match for this pattern, for two reasons: `-?`, `\d*` and `\.?` are greedy, and `\d+` must end at the end of a digit run. The pattern never matches the empty string, so no empty-match rules are involved.
- Python's Unicode tables behind `str.isalpha`, `str.isdigit`, `str.isspace` and the `\d` class are not modelled. They are parameters (`CharTables`), and every general property holds for any tables. The scanner properties assume only that `.` and `-` are not decimal digits (`ValidDecimal`), which holds for Unicode's decimal digits.
- Python's dynamic typing is reduced to one distinction, string or not (`Input`). `None`, `123` and any other value are the same `NotStr`.
- Exceptions are values: `ValueError` is the `Failure` case of `Result`, raised before any state changes. main.py:38, 58 and 81 raise `ValueError`.
- Python strings holding lone surrogate code points (U+D800 to U+DFFF, such as `"\ud800"`) are outside the model: Python's `len` counts them, but no Dafny string holds them. Every operation treats characters uniformly, so no property depends on this.
- CharCount.Counts: the dictionary is a `map<char, nat>`, which does not keep the insertion order (first occurrence) of a Python `dict`; test.py:35 compares dictionaries without regard to order.
- Concurrency and object identity are not modelled. `TextProcessor` is a single-threaded object with one field.
- Where test.py's mis-encoded literals make an expectation fail, the expectation is stated on the intended text. The stored sanitize literal is modelled separately, under "## Findings".
  - As stored, lines 39-40 look up the three-character key `'‰Ω†'` in a dictionary keyed by single characters, so the test raises `KeyError`; the count example uses the evidently intended text instead.
  - Line 55's `¬∞` stands for a degree sign. It is kept as stored, because the result does not depend on it.

## Findings

| source | as written | input that shows it | evidently intended | confidence | as-written member | corrected member |
|---|---|---|---|---|---|---|
| test.py:72-76 | The text and expected result are UTF-8 Chinese characters stored mis-encoded as Mac Roman. Their first character is U+2030 (per mille), which is neither a letter, a digit, whitespace nor `!`, so `sanitize_text` drops it and the expected equality cannot hold. | `"‰Ω†Â•Ω123 World!"` with `allowed_special_chars="!"` | `"你好123 World!"`, which comes back unchanged | high; not executed | SourceTests.SanitizeUnicodeAsWritten | SourceTests.SanitizeUnicodeExample |
