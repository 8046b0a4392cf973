# Credit rules: transcript parser and credit analysis

This project models `utils/credit_rules.py` without its input and output. That file reads a transcript and checks graduation credits. The model has two parts.

- **Record parser** (`extract_courses`). The transcript text is split into lines. Each line is matched against `(.+?)\s+(\d+(?:\.\d+)?)學分\s+GPA[:：]?\s*(\S+)?`. Each matching line yields one record: the trimmed course name, the credits, and the GPA. The GPA is present only when its token is digits with at most one dot.
- **Credit analysis** (the body of `analyze_pdf` once the text and the category map are at hand). Each record is flagged for every category whose name list holds its exact name. A record earns its credits when its GPA is present and at least 1.7. The earned credits are summed per category into a fixed four-row summary with targets 84, 10, 10 and 44. The elective-total row is the sum of the I, II and general elective sums.

Modules, in dependency order:

- `Wrappers` (wrappers.dfy): `Option` and `Present`, which keeps the present values of a sequence of options.
- `Text` (text.dfy): Python's whitespace set, `str.strip`, and `str.splitlines` with every line boundary it knows, plus their lemmas.
- `Numeral` (numeral.dfy): the GPA check `replace('.', '', 1).isdigit()`, and the exact value of a decimal numeral.
- `Transcript` (transcript.dfy): the regular expression written out as a matcher. The name group is the shortest non-empty prefix after which the rest of the line matches. The rest is deterministic: every greedy run stops at the first character outside its class. This module also has the line parser, `extract_courses`, and lemmas characterising exactly which lines parse and to what.
- `Analysis` (analysis.dfy): category flags, valid credit, per-category sums, the summary, and `analyze_pdf` on given text and map.

Credits and GPAs are exact `real` numbers. The category map is the sequence of its JSON entries `(key, names)` in file order.

## Model

| member | source | states |
|---|---|---|
| Transcript.ExtractCourses | utils/credit_rules.py:17-27 | There are never more records than lines. Every record has non-negative credits and a non-negative GPA when it has one. |
| Transcript.ExtractJoined | utils/credit_rules.py:17-27 | The records of lines joined by "\n" are exactly the records of those lines, one per matching line, in line order. Empty lines yield nothing, a last empty line included. |
| Transcript.ExtractAppend | utils/credit_rules.py:17-27 | When a text is empty or ends in "\n", whatever follows it starts a fresh line. The records of the two texts together are those of the first, then those of the second. |
| Transcript.TrailingNewline | utils/credit_rules.py:18-26 | A "\n" appended to any text changes none of its records. |
| Transcript.JoinPages | utils/credit_rules.py:12-14 | The document text puts a "\n" after every page's text, so it is empty or ends in "\n". |
| Transcript.JoinPagesAppend | utils/credit_rules.py:12-14 | The text of two runs of pages is the text of each run, one after the other. |
| Transcript.ExtractPages | utils/credit_rules.py:12-27 | In a document built page by page, each page followed by "\n", two runs of pages yield the records of the first run followed by those of the second. |
| Transcript.OnePage | utils/credit_rules.py:12-27 | A one-page document yields exactly the records of that page's text. The "\n" after it adds none. |
| Transcript.SingleLine | utils/credit_rules.py:18-26 | A one-line document yields that line's record if it matches, and nothing otherwise. |
| Transcript.ParseLines | utils/credit_rules.py:19-26 | A record is among the results exactly when some line parses to it. There are never more records than lines. |
| Transcript.Parsed | utils/credit_rules.py:20-26 | Each line gives exactly one parse outcome, at the same position. |
| Transcript.ParseLinesAppend | utils/credit_rules.py:20-26 | Records keep line order: the records of consecutive runs of lines are those of each run, concatenated. |
| Transcript.ParseLine | utils/credit_rules.py:21-26 | A line gives a record exactly when the pattern matches it. Its credits are never negative, and neither is its GPA. ShapedParses and ParsedLineShape state the two directions of the match in terms of name and tail. |
| Transcript.ShapedParses | utils/credit_rules.py:21-22 | Any non-empty name, whether or not it holds "學分", followed by whitespace, a credit numeral, "學分", whitespace and "GPA", gives a record. With ParsedLineShape this states both directions of "a line gives a record exactly when the pattern matches it". |
| Transcript.ParseShapedLine | utils/credit_rules.py:21-26 | Take any name of length at least 1 that has no "學分", then whitespace, a credit numeral, "學分", whitespace, "GPA" and anything after. That line parses to the stripped name, the numeral's value and the GPA read after "GPA". A bad GPA never stops the parse. Lines whose name holds "學分" are covered only by ParsedLineShape and TailFound. |
| Transcript.ParsedLineShape | utils/credit_rules.py:21-26 | Conversely, every line that parses is a non-empty name followed by a well-formed tail. The name may itself hold "學分", as in "A學分 1學分 GPA:4", whose name is "A學分". No shorter non-empty prefix of the line is followed by a matching tail. The record is the stripped name, the credit numeral's value and the GPA read after "GPA". |
| Transcript.TailFound | utils/credit_rules.py:21 | Wherever a well-formed tail starts, whatever precedes it, the tail matcher finds exactly that tail. |
| Transcript.MatchTailAt | utils/credit_rules.py:21 | A tail match found at a split point is a real match of the pattern's tail. The whitespace, digit, dot and unit runs lie where the pattern puts them. |
| Transcript.NoUnitNoRecord | utils/credit_rules.py:21-22 | A line without the character 學 gives no record. |
| Transcript.GpaTokenFound | utils/credit_rules.py:21 | After "GPA", an optional ASCII or full-width colon, then whitespace, then a non-space run ending at whitespace or at the end of the line: that run is the GPA group. |
| Transcript.GpaTokenMissing | utils/credit_rules.py:21 | When only an optional colon and whitespace follow "GPA", the GPA group is absent. |
| Transcript.AlgebraExample | utils/credit_rules.py:21-26 | "Algebra 3學分 GPA:4.0" gives the record ("Algebra", 3, 4.0). |
| Transcript.MissingGpaExample | utils/credit_rules.py:21-26 | "Algebra 3學分 GPA:" gives the record ("Algebra", 3) without a GPA. |
| Transcript.LetterGradeExample | utils/credit_rules.py:21-26 | "Algebra 3學分 GPA: A+" gives the record ("Algebra", 3) without a GPA. |
| Numeral.ParseGpa | utils/credit_rules.py:25 | The GPA is present exactly when the group is present and is a numeral: only digits and dots, at least one digit and at most one dot, so ".5" and "5." count. A present GPA is non-negative. |
| Numeral.NumeralCheck | utils/credit_rules.py:25 | "Remove the first dot, then all characters are digits" holds exactly when the token is a numeral. |
| Numeral.ValueDigits | utils/credit_rules.py:24-25 | A numeral's value is the integer its digits spell once the dot is removed, divided by ten to the number of digits after the dot. |
| Numeral.TrailingZero | utils/credit_rules.py:24-25 | Adding a zero after the dot of a numeral keeps its value. |
| Numeral.TwoDotsNoGrade | utils/credit_rules.py:25 | The token "4.0.0" gives no GPA. |
| Text.Strip | utils/credit_rules.py:26 | The stripped name is empty exactly when the name is all whitespace. Otherwise it starts and ends with a non-space character. |
| Text.StripUnpads | utils/credit_rules.py:26 | Stripping removes exactly the surrounding whitespace: whitespace + m + whitespace strips to m when m has no whitespace at either end. |
| Text.StripIgnoresTrailingSpace | utils/credit_rules.py:21-26 | Whitespace appended to a name does not change the stripped name. |
| Text.SplitLines | utils/credit_rules.py:18 | No line holds a line boundary, and there are never more lines than characters. |
| Text.SplitJoin | utils/credit_rules.py:18 | Splitting lines joined by "\n" gives the lines back, provided none holds a boundary and the last is non-empty. |
| Text.SplitAppend | utils/credit_rules.py:18 | Text that is empty or ends in "\n" splits on its own: the lines of it followed by more text are its lines, then the lines of the rest. |
| Text.SplitNewline | utils/credit_rules.py:18 | Appending "\n" to a text adds at most one line, and that line is empty. |
| Wrappers.PresentAppend | utils/credit_rules.py:20-26 | Keeping the present records of two runs is the same as keeping those of each run and concatenating them. |
| Analysis.ValidCredit | utils/credit_rules.py:59-63 | A record earns its credits when its GPA is present and at least 1.7, and nothing otherwise. For non-negative credits the result lies between 0 and the credits. |
| Analysis.ValidCreditMonotone | utils/credit_rules.py:61 | Raising a GPA never lowers the valid credit. |
| Analysis.PassGradeExamples | utils/credit_rules.py:61 | The boundary is inclusive: GPA 1.7 earns the credits, while 1.5 and a missing GPA earn nothing. |
| Analysis.Mark | utils/credit_rules.py:56 | Setting a flag by key raises only the flag of the category with that key. The record and valid credit are unchanged. |
| Analysis.MarkAllFlags | utils/credit_rules.py:52-56 | After the loop over the map, a flag is set exactly when it was already set or some entry for its category lists the name. |
| Analysis.Classify | utils/credit_rules.py:49-65 | A row carries its record and valid credit. It is flagged for a category exactly when the category's list holds the exact name, so a row may carry several flags or none. |
| Analysis.EarnedNonNegative | utils/credit_rules.py:67-72 | A category's sum is never negative when no valid credit is. |
| Analysis.EarnedAppend | utils/credit_rules.py:67-72 | The sum over two runs of rows is the sum of their sums. |
| Analysis.EarnedAtMostTotal | utils/credit_rules.py:67-72 | No category earns more than the valid credits of all rows together. |
| Analysis.TableEarned | utils/credit_rules.py:67-72 | Summing the flagged rows of the table equals summing, over the records, the valid credit of those whose name the category lists. |
| Analysis.UnlistedEarnsNothing | utils/credit_rules.py:67-72 | A category that lists none of the records earns 0. |
| Analysis.SummaryCredits | utils/credit_rules.py:67-84 | Each of the first three summary rows holds the credit its category's listed records earn. The last row holds the credit of the I, II and general elective categories together. |
| Analysis.AnalyzeCourses | utils/credit_rules.py:34-84 | The summary always has four rows with labels 必修, I 類選修, II 類選修, 選修總學分 and targets 84, 10, 10, 44. Each earned value is the sum of its category and is non-negative. The elective total is I + II + general. With no record the table is empty and all four earned values are 0. |
| Analysis.Analyze | utils/credit_rules.py:31-89 | The table lists exactly the parsed records of the text, in order. The summary has the four fixed rows with non-negative earned values, all 0 when no line matches. |
| Analysis.PassLineEarns | utils/credit_rules.py:59-63 | The line "Algebra 3學分 GPA:1.7" earns its 3 credits: the pass grade itself passes. |
| Analysis.LowLineEarnsNothing | utils/credit_rules.py:59-63 | The line "Algebra 3學分 GPA:1.5" parses but earns nothing. |
| Analysis.RequiredExample | utils/credit_rules.py:49-84 | With "Algebra" listed as required, a passed 3-credit Algebra earns 3 required credits and nothing in the other rows. |
| Analysis.AnalyzeExample | utils/credit_rules.py:31-89 | The document "Algebra 3學分 GPA:4.0", with "Algebra" listed as required, gives one table row, 3 required credits and 0 elsewhere. |

## Left out

- `parse_pdf` (utils/credit_rules.py:10-15): extracting each page's text from a PDF goes through an external library and is not modelled. A page whose extraction yields `None` would make the source raise. `JoinPages` models how the page texts are joined, and `Analyze` takes the document text as a parameter.
- `load_category_map` (utils/credit_rules.py:6-8): reading the JSON file. The map is a parameter instead, given as its entries in file order. When JSON holds the same key twice, only the last entry survives loading; the model lets every entry count.
- pandas mechanics (`iterrows`, `df.at`, `apply`, boolean-mask `sum`) are modelled as sequences of rows and recursive sums. An empty course table is modelled as an empty sequence rather than a frame without columns.
- Floating point: credits, GPAs and sums are exact reals. Float rounding in `float()`, in the 1.7 comparison and in the sums is not modelled.
- Analysis.ValidCredit: does not model the bare `try/except` (utils/credit_rules.py:60-63). With an optional GPA the computation is total. A pandas NaN GPA is modelled as an absent GPA, which earns 0 in the source too.
- Analysis.Mark: a map key other than the four category keys is ignored by the model. In the source, a key that names no existing column creates a new column that is never summed. A key naming an existing column (課程名稱, 學分, GPA) overwrites that row's cell with True, so for 學分 or GPA the row's valid credit changes; this is not modelled.
- Name lookup assumes each map value is a list of names. When a value is a plain string, Python's `in` tests for a substring, and this is not modelled.
- Numeral.ParseGpa: digits are ASCII only. Other Unicode decimal digits, which `\d` and `isdigit` also accept, are not modelled. The source also has a failure the model does not. Take a GPA token like "²", for which `isdigit()` is true but `float()` raises `ValueError`. Line 25 is outside any `try`, so `extract_courses` and `analyze_pdf` raise. The model instead yields the record without a GPA.
- Transcript.ParseLine: requires the line to hold no "\n", the only character `.` refuses. Lines produced by splitting never hold one.
